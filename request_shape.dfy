/**
 * The version-field shape of the variants of `ServerReqMsg` in
 * src/core/messages.rs: whether a request's fields open with an explicit
 * protocol `version`, start directly with its data, or are absent.
 */
module RequestShapes {
  import opened RequestCodes

  datatype FieldShape =
    | LeadsWithVersion  // the first field is `version: i32`
    | NoVersion         // fields, none of them a version
    | NoFields          // a unit variant

  /** The shape of each `ServerReqMsg` variant, by its discriminant. The
      variants up to CancelAccountUpdatesMulti (code 77) lead with a version
      field; the newer ones, from ReqSecDefOptParams (code 78) on, do not,
      their schema following from the negotiated server version. */
  function Shape(d: ServerReqMsgDiscriminant): (s: FieldShape)
    ensures s == LeadsWithVersion <==> Code(d) <= 77
  {
    match d
    case ReqMktData => LeadsWithVersion
    case CancelMktData => LeadsWithVersion
    case PlaceOrder => LeadsWithVersion
    case CancelOrder => LeadsWithVersion
    case ReqOpenOrders => LeadsWithVersion
    case ReqAcctData => LeadsWithVersion
    case ReqExecutions => LeadsWithVersion
    case ReqIds => LeadsWithVersion
    case ReqContractData => LeadsWithVersion
    case ReqMktDepth => LeadsWithVersion
    case CancelMktDepth => LeadsWithVersion
    case ReqNewsBulletins => LeadsWithVersion
    case CancelNewsBulletins => LeadsWithVersion
    case SetServerLoglevel => LeadsWithVersion
    case ReqAutoOpenOrders => LeadsWithVersion
    case ReqAllOpenOrders => LeadsWithVersion
    case ReqManagedAccts => LeadsWithVersion
    case ReqFa => LeadsWithVersion
    case ReplaceFa => LeadsWithVersion
    case ReqHistoricalData => LeadsWithVersion
    case ExerciseOptions => LeadsWithVersion
    case ReqScannerSubscription => LeadsWithVersion
    case CancelScannerSubscription => LeadsWithVersion
    case ReqScannerParameters => LeadsWithVersion
    case CancelHistoricalData => LeadsWithVersion
    case ReqCurrentTime => LeadsWithVersion
    case ReqRealTimeBars => LeadsWithVersion
    case CancelRealTimeBars => LeadsWithVersion
    case ReqFundamentalData => LeadsWithVersion
    case CancelFundamentalData => LeadsWithVersion
    case ReqCalcImpliedVolat => LeadsWithVersion
    case ReqCalcOptionPrice => LeadsWithVersion
    case CancelCalcImpliedVolat => LeadsWithVersion
    case CancelCalcOptionPrice => LeadsWithVersion
    case ReqGlobalCancel => LeadsWithVersion
    case ReqMarketDataType => LeadsWithVersion
    case ReqPositions => LeadsWithVersion
    case ReqAccountSummary => LeadsWithVersion
    case CancelAccountSummary => LeadsWithVersion
    case CancelPositions => LeadsWithVersion
    case VerifyRequest => LeadsWithVersion
    case VerifyMessage => LeadsWithVersion
    case QueryDisplayGroups => LeadsWithVersion
    case SubscribeToGroupEvents => LeadsWithVersion
    case UpdateDisplayGroup => LeadsWithVersion
    case UnsubscribeFromGroupEvents => LeadsWithVersion
    case StartApi => LeadsWithVersion
    case VerifyAndAuthRequest => LeadsWithVersion
    case VerifyAndAuthMessage => LeadsWithVersion
    case ReqPositionsMulti => LeadsWithVersion
    case CancelPositionsMulti => LeadsWithVersion
    case ReqAccountUpdatesMulti => LeadsWithVersion
    case CancelAccountUpdatesMulti => LeadsWithVersion
    case ReqSecDefOptParams => NoVersion
    case ReqSoftDollarTiers => NoVersion
    case ReqFamilyCodes => NoFields
    case ReqMatchingSymbols => NoVersion
    case ReqMktDepthExchanges => NoFields
    case ReqSmartComponents => NoVersion
    case ReqNewsArticle => NoVersion
    case ReqNewsProviders => NoFields
    case ReqHistoricalNews => NoVersion
    case ReqHeadTimestamp => NoVersion
    case ReqHistogramData => NoVersion
    case CancelHistogramData => NoVersion
    case CancelHeadTimestamp => NoVersion
    case ReqMarketRule => NoVersion
    case ReqPnl => NoVersion
    case CancelPnl => NoVersion
    case ReqPnlSingle => NoVersion
    case CancelPnlSingle => NoVersion
    case ReqHistoricalTicks => NoVersion
    case ReqTickByTickData => NoVersion
    case CancelTickByTickData => NoVersion
    case ReqCompletedOrders => NoVersion
  }

  /** Exactly three requests carry no field at all. */
  lemma FieldlessRequests(d: ServerReqMsgDiscriminant)
    ensures Shape(d) == NoFields <==> (d.ReqFamilyCodes? || d.ReqMktDepthExchanges? || d.ReqNewsProviders?)
  {
    if Code(d) <= 5 {
      ShapeOnRange1(d);
    } else if Code(d) <= 10 {
      ShapeOnRange2(d);
    } else if Code(d) <= 15 {
      ShapeOnRange3(d);
    } else if Code(d) <= 20 {
      ShapeOnRange4(d);
    } else if Code(d) <= 25 {
      ShapeOnRange5(d);
    } else if Code(d) <= 53 {
      ShapeOnRange6(d);
    } else if Code(d) <= 58 {
      ShapeOnRange7(d);
    } else if Code(d) <= 64 {
      ShapeOnRange8(d);
    } else if Code(d) <= 69 {
      ShapeOnRange9(d);
    } else if Code(d) <= 74 {
      ShapeOnRange10(d);
    } else if Code(d) <= 79 {
      ShapeOnRange11(d);
    } else if Code(d) <= 84 {
      ShapeOnRange12(d);
    } else if Code(d) <= 89 {
      ShapeOnRange13(d);
    } else if Code(d) <= 94 {
      ShapeOnRange14(d);
    } else {
      ShapeOnRange15(d);
    }
  }

  /** The fieldless requests among the discriminants whose codes lie in one
      stretch of the table (a proof step of the lemma above). */
  lemma ShapeOnRange1(d: ServerReqMsgDiscriminant)
    requires Code(d) <= 5
    ensures Shape(d) == NoFields <==> (d.ReqFamilyCodes? || d.ReqMktDepthExchanges? || d.ReqNewsProviders?)
  {
  }

  lemma ShapeOnRange2(d: ServerReqMsgDiscriminant)
    requires 5 < Code(d) && Code(d) <= 10
    ensures Shape(d) == NoFields <==> (d.ReqFamilyCodes? || d.ReqMktDepthExchanges? || d.ReqNewsProviders?)
  {
  }

  lemma ShapeOnRange3(d: ServerReqMsgDiscriminant)
    requires 10 < Code(d) && Code(d) <= 15
    ensures Shape(d) == NoFields <==> (d.ReqFamilyCodes? || d.ReqMktDepthExchanges? || d.ReqNewsProviders?)
  {
  }

  lemma ShapeOnRange4(d: ServerReqMsgDiscriminant)
    requires 15 < Code(d) && Code(d) <= 20
    ensures Shape(d) == NoFields <==> (d.ReqFamilyCodes? || d.ReqMktDepthExchanges? || d.ReqNewsProviders?)
  {
  }

  lemma ShapeOnRange5(d: ServerReqMsgDiscriminant)
    requires 20 < Code(d) && Code(d) <= 25
    ensures Shape(d) == NoFields <==> (d.ReqFamilyCodes? || d.ReqMktDepthExchanges? || d.ReqNewsProviders?)
  {
  }

  lemma ShapeOnRange6(d: ServerReqMsgDiscriminant)
    requires 25 < Code(d) && Code(d) <= 53
    ensures Shape(d) == NoFields <==> (d.ReqFamilyCodes? || d.ReqMktDepthExchanges? || d.ReqNewsProviders?)
  {
  }

  lemma ShapeOnRange7(d: ServerReqMsgDiscriminant)
    requires 53 < Code(d) && Code(d) <= 58
    ensures Shape(d) == NoFields <==> (d.ReqFamilyCodes? || d.ReqMktDepthExchanges? || d.ReqNewsProviders?)
  {
  }

  lemma ShapeOnRange8(d: ServerReqMsgDiscriminant)
    requires 58 < Code(d) && Code(d) <= 64
    ensures Shape(d) == NoFields <==> (d.ReqFamilyCodes? || d.ReqMktDepthExchanges? || d.ReqNewsProviders?)
  {
  }

  lemma ShapeOnRange9(d: ServerReqMsgDiscriminant)
    requires 64 < Code(d) && Code(d) <= 69
    ensures Shape(d) == NoFields <==> (d.ReqFamilyCodes? || d.ReqMktDepthExchanges? || d.ReqNewsProviders?)
  {
  }

  lemma ShapeOnRange10(d: ServerReqMsgDiscriminant)
    requires 69 < Code(d) && Code(d) <= 74
    ensures Shape(d) == NoFields <==> (d.ReqFamilyCodes? || d.ReqMktDepthExchanges? || d.ReqNewsProviders?)
  {
  }

  lemma ShapeOnRange11(d: ServerReqMsgDiscriminant)
    requires 74 < Code(d) && Code(d) <= 79
    ensures Shape(d) == NoFields <==> (d.ReqFamilyCodes? || d.ReqMktDepthExchanges? || d.ReqNewsProviders?)
  {
  }

  lemma ShapeOnRange12(d: ServerReqMsgDiscriminant)
    requires 79 < Code(d) && Code(d) <= 84
    ensures Shape(d) == NoFields <==> (d.ReqFamilyCodes? || d.ReqMktDepthExchanges? || d.ReqNewsProviders?)
  {
  }

  lemma ShapeOnRange13(d: ServerReqMsgDiscriminant)
    requires 84 < Code(d) && Code(d) <= 89
    ensures Shape(d) == NoFields <==> (d.ReqFamilyCodes? || d.ReqMktDepthExchanges? || d.ReqNewsProviders?)
  {
  }

  lemma ShapeOnRange14(d: ServerReqMsgDiscriminant)
    requires 89 < Code(d) && Code(d) <= 94
    ensures Shape(d) == NoFields <==> (d.ReqFamilyCodes? || d.ReqMktDepthExchanges? || d.ReqNewsProviders?)
  {
  }

  lemma ShapeOnRange15(d: ServerReqMsgDiscriminant)
    requires 94 < Code(d)
    ensures Shape(d) == NoFields <==> (d.ReqFamilyCodes? || d.ReqMktDepthExchanges? || d.ReqNewsProviders?)
  {
  }
}
