/**
 * The message catalogs of src/core/messages.rs: the numeric discriminants of
 * the messages the gateway sends (`ServerRspMsgDiscriminants`) and of those the
 * client sends (`ServerReqMsgDiscriminants`), each with the inverse that
 * `FromPrimitive` derives, and the small `FAMessageDataTypes` table. The
 * two directions are separate tables: a code names one response and,
 * independently, one request (49 is the current-time response and the
 * current-time request).
 */

/** `FAMessageDataTypes`: the kinds of financial-advisor configuration data. */
module FaMessageData {

  datatype FaMessageDataType = Groups | Profiles | Aliases

  function Code(t: FaMessageDataType): (c: int)
    ensures 1 <= c <= 3
  {
    match t
    case Groups => 1
    case Profiles => 2
    case Aliases => 3
  }

  /** No two kinds share a code. */
  lemma CodeInjective(a: FaMessageDataType, b: FaMessageDataType)
    ensures Code(a) == Code(b) ==> a == b
  {
  }
}

/** `ServerRspMsgDiscriminants`: the code that leads every message from the gateway. */
module ResponseCodes {
  import opened Wire

  datatype ServerRspMsgDiscriminant =
    | TickPrice
    | TickSize
    | OrderStatus
    | ErrMsg
    | OpenOrder
    | AcctValue
    | PortfolioValue
    | AcctUpdateTime
    | NextValidId
    | ContractData
    | ExecutionData
    | MarketDepth
    | MarketDepthL2
    | NewsBulletins
    | ManagedAccts
    | ReceiveFa
    | HistoricalData
    | BondContractData
    | ScannerParameters
    | ScannerData
    | TickOptionComputation
    | TickGeneric
    | TickString
    | TickEfp
    | CurrentTime
    | RealTimeBars
    | FundamentalData
    | ContractDataEnd
    | OpenOrderEnd
    | AcctDownloadEnd
    | ExecutionDataEnd
    | DeltaNeutralValidation
    | TickSnapshotEnd
    | MarketDataType
    | CommissionReport
    | PositionData
    | PositionEnd
    | AccountSummary
    | AccountSummaryEnd
    | VerifyMessageApi
    | VerifyCompleted
    | DisplayGroupList
    | DisplayGroupUpdated
    | VerifyAndAuthMessageApi
    | VerifyAndAuthCompleted
    | PositionMulti
    | PositionMultiEnd
    | AccountUpdateMulti
    | AccountUpdateMultiEnd
    | SecurityDefinitionOptionParameter
    | SecurityDefinitionOptionParameterEnd
    | SoftDollarTiers
    | FamilyCodes
    | SymbolSamples
    | MktDepthExchanges
    | TickReqParams
    | SmartComponents
    | NewsArticle
    | TickNews
    | NewsProviders
    | HistoricalNews
    | HistoricalNewsEnd
    | HeadTimestamp
    | HistogramData
    | HistoricalDataUpdate
    | RerouteMktDataReq
    | RerouteMktDepthReq
    | MarketRule
    | Pnl
    | PnlSingle
    | HistoricalTicks
    | HistoricalTicksBidAsk
    | HistoricalTicksLast
    | TickByTick
    | OrderBound
    | CompletedOrder
    | CompletedOrdersEnd

  /** The discriminant's code on the wire. */
  function Code(d: ServerRspMsgDiscriminant): (c: int)
    ensures 1 <= c <= 102
    ensures !(22 <= c <= 44) && c != 48 && c != 60
  {
    match d
    case TickPrice => 1
    case TickSize => 2
    case OrderStatus => 3
    case ErrMsg => 4
    case OpenOrder => 5
    case AcctValue => 6
    case PortfolioValue => 7
    case AcctUpdateTime => 8
    case NextValidId => 9
    case ContractData => 10
    case ExecutionData => 11
    case MarketDepth => 12
    case MarketDepthL2 => 13
    case NewsBulletins => 14
    case ManagedAccts => 15
    case ReceiveFa => 16
    case HistoricalData => 17
    case BondContractData => 18
    case ScannerParameters => 19
    case ScannerData => 20
    case TickOptionComputation => 21
    case TickGeneric => 45
    case TickString => 46
    case TickEfp => 47
    case CurrentTime => 49
    case RealTimeBars => 50
    case FundamentalData => 51
    case ContractDataEnd => 52
    case OpenOrderEnd => 53
    case AcctDownloadEnd => 54
    case ExecutionDataEnd => 55
    case DeltaNeutralValidation => 56
    case TickSnapshotEnd => 57
    case MarketDataType => 58
    case CommissionReport => 59
    case PositionData => 61
    case PositionEnd => 62
    case AccountSummary => 63
    case AccountSummaryEnd => 64
    case VerifyMessageApi => 65
    case VerifyCompleted => 66
    case DisplayGroupList => 67
    case DisplayGroupUpdated => 68
    case VerifyAndAuthMessageApi => 69
    case VerifyAndAuthCompleted => 70
    case PositionMulti => 71
    case PositionMultiEnd => 72
    case AccountUpdateMulti => 73
    case AccountUpdateMultiEnd => 74
    case SecurityDefinitionOptionParameter => 75
    case SecurityDefinitionOptionParameterEnd => 76
    case SoftDollarTiers => 77
    case FamilyCodes => 78
    case SymbolSamples => 79
    case MktDepthExchanges => 80
    case TickReqParams => 81
    case SmartComponents => 82
    case NewsArticle => 83
    case TickNews => 84
    case NewsProviders => 85
    case HistoricalNews => 86
    case HistoricalNewsEnd => 87
    case HeadTimestamp => 88
    case HistogramData => 89
    case HistoricalDataUpdate => 90
    case RerouteMktDataReq => 91
    case RerouteMktDepthReq => 92
    case MarketRule => 93
    case Pnl => 94
    case PnlSingle => 95
    case HistoricalTicks => 96
    case HistoricalTicksBidAsk => 97
    case HistoricalTicksLast => 98
    case TickByTick => 99
    case OrderBound => 100
    case CompletedOrder => 101
    case CompletedOrdersEnd => 102
  }

  /** `FromPrimitive::from_i32`: the discriminant a code stands for, if any. */
  function FromCode(c: int): (r: Option<ServerRspMsgDiscriminant>)
    ensures r.Some? ==> 1 <= c <= 102 && !(22 <= c <= 44) && c != 48 && c != 60
  {
    match c
    case 1 => Some(TickPrice)
    case 2 => Some(TickSize)
    case 3 => Some(OrderStatus)
    case 4 => Some(ErrMsg)
    case 5 => Some(OpenOrder)
    case 6 => Some(AcctValue)
    case 7 => Some(PortfolioValue)
    case 8 => Some(AcctUpdateTime)
    case 9 => Some(NextValidId)
    case 10 => Some(ContractData)
    case 11 => Some(ExecutionData)
    case 12 => Some(MarketDepth)
    case 13 => Some(MarketDepthL2)
    case 14 => Some(NewsBulletins)
    case 15 => Some(ManagedAccts)
    case 16 => Some(ReceiveFa)
    case 17 => Some(HistoricalData)
    case 18 => Some(BondContractData)
    case 19 => Some(ScannerParameters)
    case 20 => Some(ScannerData)
    case 21 => Some(TickOptionComputation)
    case 45 => Some(TickGeneric)
    case 46 => Some(TickString)
    case 47 => Some(TickEfp)
    case 49 => Some(CurrentTime)
    case 50 => Some(RealTimeBars)
    case 51 => Some(FundamentalData)
    case 52 => Some(ContractDataEnd)
    case 53 => Some(OpenOrderEnd)
    case 54 => Some(AcctDownloadEnd)
    case 55 => Some(ExecutionDataEnd)
    case 56 => Some(DeltaNeutralValidation)
    case 57 => Some(TickSnapshotEnd)
    case 58 => Some(MarketDataType)
    case 59 => Some(CommissionReport)
    case 61 => Some(PositionData)
    case 62 => Some(PositionEnd)
    case 63 => Some(AccountSummary)
    case 64 => Some(AccountSummaryEnd)
    case 65 => Some(VerifyMessageApi)
    case 66 => Some(VerifyCompleted)
    case 67 => Some(DisplayGroupList)
    case 68 => Some(DisplayGroupUpdated)
    case 69 => Some(VerifyAndAuthMessageApi)
    case 70 => Some(VerifyAndAuthCompleted)
    case 71 => Some(PositionMulti)
    case 72 => Some(PositionMultiEnd)
    case 73 => Some(AccountUpdateMulti)
    case 74 => Some(AccountUpdateMultiEnd)
    case 75 => Some(SecurityDefinitionOptionParameter)
    case 76 => Some(SecurityDefinitionOptionParameterEnd)
    case 77 => Some(SoftDollarTiers)
    case 78 => Some(FamilyCodes)
    case 79 => Some(SymbolSamples)
    case 80 => Some(MktDepthExchanges)
    case 81 => Some(TickReqParams)
    case 82 => Some(SmartComponents)
    case 83 => Some(NewsArticle)
    case 84 => Some(TickNews)
    case 85 => Some(NewsProviders)
    case 86 => Some(HistoricalNews)
    case 87 => Some(HistoricalNewsEnd)
    case 88 => Some(HeadTimestamp)
    case 89 => Some(HistogramData)
    case 90 => Some(HistoricalDataUpdate)
    case 91 => Some(RerouteMktDataReq)
    case 92 => Some(RerouteMktDepthReq)
    case 93 => Some(MarketRule)
    case 94 => Some(Pnl)
    case 95 => Some(PnlSingle)
    case 96 => Some(HistoricalTicks)
    case 97 => Some(HistoricalTicksBidAsk)
    case 98 => Some(HistoricalTicksLast)
    case 99 => Some(TickByTick)
    case 100 => Some(OrderBound)
    case 101 => Some(CompletedOrder)
    case 102 => Some(CompletedOrdersEnd)
    case _ => None
  }
  /** `from_i32` undoes the code of every discriminant. */
  lemma FromCodeOfCode(d: ServerRspMsgDiscriminant)
    ensures FromCode(Code(d)) == Some(d)
  {
    if Code(d) <= 3 {
      InverseOnRange1(Code(d), d);
    } else if Code(d) <= 6 {
      InverseOnRange2(Code(d), d);
    } else if Code(d) <= 9 {
      InverseOnRange3(Code(d), d);
    } else if Code(d) <= 12 {
      InverseOnRange4(Code(d), d);
    } else if Code(d) <= 15 {
      InverseOnRange5(Code(d), d);
    } else if Code(d) <= 18 {
      InverseOnRange6(Code(d), d);
    } else if Code(d) <= 21 {
      InverseOnRange7(Code(d), d);
    } else if Code(d) <= 47 {
      InverseOnRange8(Code(d), d);
    } else if Code(d) <= 51 {
      InverseOnRange9(Code(d), d);
    } else if Code(d) <= 54 {
      InverseOnRange10(Code(d), d);
    } else if Code(d) <= 57 {
      InverseOnRange11(Code(d), d);
    } else if Code(d) <= 61 {
      InverseOnRange12(Code(d), d);
    } else if Code(d) <= 64 {
      InverseOnRange13(Code(d), d);
    } else if Code(d) <= 67 {
      InverseOnRange14(Code(d), d);
    } else if Code(d) <= 70 {
      InverseOnRange15(Code(d), d);
    } else if Code(d) <= 73 {
      InverseOnRange16(Code(d), d);
    } else if Code(d) <= 76 {
      InverseOnRange17(Code(d), d);
    } else if Code(d) <= 79 {
      InverseOnRange18(Code(d), d);
    } else if Code(d) <= 82 {
      InverseOnRange19(Code(d), d);
    } else if Code(d) <= 85 {
      InverseOnRange20(Code(d), d);
    } else if Code(d) <= 88 {
      InverseOnRange21(Code(d), d);
    } else if Code(d) <= 91 {
      InverseOnRange22(Code(d), d);
    } else if Code(d) <= 94 {
      InverseOnRange23(Code(d), d);
    } else if Code(d) <= 97 {
      InverseOnRange24(Code(d), d);
    } else if Code(d) <= 100 {
      InverseOnRange25(Code(d), d);
    } else {
      InverseOnRange26(Code(d), d);
    }
  }

  /** Whatever `from_i32` returns has the code it was given: with
      FromCodeOfCode, `from_i32` and Code are inverse bijections between the
      discriminants and the listed codes. */
  lemma CodeOfFromCode(c: int, d: ServerRspMsgDiscriminant)
    requires FromCode(c) == Some(d)
    ensures Code(d) == c
  {
    if Code(d) <= 3 {
      InverseOnRange1(c, d);
    } else if Code(d) <= 6 {
      InverseOnRange2(c, d);
    } else if Code(d) <= 9 {
      InverseOnRange3(c, d);
    } else if Code(d) <= 12 {
      InverseOnRange4(c, d);
    } else if Code(d) <= 15 {
      InverseOnRange5(c, d);
    } else if Code(d) <= 18 {
      InverseOnRange6(c, d);
    } else if Code(d) <= 21 {
      InverseOnRange7(c, d);
    } else if Code(d) <= 47 {
      InverseOnRange8(c, d);
    } else if Code(d) <= 51 {
      InverseOnRange9(c, d);
    } else if Code(d) <= 54 {
      InverseOnRange10(c, d);
    } else if Code(d) <= 57 {
      InverseOnRange11(c, d);
    } else if Code(d) <= 61 {
      InverseOnRange12(c, d);
    } else if Code(d) <= 64 {
      InverseOnRange13(c, d);
    } else if Code(d) <= 67 {
      InverseOnRange14(c, d);
    } else if Code(d) <= 70 {
      InverseOnRange15(c, d);
    } else if Code(d) <= 73 {
      InverseOnRange16(c, d);
    } else if Code(d) <= 76 {
      InverseOnRange17(c, d);
    } else if Code(d) <= 79 {
      InverseOnRange18(c, d);
    } else if Code(d) <= 82 {
      InverseOnRange19(c, d);
    } else if Code(d) <= 85 {
      InverseOnRange20(c, d);
    } else if Code(d) <= 88 {
      InverseOnRange21(c, d);
    } else if Code(d) <= 91 {
      InverseOnRange22(c, d);
    } else if Code(d) <= 94 {
      InverseOnRange23(c, d);
    } else if Code(d) <= 97 {
      InverseOnRange24(c, d);
    } else if Code(d) <= 100 {
      InverseOnRange25(c, d);
    } else {
      InverseOnRange26(c, d);
    }
  }

  /** Both directions of the inverse for the discriminants whose codes lie in
      one stretch of the table (a proof step of the two lemmas above). */
  lemma InverseOnRange1(c: int, d: ServerRspMsgDiscriminant)
    requires Code(d) <= 3
    ensures FromCode(Code(d)) == Some(d)
    ensures FromCode(c) == Some(d) ==> Code(d) == c
  {
  }

  lemma InverseOnRange2(c: int, d: ServerRspMsgDiscriminant)
    requires 3 < Code(d) && Code(d) <= 6
    ensures FromCode(Code(d)) == Some(d)
    ensures FromCode(c) == Some(d) ==> Code(d) == c
  {
  }

  lemma InverseOnRange3(c: int, d: ServerRspMsgDiscriminant)
    requires 6 < Code(d) && Code(d) <= 9
    ensures FromCode(Code(d)) == Some(d)
    ensures FromCode(c) == Some(d) ==> Code(d) == c
  {
  }

  lemma InverseOnRange4(c: int, d: ServerRspMsgDiscriminant)
    requires 9 < Code(d) && Code(d) <= 12
    ensures FromCode(Code(d)) == Some(d)
    ensures FromCode(c) == Some(d) ==> Code(d) == c
  {
  }

  lemma InverseOnRange5(c: int, d: ServerRspMsgDiscriminant)
    requires 12 < Code(d) && Code(d) <= 15
    ensures FromCode(Code(d)) == Some(d)
    ensures FromCode(c) == Some(d) ==> Code(d) == c
  {
  }

  lemma InverseOnRange6(c: int, d: ServerRspMsgDiscriminant)
    requires 15 < Code(d) && Code(d) <= 18
    ensures FromCode(Code(d)) == Some(d)
    ensures FromCode(c) == Some(d) ==> Code(d) == c
  {
  }

  lemma InverseOnRange7(c: int, d: ServerRspMsgDiscriminant)
    requires 18 < Code(d) && Code(d) <= 21
    ensures FromCode(Code(d)) == Some(d)
    ensures FromCode(c) == Some(d) ==> Code(d) == c
  {
  }

  lemma InverseOnRange8(c: int, d: ServerRspMsgDiscriminant)
    requires 21 < Code(d) && Code(d) <= 47
    ensures FromCode(Code(d)) == Some(d)
    ensures FromCode(c) == Some(d) ==> Code(d) == c
  {
  }

  lemma InverseOnRange9(c: int, d: ServerRspMsgDiscriminant)
    requires 47 < Code(d) && Code(d) <= 51
    ensures FromCode(Code(d)) == Some(d)
    ensures FromCode(c) == Some(d) ==> Code(d) == c
  {
  }

  lemma InverseOnRange10(c: int, d: ServerRspMsgDiscriminant)
    requires 51 < Code(d) && Code(d) <= 54
    ensures FromCode(Code(d)) == Some(d)
    ensures FromCode(c) == Some(d) ==> Code(d) == c
  {
  }

  lemma InverseOnRange11(c: int, d: ServerRspMsgDiscriminant)
    requires 54 < Code(d) && Code(d) <= 57
    ensures FromCode(Code(d)) == Some(d)
    ensures FromCode(c) == Some(d) ==> Code(d) == c
  {
  }

  lemma InverseOnRange12(c: int, d: ServerRspMsgDiscriminant)
    requires 57 < Code(d) && Code(d) <= 61
    ensures FromCode(Code(d)) == Some(d)
    ensures FromCode(c) == Some(d) ==> Code(d) == c
  {
  }

  lemma InverseOnRange13(c: int, d: ServerRspMsgDiscriminant)
    requires 61 < Code(d) && Code(d) <= 64
    ensures FromCode(Code(d)) == Some(d)
    ensures FromCode(c) == Some(d) ==> Code(d) == c
  {
  }

  lemma InverseOnRange14(c: int, d: ServerRspMsgDiscriminant)
    requires 64 < Code(d) && Code(d) <= 67
    ensures FromCode(Code(d)) == Some(d)
    ensures FromCode(c) == Some(d) ==> Code(d) == c
  {
  }

  lemma InverseOnRange15(c: int, d: ServerRspMsgDiscriminant)
    requires 67 < Code(d) && Code(d) <= 70
    ensures FromCode(Code(d)) == Some(d)
    ensures FromCode(c) == Some(d) ==> Code(d) == c
  {
  }

  lemma InverseOnRange16(c: int, d: ServerRspMsgDiscriminant)
    requires 70 < Code(d) && Code(d) <= 73
    ensures FromCode(Code(d)) == Some(d)
    ensures FromCode(c) == Some(d) ==> Code(d) == c
  {
  }

  lemma InverseOnRange17(c: int, d: ServerRspMsgDiscriminant)
    requires 73 < Code(d) && Code(d) <= 76
    ensures FromCode(Code(d)) == Some(d)
    ensures FromCode(c) == Some(d) ==> Code(d) == c
  {
  }

  lemma InverseOnRange18(c: int, d: ServerRspMsgDiscriminant)
    requires 76 < Code(d) && Code(d) <= 79
    ensures FromCode(Code(d)) == Some(d)
    ensures FromCode(c) == Some(d) ==> Code(d) == c
  {
  }

  lemma InverseOnRange19(c: int, d: ServerRspMsgDiscriminant)
    requires 79 < Code(d) && Code(d) <= 82
    ensures FromCode(Code(d)) == Some(d)
    ensures FromCode(c) == Some(d) ==> Code(d) == c
  {
  }

  lemma InverseOnRange20(c: int, d: ServerRspMsgDiscriminant)
    requires 82 < Code(d) && Code(d) <= 85
    ensures FromCode(Code(d)) == Some(d)
    ensures FromCode(c) == Some(d) ==> Code(d) == c
  {
  }

  lemma InverseOnRange21(c: int, d: ServerRspMsgDiscriminant)
    requires 85 < Code(d) && Code(d) <= 88
    ensures FromCode(Code(d)) == Some(d)
    ensures FromCode(c) == Some(d) ==> Code(d) == c
  {
  }

  lemma InverseOnRange22(c: int, d: ServerRspMsgDiscriminant)
    requires 88 < Code(d) && Code(d) <= 91
    ensures FromCode(Code(d)) == Some(d)
    ensures FromCode(c) == Some(d) ==> Code(d) == c
  {
  }

  lemma InverseOnRange23(c: int, d: ServerRspMsgDiscriminant)
    requires 91 < Code(d) && Code(d) <= 94
    ensures FromCode(Code(d)) == Some(d)
    ensures FromCode(c) == Some(d) ==> Code(d) == c
  {
  }

  lemma InverseOnRange24(c: int, d: ServerRspMsgDiscriminant)
    requires 94 < Code(d) && Code(d) <= 97
    ensures FromCode(Code(d)) == Some(d)
    ensures FromCode(c) == Some(d) ==> Code(d) == c
  {
  }

  lemma InverseOnRange25(c: int, d: ServerRspMsgDiscriminant)
    requires 97 < Code(d) && Code(d) <= 100
    ensures FromCode(Code(d)) == Some(d)
    ensures FromCode(c) == Some(d) ==> Code(d) == c
  {
  }

  lemma InverseOnRange26(c: int, d: ServerRspMsgDiscriminant)
    requires 100 < Code(d)
    ensures FromCode(Code(d)) == Some(d)
    ensures FromCode(c) == Some(d) ==> Code(d) == c
  {
  }

  /** No two discriminants share a code. */
  lemma CodeInjective(a: ServerRspMsgDiscriminant, b: ServerRspMsgDiscriminant)
    ensures Code(a) == Code(b) ==> a == b
  {
    FromCodeOfCode(a);
    FromCodeOfCode(b);
  }

  /** Codes outside the table name no discriminant. */
  lemma UnlistedCodes(c: int)
    requires c < 1 || c > 102 || 22 <= c <= 44 || c == 48 || c == 60
    ensures FromCode(c) == None
  {
  }
}

/** `ServerReqMsgDiscriminants`: the code that leads every message the client sends. */
module RequestCodes {
  import opened Wire

  datatype ServerReqMsgDiscriminant =
    | ReqMktData
    | CancelMktData
    | PlaceOrder
    | CancelOrder
    | ReqOpenOrders
    | ReqAcctData
    | ReqExecutions
    | ReqIds
    | ReqContractData
    | ReqMktDepth
    | CancelMktDepth
    | ReqNewsBulletins
    | CancelNewsBulletins
    | SetServerLoglevel
    | ReqAutoOpenOrders
    | ReqAllOpenOrders
    | ReqManagedAccts
    | ReqFa
    | ReplaceFa
    | ReqHistoricalData
    | ExerciseOptions
    | ReqScannerSubscription
    | CancelScannerSubscription
    | ReqScannerParameters
    | CancelHistoricalData
    | ReqCurrentTime
    | ReqRealTimeBars
    | CancelRealTimeBars
    | ReqFundamentalData
    | CancelFundamentalData
    | ReqCalcImpliedVolat
    | ReqCalcOptionPrice
    | CancelCalcImpliedVolat
    | CancelCalcOptionPrice
    | ReqGlobalCancel
    | ReqMarketDataType
    | ReqPositions
    | ReqAccountSummary
    | CancelAccountSummary
    | CancelPositions
    | VerifyRequest
    | VerifyMessage
    | QueryDisplayGroups
    | SubscribeToGroupEvents
    | UpdateDisplayGroup
    | UnsubscribeFromGroupEvents
    | StartApi
    | VerifyAndAuthRequest
    | VerifyAndAuthMessage
    | ReqPositionsMulti
    | CancelPositionsMulti
    | ReqAccountUpdatesMulti
    | CancelAccountUpdatesMulti
    | ReqSecDefOptParams
    | ReqSoftDollarTiers
    | ReqFamilyCodes
    | ReqMatchingSymbols
    | ReqMktDepthExchanges
    | ReqSmartComponents
    | ReqNewsArticle
    | ReqNewsProviders
    | ReqHistoricalNews
    | ReqHeadTimestamp
    | ReqHistogramData
    | CancelHistogramData
    | CancelHeadTimestamp
    | ReqMarketRule
    | ReqPnl
    | CancelPnl
    | ReqPnlSingle
    | CancelPnlSingle
    | ReqHistoricalTicks
    | ReqTickByTickData
    | CancelTickByTickData
    | ReqCompletedOrders

  /** The discriminant's code on the wire. */
  function Code(d: ServerReqMsgDiscriminant): (c: int)
    ensures 1 <= c <= 99
    ensures !(26 <= c <= 48) && c != 60
  {
    match d
    case ReqMktData => 1
    case CancelMktData => 2
    case PlaceOrder => 3
    case CancelOrder => 4
    case ReqOpenOrders => 5
    case ReqAcctData => 6
    case ReqExecutions => 7
    case ReqIds => 8
    case ReqContractData => 9
    case ReqMktDepth => 10
    case CancelMktDepth => 11
    case ReqNewsBulletins => 12
    case CancelNewsBulletins => 13
    case SetServerLoglevel => 14
    case ReqAutoOpenOrders => 15
    case ReqAllOpenOrders => 16
    case ReqManagedAccts => 17
    case ReqFa => 18
    case ReplaceFa => 19
    case ReqHistoricalData => 20
    case ExerciseOptions => 21
    case ReqScannerSubscription => 22
    case CancelScannerSubscription => 23
    case ReqScannerParameters => 24
    case CancelHistoricalData => 25
    case ReqCurrentTime => 49
    case ReqRealTimeBars => 50
    case CancelRealTimeBars => 51
    case ReqFundamentalData => 52
    case CancelFundamentalData => 53
    case ReqCalcImpliedVolat => 54
    case ReqCalcOptionPrice => 55
    case CancelCalcImpliedVolat => 56
    case CancelCalcOptionPrice => 57
    case ReqGlobalCancel => 58
    case ReqMarketDataType => 59
    case ReqPositions => 61
    case ReqAccountSummary => 62
    case CancelAccountSummary => 63
    case CancelPositions => 64
    case VerifyRequest => 65
    case VerifyMessage => 66
    case QueryDisplayGroups => 67
    case SubscribeToGroupEvents => 68
    case UpdateDisplayGroup => 69
    case UnsubscribeFromGroupEvents => 70
    case StartApi => 71
    case VerifyAndAuthRequest => 72
    case VerifyAndAuthMessage => 73
    case ReqPositionsMulti => 74
    case CancelPositionsMulti => 75
    case ReqAccountUpdatesMulti => 76
    case CancelAccountUpdatesMulti => 77
    case ReqSecDefOptParams => 78
    case ReqSoftDollarTiers => 79
    case ReqFamilyCodes => 80
    case ReqMatchingSymbols => 81
    case ReqMktDepthExchanges => 82
    case ReqSmartComponents => 83
    case ReqNewsArticle => 84
    case ReqNewsProviders => 85
    case ReqHistoricalNews => 86
    case ReqHeadTimestamp => 87
    case ReqHistogramData => 88
    case CancelHistogramData => 89
    case CancelHeadTimestamp => 90
    case ReqMarketRule => 91
    case ReqPnl => 92
    case CancelPnl => 93
    case ReqPnlSingle => 94
    case CancelPnlSingle => 95
    case ReqHistoricalTicks => 96
    case ReqTickByTickData => 97
    case CancelTickByTickData => 98
    case ReqCompletedOrders => 99
  }

  /** `FromPrimitive::from_i32`: the discriminant a code stands for, if any. */
  function FromCode(c: int): (r: Option<ServerReqMsgDiscriminant>)
    ensures r.Some? ==> 1 <= c <= 99 && !(26 <= c <= 48) && c != 60
  {
    match c
    case 1 => Some(ReqMktData)
    case 2 => Some(CancelMktData)
    case 3 => Some(PlaceOrder)
    case 4 => Some(CancelOrder)
    case 5 => Some(ReqOpenOrders)
    case 6 => Some(ReqAcctData)
    case 7 => Some(ReqExecutions)
    case 8 => Some(ReqIds)
    case 9 => Some(ReqContractData)
    case 10 => Some(ReqMktDepth)
    case 11 => Some(CancelMktDepth)
    case 12 => Some(ReqNewsBulletins)
    case 13 => Some(CancelNewsBulletins)
    case 14 => Some(SetServerLoglevel)
    case 15 => Some(ReqAutoOpenOrders)
    case 16 => Some(ReqAllOpenOrders)
    case 17 => Some(ReqManagedAccts)
    case 18 => Some(ReqFa)
    case 19 => Some(ReplaceFa)
    case 20 => Some(ReqHistoricalData)
    case 21 => Some(ExerciseOptions)
    case 22 => Some(ReqScannerSubscription)
    case 23 => Some(CancelScannerSubscription)
    case 24 => Some(ReqScannerParameters)
    case 25 => Some(CancelHistoricalData)
    case 49 => Some(ReqCurrentTime)
    case 50 => Some(ReqRealTimeBars)
    case 51 => Some(CancelRealTimeBars)
    case 52 => Some(ReqFundamentalData)
    case 53 => Some(CancelFundamentalData)
    case 54 => Some(ReqCalcImpliedVolat)
    case 55 => Some(ReqCalcOptionPrice)
    case 56 => Some(CancelCalcImpliedVolat)
    case 57 => Some(CancelCalcOptionPrice)
    case 58 => Some(ReqGlobalCancel)
    case 59 => Some(ReqMarketDataType)
    case 61 => Some(ReqPositions)
    case 62 => Some(ReqAccountSummary)
    case 63 => Some(CancelAccountSummary)
    case 64 => Some(CancelPositions)
    case 65 => Some(VerifyRequest)
    case 66 => Some(VerifyMessage)
    case 67 => Some(QueryDisplayGroups)
    case 68 => Some(SubscribeToGroupEvents)
    case 69 => Some(UpdateDisplayGroup)
    case 70 => Some(UnsubscribeFromGroupEvents)
    case 71 => Some(StartApi)
    case 72 => Some(VerifyAndAuthRequest)
    case 73 => Some(VerifyAndAuthMessage)
    case 74 => Some(ReqPositionsMulti)
    case 75 => Some(CancelPositionsMulti)
    case 76 => Some(ReqAccountUpdatesMulti)
    case 77 => Some(CancelAccountUpdatesMulti)
    case 78 => Some(ReqSecDefOptParams)
    case 79 => Some(ReqSoftDollarTiers)
    case 80 => Some(ReqFamilyCodes)
    case 81 => Some(ReqMatchingSymbols)
    case 82 => Some(ReqMktDepthExchanges)
    case 83 => Some(ReqSmartComponents)
    case 84 => Some(ReqNewsArticle)
    case 85 => Some(ReqNewsProviders)
    case 86 => Some(ReqHistoricalNews)
    case 87 => Some(ReqHeadTimestamp)
    case 88 => Some(ReqHistogramData)
    case 89 => Some(CancelHistogramData)
    case 90 => Some(CancelHeadTimestamp)
    case 91 => Some(ReqMarketRule)
    case 92 => Some(ReqPnl)
    case 93 => Some(CancelPnl)
    case 94 => Some(ReqPnlSingle)
    case 95 => Some(CancelPnlSingle)
    case 96 => Some(ReqHistoricalTicks)
    case 97 => Some(ReqTickByTickData)
    case 98 => Some(CancelTickByTickData)
    case 99 => Some(ReqCompletedOrders)
    case _ => None
  }

  /** `from_i32` undoes the code of every discriminant. */
  lemma FromCodeOfCode(d: ServerReqMsgDiscriminant)
    ensures FromCode(Code(d)) == Some(d)
  {
    if Code(d) <= 3 {
      InverseOnRange1(Code(d), d);
    } else if Code(d) <= 6 {
      InverseOnRange2(Code(d), d);
    } else if Code(d) <= 9 {
      InverseOnRange3(Code(d), d);
    } else if Code(d) <= 12 {
      InverseOnRange4(Code(d), d);
    } else if Code(d) <= 15 {
      InverseOnRange5(Code(d), d);
    } else if Code(d) <= 18 {
      InverseOnRange6(Code(d), d);
    } else if Code(d) <= 21 {
      InverseOnRange7(Code(d), d);
    } else if Code(d) <= 24 {
      InverseOnRange8(Code(d), d);
    } else if Code(d) <= 50 {
      InverseOnRange9(Code(d), d);
    } else if Code(d) <= 53 {
      InverseOnRange10(Code(d), d);
    } else if Code(d) <= 56 {
      InverseOnRange11(Code(d), d);
    } else if Code(d) <= 59 {
      InverseOnRange12(Code(d), d);
    } else if Code(d) <= 63 {
      InverseOnRange13(Code(d), d);
    } else if Code(d) <= 66 {
      InverseOnRange14(Code(d), d);
    } else if Code(d) <= 69 {
      InverseOnRange15(Code(d), d);
    } else if Code(d) <= 72 {
      InverseOnRange16(Code(d), d);
    } else if Code(d) <= 75 {
      InverseOnRange17(Code(d), d);
    } else if Code(d) <= 78 {
      InverseOnRange18(Code(d), d);
    } else if Code(d) <= 81 {
      InverseOnRange19(Code(d), d);
    } else if Code(d) <= 84 {
      InverseOnRange20(Code(d), d);
    } else if Code(d) <= 87 {
      InverseOnRange21(Code(d), d);
    } else if Code(d) <= 90 {
      InverseOnRange22(Code(d), d);
    } else if Code(d) <= 93 {
      InverseOnRange23(Code(d), d);
    } else if Code(d) <= 96 {
      InverseOnRange24(Code(d), d);
    } else {
      InverseOnRange25(Code(d), d);
    }
  }

  /** Whatever `from_i32` returns has the code it was given: with
      FromCodeOfCode, `from_i32` and Code are inverse bijections between the
      discriminants and the listed codes. */
  lemma CodeOfFromCode(c: int, d: ServerReqMsgDiscriminant)
    requires FromCode(c) == Some(d)
    ensures Code(d) == c
  {
    if Code(d) <= 3 {
      InverseOnRange1(c, d);
    } else if Code(d) <= 6 {
      InverseOnRange2(c, d);
    } else if Code(d) <= 9 {
      InverseOnRange3(c, d);
    } else if Code(d) <= 12 {
      InverseOnRange4(c, d);
    } else if Code(d) <= 15 {
      InverseOnRange5(c, d);
    } else if Code(d) <= 18 {
      InverseOnRange6(c, d);
    } else if Code(d) <= 21 {
      InverseOnRange7(c, d);
    } else if Code(d) <= 24 {
      InverseOnRange8(c, d);
    } else if Code(d) <= 50 {
      InverseOnRange9(c, d);
    } else if Code(d) <= 53 {
      InverseOnRange10(c, d);
    } else if Code(d) <= 56 {
      InverseOnRange11(c, d);
    } else if Code(d) <= 59 {
      InverseOnRange12(c, d);
    } else if Code(d) <= 63 {
      InverseOnRange13(c, d);
    } else if Code(d) <= 66 {
      InverseOnRange14(c, d);
    } else if Code(d) <= 69 {
      InverseOnRange15(c, d);
    } else if Code(d) <= 72 {
      InverseOnRange16(c, d);
    } else if Code(d) <= 75 {
      InverseOnRange17(c, d);
    } else if Code(d) <= 78 {
      InverseOnRange18(c, d);
    } else if Code(d) <= 81 {
      InverseOnRange19(c, d);
    } else if Code(d) <= 84 {
      InverseOnRange20(c, d);
    } else if Code(d) <= 87 {
      InverseOnRange21(c, d);
    } else if Code(d) <= 90 {
      InverseOnRange22(c, d);
    } else if Code(d) <= 93 {
      InverseOnRange23(c, d);
    } else if Code(d) <= 96 {
      InverseOnRange24(c, d);
    } else {
      InverseOnRange25(c, d);
    }
  }

  /** Both directions of the inverse for the discriminants whose codes lie in
      one stretch of the table (a proof step of the two lemmas above). */
  lemma InverseOnRange1(c: int, d: ServerReqMsgDiscriminant)
    requires Code(d) <= 3
    ensures FromCode(Code(d)) == Some(d)
    ensures FromCode(c) == Some(d) ==> Code(d) == c
  {
  }

  lemma InverseOnRange2(c: int, d: ServerReqMsgDiscriminant)
    requires 3 < Code(d) && Code(d) <= 6
    ensures FromCode(Code(d)) == Some(d)
    ensures FromCode(c) == Some(d) ==> Code(d) == c
  {
  }

  lemma InverseOnRange3(c: int, d: ServerReqMsgDiscriminant)
    requires 6 < Code(d) && Code(d) <= 9
    ensures FromCode(Code(d)) == Some(d)
    ensures FromCode(c) == Some(d) ==> Code(d) == c
  {
  }

  lemma InverseOnRange4(c: int, d: ServerReqMsgDiscriminant)
    requires 9 < Code(d) && Code(d) <= 12
    ensures FromCode(Code(d)) == Some(d)
    ensures FromCode(c) == Some(d) ==> Code(d) == c
  {
  }

  lemma InverseOnRange5(c: int, d: ServerReqMsgDiscriminant)
    requires 12 < Code(d) && Code(d) <= 15
    ensures FromCode(Code(d)) == Some(d)
    ensures FromCode(c) == Some(d) ==> Code(d) == c
  {
  }

  lemma InverseOnRange6(c: int, d: ServerReqMsgDiscriminant)
    requires 15 < Code(d) && Code(d) <= 18
    ensures FromCode(Code(d)) == Some(d)
    ensures FromCode(c) == Some(d) ==> Code(d) == c
  {
  }

  lemma InverseOnRange7(c: int, d: ServerReqMsgDiscriminant)
    requires 18 < Code(d) && Code(d) <= 21
    ensures FromCode(Code(d)) == Some(d)
    ensures FromCode(c) == Some(d) ==> Code(d) == c
  {
  }

  lemma InverseOnRange8(c: int, d: ServerReqMsgDiscriminant)
    requires 21 < Code(d) && Code(d) <= 24
    ensures FromCode(Code(d)) == Some(d)
    ensures FromCode(c) == Some(d) ==> Code(d) == c
  {
  }

  lemma InverseOnRange9(c: int, d: ServerReqMsgDiscriminant)
    requires 24 < Code(d) && Code(d) <= 50
    ensures FromCode(Code(d)) == Some(d)
    ensures FromCode(c) == Some(d) ==> Code(d) == c
  {
  }

  lemma InverseOnRange10(c: int, d: ServerReqMsgDiscriminant)
    requires 50 < Code(d) && Code(d) <= 53
    ensures FromCode(Code(d)) == Some(d)
    ensures FromCode(c) == Some(d) ==> Code(d) == c
  {
  }

  lemma InverseOnRange11(c: int, d: ServerReqMsgDiscriminant)
    requires 53 < Code(d) && Code(d) <= 56
    ensures FromCode(Code(d)) == Some(d)
    ensures FromCode(c) == Some(d) ==> Code(d) == c
  {
  }

  lemma InverseOnRange12(c: int, d: ServerReqMsgDiscriminant)
    requires 56 < Code(d) && Code(d) <= 59
    ensures FromCode(Code(d)) == Some(d)
    ensures FromCode(c) == Some(d) ==> Code(d) == c
  {
  }

  lemma InverseOnRange13(c: int, d: ServerReqMsgDiscriminant)
    requires 59 < Code(d) && Code(d) <= 63
    ensures FromCode(Code(d)) == Some(d)
    ensures FromCode(c) == Some(d) ==> Code(d) == c
  {
  }

  lemma InverseOnRange14(c: int, d: ServerReqMsgDiscriminant)
    requires 63 < Code(d) && Code(d) <= 66
    ensures FromCode(Code(d)) == Some(d)
    ensures FromCode(c) == Some(d) ==> Code(d) == c
  {
  }

  lemma InverseOnRange15(c: int, d: ServerReqMsgDiscriminant)
    requires 66 < Code(d) && Code(d) <= 69
    ensures FromCode(Code(d)) == Some(d)
    ensures FromCode(c) == Some(d) ==> Code(d) == c
  {
  }

  lemma InverseOnRange16(c: int, d: ServerReqMsgDiscriminant)
    requires 69 < Code(d) && Code(d) <= 72
    ensures FromCode(Code(d)) == Some(d)
    ensures FromCode(c) == Some(d) ==> Code(d) == c
  {
  }

  lemma InverseOnRange17(c: int, d: ServerReqMsgDiscriminant)
    requires 72 < Code(d) && Code(d) <= 75
    ensures FromCode(Code(d)) == Some(d)
    ensures FromCode(c) == Some(d) ==> Code(d) == c
  {
  }

  lemma InverseOnRange18(c: int, d: ServerReqMsgDiscriminant)
    requires 75 < Code(d) && Code(d) <= 78
    ensures FromCode(Code(d)) == Some(d)
    ensures FromCode(c) == Some(d) ==> Code(d) == c
  {
  }

  lemma InverseOnRange19(c: int, d: ServerReqMsgDiscriminant)
    requires 78 < Code(d) && Code(d) <= 81
    ensures FromCode(Code(d)) == Some(d)
    ensures FromCode(c) == Some(d) ==> Code(d) == c
  {
  }

  lemma InverseOnRange20(c: int, d: ServerReqMsgDiscriminant)
    requires 81 < Code(d) && Code(d) <= 84
    ensures FromCode(Code(d)) == Some(d)
    ensures FromCode(c) == Some(d) ==> Code(d) == c
  {
  }

  lemma InverseOnRange21(c: int, d: ServerReqMsgDiscriminant)
    requires 84 < Code(d) && Code(d) <= 87
    ensures FromCode(Code(d)) == Some(d)
    ensures FromCode(c) == Some(d) ==> Code(d) == c
  {
  }

  lemma InverseOnRange22(c: int, d: ServerReqMsgDiscriminant)
    requires 87 < Code(d) && Code(d) <= 90
    ensures FromCode(Code(d)) == Some(d)
    ensures FromCode(c) == Some(d) ==> Code(d) == c
  {
  }

  lemma InverseOnRange23(c: int, d: ServerReqMsgDiscriminant)
    requires 90 < Code(d) && Code(d) <= 93
    ensures FromCode(Code(d)) == Some(d)
    ensures FromCode(c) == Some(d) ==> Code(d) == c
  {
  }

  lemma InverseOnRange24(c: int, d: ServerReqMsgDiscriminant)
    requires 93 < Code(d) && Code(d) <= 96
    ensures FromCode(Code(d)) == Some(d)
    ensures FromCode(c) == Some(d) ==> Code(d) == c
  {
  }

  lemma InverseOnRange25(c: int, d: ServerReqMsgDiscriminant)
    requires 96 < Code(d)
    ensures FromCode(Code(d)) == Some(d)
    ensures FromCode(c) == Some(d) ==> Code(d) == c
  {
  }

  /** No two discriminants share a code. */
  lemma CodeInjective(a: ServerReqMsgDiscriminant, b: ServerReqMsgDiscriminant)
    ensures Code(a) == Code(b) ==> a == b
  {
    FromCodeOfCode(a);
    FromCodeOfCode(b);
  }

  /** Codes outside the table name no discriminant. */
  lemma UnlistedCodes(c: int)
    requires c < 1 || c > 99 || 26 <= c <= 48 || c == 60
    ensures FromCode(c) == None
  {
  }
}
