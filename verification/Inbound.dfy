/**
 Inbound IBKR messages: the decoded types (types.rs), the parsers of the messages the order state
 depends on (decoder.rs), and the pure conversions to the broker's own types (broker.rs).
 */
module Inbound {
  import opened Options

  /** An IEEE-754 double, with finite values as exact reals. */
  datatype F64 = Fin(r: real) | PosInf | NegInf | NaN

  const U32_MAX: int := 0xFFFF_FFFF
  const I32_MAX: int := 0x7FFF_FFFF
  const I32_MIN: int := -0x8000_0000

  /** Truncation toward zero. */
  function Trunc(r: real): (n: int)
    ensures r >= 0.0 ==> n as real <= r < n as real + 1.0
    ensures r < 0.0 ==> n as real - 1.0 < r <= n as real
  {
    if r >= 0.0 then r.Floor else -((-r).Floor)
  }

  function Clamp(n: int, lo: int, hi: int): (c: int)
    requires lo <= hi
    ensures lo <= c <= hi
    ensures lo <= n <= hi ==> c == n
  {
    if n < lo then lo else if n > hi then hi else n
  }

  /** Rust's saturating `as u32` and `as i32` on a double. */
  function AsU32(x: F64): (n: nat)
    ensures n <= U32_MAX
    ensures x.Fin? && 0.0 <= x.r < U32_MAX as real ==> n as real <= x.r < n as real + 1.0
    ensures x.Fin? && x.r < 0.0 ==> n == 0
    ensures x == PosInf || (x.Fin? && x.r >= U32_MAX as real) ==> n == U32_MAX
    ensures x == NegInf || x == NaN ==> n == 0
  {
    match x
    case Fin(r) => Clamp(Trunc(r), 0, U32_MAX)
    case PosInf => U32_MAX
    case _ => 0
  }

  function AsI32(x: F64): (n: int)
    ensures I32_MIN <= n <= I32_MAX
    ensures x.Fin? && 0.0 <= x.r < I32_MAX as real ==> n as real <= x.r < n as real + 1.0
    ensures x.Fin? && I32_MIN as real < x.r < 0.0 ==> n as real - 1.0 < x.r <= n as real
    ensures x == PosInf || (x.Fin? && x.r >= I32_MAX as real) ==> n == I32_MAX
    ensures x == NegInf || (x.Fin? && x.r <= I32_MIN as real) ==> n == I32_MIN
    ensures x == NaN ==> n == 0
  {
    match x
    case Fin(r) => Clamp(Trunc(r), I32_MIN, I32_MAX)
    case PosInf => I32_MAX
    case NegInf => I32_MIN
    case NaN => 0
  }

  // ---- decoded messages -----------------------------------------------------

  type Date = int

  datatype ContractDecoded = ContractDecoded(
    conId: int, symbol: string, secType: string, lastTradeDate: string, strike: F64, right: string,
    multiplier: string)

  datatype OpenOrderMsg = OpenOrderMsg(
    orderId: int, contract: ContractDecoded, action: string, totalQuantity: F64, orderType: string,
    lmtPrice: F64, tif: string, orderRef: string, remaining: F64)

  datatype InboundMsg =
    | Position(account: string, contract: ContractDecoded, position: F64, avgCost: F64)
    | OpenOrder(o: OpenOrderMsg)
    | OrderStatus(orderId: int, status: Status, filled: F64, remaining: F64)   // status after parse_status
    | Execution(reqId: int, execOrderId: int, conId: int, execId: string, side: Option<Side>, shares: F64, price: F64)   // side after the BOT/SLD test
    | ExecutionEnd(reqId: int)
    | ContractDetails(reqId: int, details: ContractDecoded)
    | ContractDetailsEnd(reqId: int)
    | Error(reqId: int, code: int, text: string)
    | NextValidId(oid: int)
    | Other

  /**
   Library parsing the model does not look into. Contract and position rows read their date leniently
   (`parseDate`: a time suffix or a bare month is accepted), open orders strictly (`parseDay`).
   */
  datatype Host = Host(
    parseF64: string -> Option<F64>, parseDate: string -> Date, parseDay: string -> Date,
    parseMultiplier: string -> real)

  const IN_ORDER_STATUS := 3
  const IN_OPEN_ORDER := 5
  const IN_NEXT_VALID_ID := 9
  const IN_POSITION_DATA := 61

  // ---- decimal integers -----------------------------------------------------

  predicate IsDigit(c: char)
  {
    '0' <= c <= '9'
  }

  function Digits(s: string): (n: int)
    requires forall c :: c in s ==> IsDigit(c)
  {
    if s == [] then 0 else Digits(s[..|s| - 1]) * 10 + (s[|s| - 1] as int - '0' as int)
  }

  /** Rust's integer parsing: an optional sign, at least one digit, and in range. */
  function ParseWithin(s: string, lo: int, hi: int): (r: Option<int>)
    ensures r.Some? ==> lo <= r.value <= hi
  {
    var signed := s != [] && (s[0] == '+' || s[0] == '-');
    var digits := if signed then s[1..] else s;
    if digits == [] || !(forall c :: c in digits ==> IsDigit(c)) then None
    else
      var n := if signed && s[0] == '-' then -Digits(digits) else Digits(digits);
      if lo <= n <= hi then Some(n) else None
  }

  function ParseInt(s: string): (r: Option<int>)
    ensures r.Some? ==> I32_MIN <= r.value <= I32_MAX
  {
    ParseWithin(s, I32_MIN, I32_MAX)
  }

  function ParseInt64(s: string): (r: Option<int>)
  {
    ParseWithin(s, -0x8000_0000_0000_0000, 0x7FFF_FFFF_FFFF_FFFF)
  }

  /** parse_f64: an empty field is zero. */
  function ParseF64(h: Host, s: string): (r: Option<F64>)
  {
    if s == "" then Some(Fin(0.0)) else if s == "Infinite" then Some(PosInf) else h.parseF64(s)
  }

  function FieldOr(fields: seq<string>, i: nat, default: string): (s: string)
  {
    if i < |fields| then fields[i] else default
  }

  // ---- parsers --------------------------------------------------------------

  /** The fields at these places are there and are integers. */
  predicate IntsParse(f: seq<string>, places: set<nat>)
  {
    forall i :: i in places ==> i < |f| && ParseInt(f[i]).Some?
  }

  predicate RealsParse(h: Host, f: seq<string>, places: set<nat>)
  {
    forall i :: i in places ==> i < |f| && ParseF64(h, f[i]).Some?
  }

  function ParseOrderStatus(h: Host, f: seq<string>): (r: Option<InboundMsg>)
    ensures r.Some? <==> |f| >= 12 && IntsParse(f, {1, 6, 7, 9}) && RealsParse(h, f, {3, 4, 5, 8, 11})
    ensures r.Some? ==> r.value.OrderStatus? && ParseInt(f[1]) == Some(r.value.orderId) && r.value.status == ParseStatus(f[2])
    ensures r.Some? ==> ParseF64(h, f[3]) == Some(r.value.filled) && ParseF64(h, f[4]) == Some(r.value.remaining)
  {
    if |f| < 12 then None
    else
      match (ParseInt(f[1]), ParseF64(h, f[3]), ParseF64(h, f[4]))
      case (Some(id), Some(filled), Some(remaining)) =>
        if ParseF64(h, f[5]).Some? && ParseInt(f[6]).Some? && ParseInt(f[7]).Some? && ParseF64(h, f[8]).Some?
           && ParseInt(f[9]).Some? && ParseF64(h, f[11]).Some?
        then Some(OrderStatus(id, ParseStatus(f[2]), filled, remaining)) else None
      case _ => None
  }

  /** The wire's openOrder carries no remaining quantity the parser reads: it is always zero. */
  function ParseOpenOrder(h: Host, f: seq<string>): (r: Option<InboundMsg>)
    ensures r.Some? ==> r.value.OpenOrder? && r.value.o.remaining == Fin(0.0)
  {
    if |f| < 17 then None
    else
      match (ParseInt(f[1]), ParseInt64(f[2]), ParseF64(h, f[6]), ParseF64(h, f[14]), ParseF64(h, f[16]))
      case (Some(id), Some(conId), Some(strike), Some(qty), Some(price)) =>
        Some(OpenOrder(OpenOrderMsg(
          id, ContractDecoded(conId, f[3], f[4], f[5], strike, f[7], f[8]), f[13], qty, f[15], price,
          FieldOr(f, 18, ""), FieldOr(f, 23, ""), Fin(0.0))))
      case _ => None
  }

  function ParsePosition(h: Host, f: seq<string>): (r: Option<InboundMsg>)
    ensures r.Some? <==> |f| >= 16 && ParseInt64(f[3]).Some? && RealsParse(h, f, {7, 14, 15})
    ensures r.Some? ==> r.value.Position? && r.value.account == f[2] && r.value.contract.symbol == f[4]
    ensures r.Some? ==> ParseInt64(f[3]) == Some(r.value.contract.conId) && ParseF64(h, f[7]) == Some(r.value.contract.strike)
    ensures r.Some? ==> ParseF64(h, f[14]) == Some(r.value.position) && ParseF64(h, f[15]) == Some(r.value.avgCost)
  {
    if |f| < 16 then None
    else
      match (ParseInt64(f[3]), ParseF64(h, f[7]), ParseF64(h, f[14]), ParseF64(h, f[15]))
      case (Some(conId), Some(strike), Some(qty), Some(cost)) =>
        Some(Position(f[2], ContractDecoded(conId, f[4], f[5], f[6], strike, f[8], f[9]), qty, cost))
      case _ => None
  }

  /** parse_inbound, for the messages that reach the order and position caches; the rest is `Other`. */
  function ParseInbound(h: Host, f: seq<string>): (r: Option<InboundMsg>)
    ensures r.Some? && r.value.OpenOrder? ==> r.value.o.remaining == Fin(0.0)
  {
    if f == [] then None
    else
      match ParseInt(f[0])
      case None => None
      case Some(ty) =>
        if ty == IN_ORDER_STATUS then ParseOrderStatus(h, f)
        else if ty == IN_OPEN_ORDER then ParseOpenOrder(h, f)
        else if ty == IN_POSITION_DATA then ParsePosition(h, f)
        else if ty == IN_NEXT_VALID_ID then
          (match ParseInt(FieldOr(f, 2, "0"))
           case None => None
           case Some(oid) => Some(NextValidId(oid)))
        else Some(Other)
  }

  /** What the dispatcher routes: frames that parse, in order; the others are logged and dropped. */
  function Decode(h: Host, frames: seq<seq<string>>): (ms: seq<InboundMsg>)
    ensures forall m :: m in ms && m.OpenOrder? ==> m.o.remaining == Fin(0.0)
  {
    if frames == [] then []
    else
      var init := Decode(h, frames[..|frames| - 1]);
      match ParseInbound(h, frames[|frames| - 1])
      case None => init
      case Some(m) => init + [m]
  }

  // ---- conversions ----------------------------------------------------------

  datatype ContractKind = Future | Option_
  datatype Right = Call | Put
  datatype Side = Buy | Sell
  datatype OrderType = Limit | Market | StopLimit(stopPrice: real)
  datatype TimeInForce = Gtc | Day | Gtd | Ioc | Fok
  datatype Status = PendingSubmit | Submitted | Filled | Cancelled | PendingCancel | Rejected | Inactive

  datatype Contract = Contract(
    instrumentId: int, kind: ContractKind, symbol: string, expiry: Date, strike: Option<real>,
    right: Option<Right>, multiplier: real)

  function ParseStatus(s: string): (st: Status)
  {
    if s == "PendingSubmit" || s == "ApiPending" || s == "PreSubmitted" then PendingSubmit
    else if s == "Submitted" then Submitted
    else if s == "Filled" then Filled
    else if s == "Cancelled" || s == "ApiCancelled" then Cancelled
    else if s == "PendingCancel" then PendingCancel
    else if s == "Rejected" || s == "ApiRejected" then Rejected
    else Inactive
  }

  /** Nothing more will happen to the order (tasks.rs). */
  predicate Terminal(st: Status)
  {
    st == Filled || st == Cancelled || st == Rejected || st == Inactive
  }

  function ParseSide(s: string): (r: Option<Side>)
  {
    if s == "BUY" then Some(Buy) else if s == "SELL" then Some(Sell) else None
  }

  function ParseOrderType(s: string, aux: real): (t: OrderType)
  {
    if s == "MKT" then Market else if s == "STP LMT" then StopLimit(aux) else Limit
  }

  function ParseTif(s: string): (t: TimeInForce)
  {
    if s == "GTC" then Gtc else if s == "GTD" then Gtd else if s == "IOC" then Ioc
    else if s == "FOK" then Fok else Day
  }

  function ParseRight(s: string): (r: Option<Right>)
  {
    if s == "C" || s == "CALL" then Some(Call) else if s == "P" || s == "PUT" then Some(Put) else None
  }

  function ParseKind(s: string): (k: Option<ContractKind>)
  {
    if s == "FUT" then Some(Future) else if s == "OPT" || s == "FOP" then Some(Option_) else None
  }

  function NativeToContract(h: Host, cd: ContractDecoded): (r: Option<Contract>)
    ensures r.Some? <==> ParseKind(cd.secType).Some?
    ensures r.Some? ==> r.value.instrumentId == cd.conId && Some(r.value.kind) == ParseKind(cd.secType)
    ensures r.Some? && r.value.strike.Some? ==> cd.strike == Fin(r.value.strike.value) && r.value.strike.value > 0.0
    ensures r.Some? && r.value.strike.None? ==> !(cd.strike.Fin? && cd.strike.r > 0.0)
    ensures r.Some? ==> r.value.symbol == cd.symbol && r.value.right == ParseRight(cd.right)
  {
    match ParseKind(cd.secType)
    case None => None
    case Some(kind) =>
      Some(Contract(cd.conId, kind, cd.symbol, h.parseDate(cd.lastTradeDate), PositiveReal(cd.strike),
                    ParseRight(cd.right), h.parseMultiplier(cd.multiplier)))
  }

  /** A finite positive double, else nothing. */
  function PositiveReal(x: F64): (r: Option<real>)
    ensures r.Some? ==> r.value > 0.0
  {
    if x.Fin? && x.r > 0.0 then Some(x.r) else None
  }
}
