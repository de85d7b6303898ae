/** The request rules of the HTTP API (api/handlers.go): how each handler
    turns its path and query parameters into a store or node query, which
    cache key and expiry it picks, and the chain-info supply figure. The
    handlers' writes to the response and to the cache are left out; what is
    modelled is the decision each one takes before them. */
module Handlers {
  import opened Common
  import opened Models
  import Delegates

  /** The error replies the handlers send: 400, 404 and 500. */
  datatype Status = BadRequest | NotFound | InternalError

  function Code(s: Status): nat
  {
    match s
    case BadRequest => 400
    case NotFound => 404
    case InternalError => 500
  }

  // ---------------------------------------------------------------------------
  // Decimal numbers as Go's strconv reads and writes them (base 10).

  predicate IsDigit(c: char)
  {
    '0' <= c <= '9'
  }

  predicate AllDigits(s: string)
  {
    forall i :: 0 <= i < |s| ==> IsDigit(s[i])
  }

  function DigitChar(d: nat): (c: char)
    requires d < 10
    ensures IsDigit(c) && c as int - '0' as int == d
  {
    ('0' as int + d) as char
  }

  /** The value of a string of decimal digits, most significant first. */
  function DecimalValue(s: string): nat
    requires AllDigits(s)
    decreases |s|
  {
    if s == [] then 0 else 10 * DecimalValue(s[..|s| - 1]) + (s[|s| - 1] as int - '0' as int)
  }

  /** strconv.FormatUint(n, 10), which is also what `%d` prints. */
  function FormatUint(n: nat): (s: string)
    ensures |s| > 0 && AllDigits(s)
    decreases n
  {
    if n < 10 then [DigitChar(n)] else FormatUint(n / 10) + [DigitChar(n % 10)]
  }

  /** The digits FormatUint writes read back as the number. */
  lemma {:induction false} FormatUintValue(n: nat)
    ensures DecimalValue(FormatUint(n)) == n
    decreases n
  {
    var s := FormatUint(n);
    if n >= 10 {
      FormatUintValue(n / 10);
      assert s[..|s| - 1] == FormatUint(n / 10);
    }
  }

  /** Different numbers are written differently. */
  lemma FormatUintInjective(a: nat, b: nat)
    ensures FormatUint(a) == FormatUint(b) ==> a == b
  {
    FormatUintValue(a);
    FormatUintValue(b);
  }

  /** strconv.ParseUint(s, 10, bits) with `limit` = 2^bits: at least one
      digit, no sign and nothing but digits, and a value below the limit. */
  function ParseUint(s: string, limit: nat): (r: Option<nat>)
    ensures r.Some? ==> r.value < limit && |s| > 0 && AllDigits(s)
    ensures r.None? ==> s == [] || !AllDigits(s) || DecimalValue(s) >= limit
  {
    if |s| > 0 && AllDigits(s) && DecimalValue(s) < limit then Some(DecimalValue(s)) else None
  }

  /** A number below the limit, written out, parses back to itself. */
  lemma ParseFormatUint(n: nat, limit: nat)
    requires n < limit
    ensures ParseUint(FormatUint(n), limit) == Some(n)
  {
    FormatUintValue(n);
  }

  const Int64Bound: nat := 0x8000_0000_0000_0000

  /** strconv.ParseInt(s, 10, 64): an optional `+` or `-`, then what
      ParseUint accepts, with the signed value in [-2^63, 2^63). */
  function ParseInt64(s: string): (r: Option<int>)
    ensures r.Some? ==> -(Int64Bound as int) <= r.value < Int64Bound
    ensures r.Some? && r.value < 0 ==> |s| > 0 && s[0] == '-'
  {
    if |s| > 0 && s[0] == '-' then
      match ParseUint(s[1..], Uint64Limit)
      case Some(u) => if u <= Int64Bound then Some(-(u as int)) else None
      case None => None
    else
      var digits := if |s| > 0 && s[0] == '+' then s[1..] else s;
      match ParseUint(digits, Uint64Limit)
      case Some(u) => if u < Int64Bound then Some(u) else None
      case None => None
  }

  /** strconv.FormatInt(x, 10). */
  function FormatInt(x: int): string
  {
    if x < 0 then "-" + FormatUint(-x) else FormatUint(x)
  }

  /** Every int64, written out, parses back to itself. */
  lemma ParseFormatInt(x: int)
    requires -(Int64Bound as int) <= x < Int64Bound
    ensures ParseInt64(FormatInt(x)) == Some(x)
  {
    if x < 0 {
      assert FormatInt(x)[1..] == FormatUint(-x);
      ParseFormatUint(-x, Uint64Limit);
    } else {
      assert IsDigit(FormatUint(x)[0]);
      ParseFormatUint(x, Uint64Limit);
    }
  }

  // ---------------------------------------------------------------------------
  // HandleBlock.

  const MaxBlockRange: nat := 100

  /** What HandleBlock asks the store for: a block by hash, a block by
      number, or `count` blocks going down from `top`. */
  datatype BlockQuery = ByHash(hash: string) | ById(id: nat) | ByRange(top: nat, count: nat)

  /** The parameter names a hash when it is longer than two characters and
      its second character is 'x'. */
  predicate IsHashParam(param: string)
  {
    |param| > 2 && param[1] == 'x'
  }

  /** HandleBlock's reading of its parameters. Anything that is not a hash
      must be a decimal int64. Without `range` the number is used as a
      uint64 (a negative one wraps). With `range`, which must be a decimal
      uint32, the only negative number allowed is -1, meaning the top of the
      uint32 range; others are truncated to uint32, and the count is capped
      at 100. */
  function BlockRequest(param: string, rangeParam: string): (r: Result<BlockQuery, Status>)
    ensures IsHashParam(param) ==> r == Ok(ByHash(param))
    ensures !IsHashParam(param) && ParseInt64(param).None? ==> r == Err(BadRequest)
    ensures r.Err? ==> r.error == BadRequest
    ensures r.Ok? && r.value.ById? ==> r.value.id < Uint64Limit && rangeParam == ""
    ensures r.Ok? && r.value.ByRange? ==>
              r.value.top < Uint32Limit && r.value.count <= MaxBlockRange && rangeParam != ""
    ensures (!IsHashParam(param) && rangeParam != "" && ParseInt64(param).Some? &&
             ParseInt64(param).value < -1) ==> r == Err(BadRequest)
  {
    if IsHashParam(param) then Ok(ByHash(param))
    else match ParseInt64(param)
      case None => Err(BadRequest)
      case Some(rawId) =>
        if rangeParam == "" then Ok(ById(rawId % Uint64Limit))
        else match ParseUint(rangeParam, Uint32Limit)
          case None => Err(BadRequest)
          case Some(rng) =>
            if rawId < 0 && rawId != -1 then Err(BadRequest)
            else
              var id := if rawId == -1 then Uint32Limit - 1 else rawId % Uint32Limit;
              Ok(ByRange(id, if rng > MaxBlockRange then MaxBlockRange else rng))
  }

  /** A written-out block number is looked up by number, and with a range
      the count is the requested one capped at 100. */
  lemma BlockByNumber(n: nat, k: nat)
    requires n < Int64Bound && k < Uint32Limit
    ensures BlockRequest(FormatUint(n), "") == Ok(ById(n))
    ensures BlockRequest(FormatUint(n), FormatUint(k)) ==
              Ok(ByRange(n % Uint32Limit, if k > MaxBlockRange then MaxBlockRange else k))
  {
    var s := FormatUint(n);
    DigitsNotHash(s);
    ParseFormatInt(n);
    assert FormatInt(n) == s;
    assert ParseInt64(s) == Some(n as int);
    assert n % Uint64Limit == n;
    ParseFormatUint(k, Uint32Limit);
  }

  /** Digits alone are never taken for a hash. */
  lemma DigitsNotHash(s: string)
    requires AllDigits(s)
    ensures !IsHashParam(s)
  {
    if |s| > 2 {
      assert IsDigit(s[1]);
    }
  }

  /** `-1` with a range asks for the blocks below the top of the uint32
      range; any other negative number with a range is refused, and without
      a range it wraps to a uint64. */
  lemma BlockNegativeIds(n: nat, k: nat)
    requires 1 < n <= Int64Bound && k < Uint32Limit
    ensures BlockRequest("-1", FormatUint(k)) ==
              Ok(ByRange(Uint32Limit - 1, if k > MaxBlockRange then MaxBlockRange else k))
    ensures BlockRequest(FormatInt(-(n as int)), FormatUint(k)) == Err(BadRequest)
    ensures BlockRequest(FormatInt(-(n as int)), "") == Ok(ById(Uint64Limit - n))
  {
    ParseFormatInt(-1);
    assert FormatInt(-1) == "-1";
    ParseFormatInt(-(n as int));
    ParseFormatUint(k, Uint32Limit);
    var s := FormatInt(-(n as int));
    assert IsDigit(s[1]);
  }

  // ---------------------------------------------------------------------------
  // Pagination (HandleTxByAddress, HandleRichList).

  /** An `offset` or `limit` query value: its default when absent, otherwise
      a decimal uint32, and 400 for anything else. */
  function PageParam(param: string, default: nat): (r: Result<nat, Status>)
    ensures param == "" ==> r == Ok(default)
    ensures param != "" ==> (r.Ok? <==> ParseUint(param, Uint32Limit).Some?)
    ensures param != "" && r.Ok? ==> r.value < Uint32Limit
    ensures r.Err? ==> r.error == BadRequest
  {
    if param == "" then Ok(default)
    else match ParseUint(param, Uint32Limit)
      case Some(v) => Ok(v)
      case None => Err(BadRequest)
  }

  /** A page value written out is read back as itself, and the empty value
      gives the default. */
  lemma PageParamRoundTrip(n: nat, default: nat)
    requires n < Uint32Limit
    ensures PageParam(FormatUint(n), default) == Ok(n)
    ensures PageParam("", default) == Ok(default)
  {
    ParseFormatUint(n, Uint32Limit);
  }

  // ---------------------------------------------------------------------------
  // HandleTxByAddress.

  function ReferenceName(t: AddressType): string
  {
    match t
    case AddressFrom => "from"
    case AddressTo => "to"
    case AddressAll => "all"
    case AddressBlockHash => "block"
    case Latest => "latest"
  }

  /** The `ref` path segment: one of the five names, or nothing. */
  function ParseReference(reference: string): (r: Option<AddressType>)
    ensures r.Some? ==> ReferenceName(r.value) == reference
    ensures forall t :: ReferenceName(t) == reference ==> r == Some(t)
  {
    match reference
    case "from" => Some(AddressFrom)
    case "to" => Some(AddressTo)
    case "all" => Some(AddressAll)
    case "block" => Some(AddressBlockHash)
    case "latest" => Some(Latest)
    case _ => None
  }

  /** The sort order: "desc" only when asked for exactly, otherwise "asc". */
  function Order(orderParam: string): (order: string)
    ensures order == "asc" || order == "desc"
    ensures order == "desc" <==> orderParam == "desc"
  {
    if orderParam == "desc" then "desc" else "asc"
  }

  const TxPageDefault: nat := 20

  datatype TxQuery = TxQuery(kind: AddressType, offset: nat, limit: nat, order: string)

  /** HandleTxByAddress: offset (default 0) and limit (default 20) as
      uint32, the order normalised, and the reference one of the five names;
      any failure is a 400. */
  function TxByAddressRequest(reference: string, offsetParam: string, limitParam: string,
                              orderParam: string): (r: Result<TxQuery, Status>)
    ensures r.Ok? <==> ParseReference(reference).Some? &&
                       PageParam(offsetParam, 0).Ok? && PageParam(limitParam, TxPageDefault).Ok?
    ensures r.Err? ==> r.error == BadRequest
    ensures r.Ok? ==> ReferenceName(r.value.kind) == reference &&
                      r.value.offset == PageParam(offsetParam, 0).value &&
                      r.value.limit == PageParam(limitParam, TxPageDefault).value &&
                      r.value.order == Order(orderParam)
  {
    var offset := PageParam(offsetParam, 0);
    var limit := PageParam(limitParam, TxPageDefault);
    if offset.Err? then Err(offset.error)
    else if limit.Err? then Err(limit.error)
    else match ParseReference(reference)
      case None => Err(BadRequest)
      case Some(kind) => Ok(TxQuery(kind, offset.value, limit.value, Order(orderParam)))
  }

  /** Without query values the first twenty are listed in ascending order,
      whatever reference is named. */
  lemma TxByAddressDefaults(t: AddressType, orderParam: string)
    requires orderParam != "desc"
    ensures TxByAddressRequest(ReferenceName(t), "", "", orderParam) ==
              Ok(TxQuery(t, 0, TxPageDefault, "asc"))
  {
  }

  // ---------------------------------------------------------------------------
  // HandleRichList.

  const RichListPageDefault: nat := 100

  /** HandleRichList: (limit, offset) with defaults 100 and 0. */
  function RichListRequest(offsetParam: string, limitParam: string): (r: Result<(nat, nat), Status>)
    ensures r.Ok? <==> PageParam(offsetParam, 0).Ok? && PageParam(limitParam, RichListPageDefault).Ok?
    ensures r.Err? ==> r.error == BadRequest
    ensures r.Ok? ==> r.value == (PageParam(limitParam, RichListPageDefault).value,
                                  PageParam(offsetParam, 0).value)
  {
    var offset := PageParam(offsetParam, 0);
    var limit := PageParam(limitParam, RichListPageDefault);
    if offset.Err? then Err(offset.error)
    else if limit.Err? then Err(limit.error)
    else Ok((limit.value, offset.value))
  }

  // ---------------------------------------------------------------------------
  // HandleDelegates: which block, and under which cache key.

  const OneDay: nat := 86400

  /** The block to list delegates of, the cache key of the reply and the
      key's expiry in seconds. */
  datatype DelegatesQuery = DelegatesQuery(block: nat, key: string, expiry: nat)

  function DelegatesKey(block: nat): string
  {
    "delegates:" + FormatUint(block)
  }

  /** HandleDelegates as written: a number that parses as an int64 is
      converted to uint64 before the `blockNumber < 0` guard, which
      therefore never fires; anything else means the latest stored block
      (`latest`, None when the store fails), cached for one second. */
  function DelegatesRequestAsWritten(number: string, latest: Option<nat>): (r: Result<DelegatesQuery, Status>)
    ensures ParseInt64(number).Some? ==> r.Ok?
  {
    match ParseInt64(number)
    case Some(rawId) =>
      var block := rawId % Uint64Limit;
      Ok(DelegatesQuery(block, DelegatesKey(block), OneDay))
    case None =>
      if latest.None? then Err(InternalError) else Ok(DelegatesQuery(latest.value, "delegates", 1))
  }

  /** `-1` is not refused: it asks the node for block 2^64 - 1 and caches the
      reply for a day. */
  lemma DelegatesNegativeAccepted(latest: Option<nat>)
    ensures DelegatesRequestAsWritten("-1", latest) ==
              Ok(DelegatesQuery(Uint64Limit - 1, DelegatesKey(Uint64Limit - 1), OneDay))
  {
    ParseFormatInt(-1);
    assert FormatInt(-1) == "-1";
  }

  /** HandleDelegates as intended: a negative number is a 400. */
  function DelegatesRequest(number: string, latest: Option<nat>): (r: Result<DelegatesQuery, Status>)
    ensures ParseInt64(number).Some? ==>
              (r.Ok? <==> ParseInt64(number).value >= 0)
    ensures r.Err? ==> (r.error == BadRequest <==> ParseInt64(number).Some?)
    ensures r.Ok? ==> (r.value.expiry == OneDay <==> ParseInt64(number).Some?)
    ensures r.Ok? && ParseInt64(number).Some? ==>
              r.value.block == ParseInt64(number).value && r.value.key == DelegatesKey(r.value.block)
    ensures ParseInt64(number).None? ==>
              r == (if latest.None? then Err(InternalError) else Ok(DelegatesQuery(latest.value, "delegates", 1)))
  {
    match ParseInt64(number)
    case Some(rawId) =>
      if rawId < 0 then Err(BadRequest)
      else Ok(DelegatesQuery(rawId, DelegatesKey(rawId), OneDay))
    case None =>
      if latest.None? then Err(InternalError) else Ok(DelegatesQuery(latest.value, "delegates", 1))
  }

  /** Cache keys never mix replies: two blocks asked for by number share a
      key only if they are the same block, and no numbered key is the key of
      the latest-block reply. */
  lemma DelegatesKeysDistinct(a: nat, b: nat)
    ensures DelegatesKey(a) == DelegatesKey(b) ==> a == b
    ensures DelegatesKey(a) != "delegates"
  {
    if DelegatesKey(a) == DelegatesKey(b) {
      assert FormatUint(a) == DelegatesKey(a)[10..];
      assert FormatUint(b) == DelegatesKey(b)[10..];
      FormatUintInjective(a, b);
    }
    assert |DelegatesKey(a)| > |"delegates"|;
  }

  /** The intended rule agrees with the written one on every request that is
      not a negative number. */
  lemma DelegatesAgree(number: string, latest: Option<nat>)
    requires ParseInt64(number).None? || ParseInt64(number).value >= 0
    ensures DelegatesRequest(number, latest) == DelegatesRequestAsWritten(number, latest)
  {
  }

  // ---------------------------------------------------------------------------
  // HandleStats.

  /** The status of a failed stats request: 404 when the named address is
      not a delegate of the latest block, 500 for every other failure. */
  function StatsStatus(e: Delegates.StatsError): (s: Status)
    ensures s == NotFound <==> e == Delegates.AddressNotFoundInDelegates
    ensures s != NotFound ==> s == InternalError
  {
    if e == Delegates.AddressNotFoundInDelegates then NotFound else InternalError
  }

  /** A stats request ends in 404 exactly when it names an address that is
      not among the latest block's delegates. */
  lemma StatsNotFound(cfg: Delegates.DposConfig, windows: seq<nat>, address: string, latest: Option<Block>,
                      votes: Option<seq<DelegateVoteInfo>>, stored: Option<seq<Block>>)
    requires Delegates.ValidConfig(cfg, windows)
    requires latest.Some? ==> latest.value.timeStamp < Uint64Limit
    ensures var r := Delegates.Stats(cfg, windows, address, latest, votes, stored);
            (r.Err? && StatsStatus(r.error) == NotFound) <==>
              latest.Some? && Delegates.ParseLookup(address).Some? &&
              Delegates.ParseLookup(address).value !in latest.value.delegates
  {
    Delegates.StatsErrors(cfg, windows, address, latest, votes, stored);
  }

  /** The cache key of a stats reply: "stats" alone, or followed by the
      address in its canonical rendering (`render`, the checksummed hex of
      the node library) when the request names a well-formed address. */
  function StatsKey(address: string, render: Address -> string): (key: string)
    ensures Delegates.ParseLookup(address).None? ==> key == "stats"
    ensures Delegates.ParseLookup(address).Some? ==> key == "stats:" + render(Delegates.ParseLookup(address).value)
  {
    match Delegates.ParseLookup(address)
    case None => "stats"
    case Some(a) => "stats:" + render(a)
  }

  /** The same address with or without its "0x" prefix shares one cache
      entry. */
  lemma StatsKeyPrefix(a: Address, render: Address -> string)
    ensures StatsKey(HexEncode(a), render) == StatsKey("0x" + HexEncode(a), render) == "stats:" + render(a)
  {
    Delegates.LookupRoundTrip(a);
  }

  // ---------------------------------------------------------------------------
  // HandleChainInfo: the supply.

  const Ether: nat := 1_000_000_000_000_000_000
  const RewardPerBlock: nat := 3171

  /** Go's uint64 `a * b`: wraps above 2^64 - 1. */
  function Mul64(a: nat, b: nat): (r: nat)
    requires a < Uint64Limit && b < Uint64Limit
    ensures r < Uint64Limit
    ensures a * b < Uint64Limit ==> r == a * b
  {
    (a * b) % Uint64Limit
  }

  datatype Supply = Supply(total: nat, circulating: nat)

  /** The total supply in wei: the initial distribution plus 3171 per block
      up to the latest stored one, in uint64 units, times 10^18; the
      circulating supply is reported equal to it. */
  function ChainSupply(initialDistribution: nat, latestBlock: nat): (s: Supply)
    requires initialDistribution < Uint64Limit && latestBlock < Uint64Limit
    ensures s.circulating == s.total
    ensures s.total % Ether == 0
    ensures initialDistribution + RewardPerBlock * latestBlock < Uint64Limit ==>
              s.total == (initialDistribution + RewardPerBlock * latestBlock) * Ether
  {
    var units := Add64(initialDistribution, Mul64(RewardPerBlock, latestBlock));
    Supply(units * Ether, units * Ether)
  }

  /** Each block adds exactly 3171 * 10^18 wei, as long as the uint64 sum
      does not wrap. */
  lemma SupplyPerBlock(initialDistribution: nat, n: nat)
    requires initialDistribution + RewardPerBlock * (n + 1) < Uint64Limit
    ensures ChainSupply(initialDistribution, n + 1).total ==
              ChainSupply(initialDistribution, n).total + RewardPerBlock * Ether
  {
    assert RewardPerBlock * (n + 1) == RewardPerBlock * n + RewardPerBlock;
  }
}
