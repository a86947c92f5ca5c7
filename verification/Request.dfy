/** The ping request and its form as query values (pkg/pinger/request.go): the printer, the parser, and the TTL
    generators. Query values are taken after URL decoding; the JSON codecs of DNS and HTTP targets are parameters. */
module Request {
  import opened Wrappers
  import opened Text
  import Counting
  import IntList

  // ----- TTL generators -----

  const MAX_ALLOWED_AUTO_TTL := 64
  const DEFAULT_TTL: Int := 64

  /** A generator as a value: where it starts or its list, and its cursor. */
  datatype TTLGenerator =
    | Auto(start: Int, next: Int)
    | Range(ttls: seq<Int>, idx: nat)

  function TTLString(t: TTLGenerator): string {
    match t
    case Auto(start, _) => "auto(" + (Itoa(start) + ")" + "")
    case Range(ttls, _) => Join(IntList.Printed(ttls), ',')
  }

  function ParseToAutoTTL(s: string): Option<TTLGenerator> {
    if s == "auto" then Some(Auto(1, 1))
    else if !("auto(" <= s) then None
    else
      var start := IntList.DigitsThen(s[5..], ')');
      if start.None? || start.value.1 != "" || Atoi(start.value.0).None? then None
      else Some(Auto(Atoi(start.value.0).value, Atoi(start.value.0).value))
  }

  /** How many packets a generator goes through before it starts over. A start above 64 is kept, except that from the
      largest int the increment wraps, and the cycle runs through all ints up to 64. */
  function AutoPeriod(start: Int): int {
    if start <= MAX_ALLOWED_AUTO_TTL then MAX_ALLOWED_AUTO_TTL + 1 - start
    else if start < MAX_INT then 1
    else MAX_ALLOWED_AUTO_TTL + 2 - MIN_INT
  }

  /** The TTL after `k` steps. */
  function AutoAt(start: Int, k: nat): int {
    var r := k % AutoPeriod(start);
    if start == MAX_INT && r > 0 then MIN_INT + r - 1 else start + r
  }

  lemma NextRemainder(n: nat, p: int)
    requires p > 0
    ensures (n + 1) % p == if n % p + 1 == p then 0 else n % p + 1
  {
    var q, r := n / p, n % p;
    assert n == q * p + r;
    if r + 1 == p {
      assert n + 1 == (q + 1) * p + 0 by {
        assert (q + 1) * p == q * p + p;
      }
      Counting.SameRemainder(n + 1, p, q + 1, 0);
    } else {
      Counting.SameRemainder(n + 1, p, q, r + 1);
    }
  }

  class AutoTTL {
    var Start: Int
    var Next: Int
    /** Calls of Forward since the last Reset. */
    ghost var steps: nat

    ghost predicate Valid()
      reads this
    {
      Next == AutoAt(Start, steps)
    }

    constructor (start: Int)
      ensures Valid() && Start == start && steps == 0
    {
      Start, Next, steps := start, start, 0;
    }

    method Get() returns (ttl: Int)
      requires Valid()
      ensures ttl == AutoAt(Start, steps)
      ensures Start <= 64 ==> Start <= ttl <= 64
      ensures Start == 1 ==> ttl == 1 + steps % 64
      ensures 64 < Start < MAX_INT ==> ttl == Start
    {
      ttl := Next;
    }

    /** The increment wraps at the largest int. */
    method Forward()
      requires Valid()
      modifies this
      ensures Valid() && Start == old(Start) && steps == old(steps) + 1
    {
      NextRemainder(steps, AutoPeriod(Start));
      Next := if Next == MAX_INT then MIN_INT else Next + 1;
      if Next > MAX_ALLOWED_AUTO_TTL {
        Next := Start;
      }
      steps := steps + 1;
    }

    method Reset()
      modifies this
      ensures Valid() && Start == old(Start) && Next == Start && steps == 0
    {
      Next, steps := Start, 0;
    }
  }

  class RangeTTL {
    var TTLs: seq<Int>
    var idx: nat
    ghost var steps: nat

    /** The cursor goes round the list. */
    ghost predicate Valid()
      reads this
    {
      idx == if TTLs == [] then 0 else steps % |TTLs|
    }

    constructor (ttls: seq<Int>)
      ensures Valid() && TTLs == ttls && steps == 0
    {
      TTLs, idx, steps := ttls, 0, 0;
    }

    method Get() returns (ttl: Int)
      requires Valid() && TTLs != []
      ensures ttl == TTLs[steps % |TTLs|]
    {
      ttl := TTLs[idx];
    }

    method Forward()
      requires Valid()
      modifies this
      ensures Valid() && TTLs == old(TTLs) && steps == old(steps) + 1
    {
      if TTLs != [] {
        NextRemainder(steps, |TTLs|);
      }
      idx := idx + 1;
      if idx >= |TTLs| {
        idx := 0;
      }
      steps := steps + 1;
    }

    method Reset()
      requires Valid()
      modifies this
      ensures Valid() && TTLs == old(TTLs) && idx == 0 && steps == 0
    {
      idx, steps := 0, 0;
    }
  }

  // ----- requests and query values -----

  datatype DNSTarget = DNSTarget(query: string)

  datatype HTTPTarget = HTTPTarget(content: string, proto: Option<string>)

  datatype Codec = Codec(
    encodeDNS: DNSTarget -> string, decodeDNS: string -> Option<DNSTarget>,
    encodeHTTP: HTTPTarget -> string, decodeHTTP: string -> Option<HTTPTarget>)
  {
    /** Decoding undoes encoding. */
    ghost predicate Inverse() {
      && (forall t :: decodeDNS(encodeDNS(t)) == Some(t))
      && (forall t :: decodeHTTP(encodeHTTP(t)) == Some(t))
    }
  }

  predicate AcceptableProto(t: HTTPTarget) {
    t.proto.Some? ==> t.proto.value in ["http/1.1", "http/2", "http/3"]
  }

  /** `From` is None for a nil slice; the other slices are never told apart from empty ones. */
  datatype SimplePingRequest = SimplePingRequest(
    From: Option<seq<string>>,
    Targets: seq<string>,
    IntvMilliseconds: Int,
    PktTimeoutMilliseconds: Int,
    PreferV4: Option<bool>,
    PreferV6: Option<bool>,
    TotalPkts: Option<Int>,
    Resolver: Option<string>,
    TTL: Option<TTLGenerator>,
    RandomPayloadSize: Option<Int>,
    ResolveTimeoutMilliseconds: Option<Int>,
    IPInfoProviderName: Option<string>,
    L4PacketType: Option<string>,
    L7PacketType: Option<string>,
    DNSTargets: seq<DNSTarget>,
    HTTPTargets: seq<HTTPTarget>,
    UDPDstPort: Option<Int>)

  /** The query parameters, by the names of the constants in the source. */
  datatype Param =
    | ParamTargets | ParamFrom | ParamCount | ParamIntvMs | ParamPktTimeoutMs | ParamTTL | ParamPreferV4 | ParamPreferV6
    | ParamResolver | ParamRandomPayloadSize | ParamDestination | ParamResolveTimeoutMilliseconds
    | ParamsIPInfoProviderName | ParamL4PacketType | ParamL7PacketType | ParamDNSTarget | ParamHTTPTarget
    | ParamL3PacketType | ParamUDPDstPort

  type Values = map<Param, seq<string>>

  function Lookup(vals: Values, p: Param): seq<string> {
    if p in vals then vals[p] else []
  }

  /** The first value, or the empty string. */
  function Get(vals: Values, p: Param): string {
    if Lookup(vals, p) == [] then "" else Lookup(vals, p)[0]
  }

  function Add(vals: Values, p: Param, v: string): Values {
    vals[p := Lookup(vals, p) + [v]]
  }

  function FormatBool(b: bool): string {
    if b then "true" else "false"
  }

  function ParseBool(s: string): Option<bool> {
    if s in ["1", "t", "T", "TRUE", "true", "True"] then Some(true)
    else if s in ["0", "f", "F", "FALSE", "false", "False"] then Some(false)
    else None
  }

  // ----- printing -----

  function IntShown(o: Option<Int>): seq<string> {
    if o.Some? then [Itoa(o.value)] else []
  }

  function BoolShown(o: Option<bool>): seq<string> {
    if o.Some? then [FormatBool(o.value)] else []
  }

  function NonEmptyShown(o: Option<string>): seq<string> {
    if o.Some? && o.value != "" then [o.value] else []
  }

  function DNSShown(c: Codec, ts: seq<DNSTarget>): seq<string> {
    if ts == [] then [] else DNSShown(c, ts[..|ts| - 1]) + [c.encodeDNS(ts[|ts| - 1])]
  }

  function HTTPShown(c: Codec, ts: seq<HTTPTarget>): seq<string> {
    if ts == [] then [] else HTTPShown(c, ts[..|ts| - 1]) + [c.encodeHTTP(ts[|ts| - 1])]
  }

  function PresentShown(o: Option<string>): seq<string> {
    if o.Some? then [o.value] else []
  }

  function Joined(names: Option<seq<string>>): Option<string> {
    if names.Some? then Some(Join(names.value, ',')) else None
  }

  function TTLText(ttl: Option<TTLGenerator>): Option<string> {
    if ttl.Some? then Some(TTLString(ttl.value)) else None
  }

  /** The first target, trimmed, for old agents. */
  function Destination(targets: seq<string>): Option<string> {
    if targets == [] then None else Some(TrimSpace(targets[0]))
  }

  /** What a printed request shows under each name. */
  function Shown(c: Codec, req: SimplePingRequest, p: Param): seq<string> {
    match p
    case ParamTargets => PresentShown(Joined(if req.Targets == [] then None else Some(req.Targets)))
    case ParamDestination => NonEmptyShown(Destination(req.Targets))
    case ParamFrom => PresentShown(Joined(req.From))
    case ParamIntvMs => IntShown(Some(req.IntvMilliseconds))
    case ParamPktTimeoutMs => IntShown(Some(req.PktTimeoutMilliseconds))
    case ParamPreferV4 => BoolShown(req.PreferV4)
    case ParamPreferV6 => BoolShown(req.PreferV6)
    case ParamCount => IntShown(req.TotalPkts)
    case ParamResolver => PresentShown(req.Resolver)
    case ParamTTL => PresentShown(TTLText(req.TTL))
    case ParamResolveTimeoutMilliseconds => IntShown(req.ResolveTimeoutMilliseconds)
    case ParamRandomPayloadSize => IntShown(req.RandomPayloadSize)
    case ParamsIPInfoProviderName => NonEmptyShown(req.IPInfoProviderName)
    case ParamL3PacketType => NonEmptyShown(req.L4PacketType)
    case ParamL4PacketType => NonEmptyShown(req.L4PacketType)
    case ParamUDPDstPort => IntShown(req.UDPDstPort)
    case ParamL7PacketType => NonEmptyShown(req.L7PacketType)
    case ParamDNSTarget => DNSShown(c, req.DNSTargets)
    case ParamHTTPTarget => HTTPShown(c, req.HTTPTargets)
  }

  ghost predicate Prints(c: Codec, req: SimplePingRequest, vals: Values) {
    forall p: Param :: Lookup(vals, p) == Shown(c, req, p)
  }

  /** The place of a parameter in the printer. */
  ghost function Place(p: Param): nat {
    match p
    case ParamTargets => 0
    case ParamDestination => 1
    case ParamFrom => 2
    case ParamIntvMs => 3
    case ParamPktTimeoutMs => 4
    case ParamPreferV4 => 5
    case ParamPreferV6 => 6
    case ParamCount => 7
    case ParamResolver => 8
    case ParamTTL => 9
    case ParamResolveTimeoutMilliseconds => 10
    case ParamRandomPayloadSize => 11
    case ParamsIPInfoProviderName => 12
    case ParamL3PacketType => 13
    case ParamL4PacketType => 14
    case ParamUDPDstPort => 15
    case ParamL7PacketType => 16
    case ParamDNSTarget => 17
    case ParamHTTPTarget => 18
  }

  /** The parameters before place `k` are printed, and no other yet. */
  ghost predicate PrintsUpTo(c: Codec, req: SimplePingRequest, vals: Values, k: nat) {
    forall p: Param :: Lookup(vals, p) == if Place(p) < k then Shown(c, req, p) else []
  }

  lemma PrintsOneMore(c: Codec, req: SimplePingRequest, vals: Values, r: Values, p: Param)
    requires PrintsUpTo(c, req, vals, Place(p))
    requires Lookup(r, p) == Lookup(vals, p) + Shown(c, req, p)
    requires forall q: Param :: q != p ==> Lookup(r, q) == Lookup(vals, q)
    ensures PrintsUpTo(c, req, r, Place(p) + 1)
  {
    hide Shown, Lookup;
    forall q: Param
      ensures Lookup(r, q) == if Place(q) < Place(p) + 1 then Shown(c, req, q) else []
    {
      if q != p {
        assert Place(q) != Place(p);
      }
    }
  }

  method AddInt(c: Codec, ghost req: SimplePingRequest, vals: Values, p: Param, o: Option<Int>) returns (r: Values)
    requires PrintsUpTo(c, req, vals, Place(p)) && Shown(c, req, p) == IntShown(o)
    ensures PrintsUpTo(c, req, r, Place(p) + 1)
  {
    hide Shown, Place;
    r := vals;
    if o.Some? {
      r := Add(r, p, Itoa(o.value));
    }
    PrintsOneMore(c, req, vals, r, p);
  }

  method AddBool(c: Codec, ghost req: SimplePingRequest, vals: Values, p: Param, o: Option<bool>) returns (r: Values)
    requires PrintsUpTo(c, req, vals, Place(p)) && Shown(c, req, p) == BoolShown(o)
    ensures PrintsUpTo(c, req, r, Place(p) + 1)
  {
    hide Shown, Place;
    r := vals;
    if o.Some? {
      r := Add(r, p, FormatBool(o.value));
    }
    PrintsOneMore(c, req, vals, r, p);
  }

  method AddPresent(c: Codec, ghost req: SimplePingRequest, vals: Values, p: Param, o: Option<string>) returns (r: Values)
    requires PrintsUpTo(c, req, vals, Place(p)) && Shown(c, req, p) == PresentShown(o)
    ensures PrintsUpTo(c, req, r, Place(p) + 1)
  {
    hide Shown, Place;
    r := vals;
    if o.Some? {
      r := Add(r, p, o.value);
    }
    PrintsOneMore(c, req, vals, r, p);
  }

  method AddNonEmpty(c: Codec, ghost req: SimplePingRequest, vals: Values, p: Param, o: Option<string>) returns (r: Values)
    requires PrintsUpTo(c, req, vals, Place(p)) && Shown(c, req, p) == NonEmptyShown(o)
    ensures PrintsUpTo(c, req, r, Place(p) + 1)
  {
    hide Shown, Place;
    r := vals;
    if o.Some? && o.value != "" {
      r := Add(r, p, o.value);
    }
    PrintsOneMore(c, req, vals, r, p);
  }

  method AddDNSTargets(c: Codec, req: SimplePingRequest, vals: Values) returns (r: Values)
    requires PrintsUpTo(c, req, vals, Place(ParamDNSTarget))
    ensures PrintsUpTo(c, req, r, Place(ParamDNSTarget) + 1)
  {
    hide PrintsUpTo, Place;
    var ts := req.DNSTargets;
    r := vals;
    var k := 0;
    while k < |ts|
      invariant 0 <= k <= |ts|
      invariant Lookup(r, ParamDNSTarget) == Lookup(vals, ParamDNSTarget) + DNSShown(c, ts[..k])
      invariant forall q: Param :: q != ParamDNSTarget ==> Lookup(r, q) == Lookup(vals, q)
    {
      assert ts[..k + 1][..k] == ts[..k];
      r := Add(r, ParamDNSTarget, c.encodeDNS(ts[k]));
      k := k + 1;
    }
    assert ts[..k] == ts;
    PrintsOneMore(c, req, vals, r, ParamDNSTarget);
  }

  method AddHTTPTargets(c: Codec, req: SimplePingRequest, vals: Values) returns (r: Values)
    requires PrintsUpTo(c, req, vals, Place(ParamHTTPTarget))
    ensures PrintsUpTo(c, req, r, Place(ParamHTTPTarget) + 1)
  {
    hide PrintsUpTo, Place;
    var ts := req.HTTPTargets;
    r := vals;
    var k := 0;
    while k < |ts|
      invariant 0 <= k <= |ts|
      invariant Lookup(r, ParamHTTPTarget) == Lookup(vals, ParamHTTPTarget) + HTTPShown(c, ts[..k])
      invariant forall q: Param :: q != ParamHTTPTarget ==> Lookup(r, q) == Lookup(vals, q)
    {
      assert ts[..k + 1][..k] == ts[..k];
      r := Add(r, ParamHTTPTarget, c.encodeHTTP(ts[k]));
      k := k + 1;
    }
    assert ts[..k] == ts;
    PrintsOneMore(c, req, vals, r, ParamHTTPTarget);
  }

  lemma NothingPrinted(c: Codec, req: SimplePingRequest)
    ensures PrintsUpTo(c, req, map[], 0)
  {
    hide Shown;
  }

  lemma AllPrinted(c: Codec, req: SimplePingRequest, vals: Values)
    requires PrintsUpTo(c, req, vals, 19)
    ensures Prints(c, req, vals)
  {
    hide Shown, Lookup;
  }

  method AddNames(c: Codec, req: SimplePingRequest) returns (vals: Values)
    ensures PrintsUpTo(c, req, vals, 3)
  {
    hide PrintsUpTo, Lookup, PresentShown, NonEmptyShown;
    NothingPrinted(c, req);
    vals := map[];
    vals := AddPresent(c, req, vals, ParamTargets, Joined(if req.Targets == [] then None else Some(req.Targets)));
    vals := AddNonEmpty(c, req, vals, ParamDestination, Destination(req.Targets));
    vals := AddPresent(c, req, vals, ParamFrom, Joined(req.From));
  }

  method AddTimings(c: Codec, req: SimplePingRequest, before: Values) returns (vals: Values)
    requires PrintsUpTo(c, req, before, 3)
    ensures PrintsUpTo(c, req, vals, 8)
  {
    hide PrintsUpTo, Lookup, IntShown, BoolShown;
    vals := AddInt(c, req, before, ParamIntvMs, Some(req.IntvMilliseconds));
    vals := AddInt(c, req, vals, ParamPktTimeoutMs, Some(req.PktTimeoutMilliseconds));
    vals := AddBool(c, req, vals, ParamPreferV4, req.PreferV4);
    vals := AddBool(c, req, vals, ParamPreferV6, req.PreferV6);
    vals := AddInt(c, req, vals, ParamCount, req.TotalPkts);
  }

  method AddOptions(c: Codec, req: SimplePingRequest, before: Values) returns (vals: Values)
    requires PrintsUpTo(c, req, before, 8)
    ensures PrintsUpTo(c, req, vals, 13)
  {
    hide PrintsUpTo, Lookup, IntShown, PresentShown, NonEmptyShown;
    vals := AddPresent(c, req, before, ParamResolver, req.Resolver);
    vals := AddPresent(c, req, vals, ParamTTL, TTLText(req.TTL));
    vals := AddInt(c, req, vals, ParamResolveTimeoutMilliseconds, req.ResolveTimeoutMilliseconds);
    vals := AddInt(c, req, vals, ParamRandomPayloadSize, req.RandomPayloadSize);
    vals := AddNonEmpty(c, req, vals, ParamsIPInfoProviderName, req.IPInfoProviderName);
  }

  method AddPacketTypes(c: Codec, req: SimplePingRequest, before: Values) returns (vals: Values)
    requires PrintsUpTo(c, req, before, 13)
    ensures PrintsUpTo(c, req, vals, 17)
  {
    hide PrintsUpTo, Lookup, IntShown, NonEmptyShown;
    vals := AddNonEmpty(c, req, before, ParamL3PacketType, req.L4PacketType);
    vals := AddNonEmpty(c, req, vals, ParamL4PacketType, req.L4PacketType);
    vals := AddInt(c, req, vals, ParamUDPDstPort, req.UDPDstPort);
    vals := AddNonEmpty(c, req, vals, ParamL7PacketType, req.L7PacketType);
  }

  method ToURLValues(c: Codec, req: SimplePingRequest) returns (vals: Values)
    ensures Prints(c, req, vals)
  {
    hide PrintsUpTo, Prints, Shown;
    vals := AddNames(c, req);
    vals := AddTimings(c, req, vals);
    vals := AddOptions(c, req, vals);
    vals := AddPacketTypes(c, req, vals);
    vals := AddDNSTargets(c, req, vals);
    vals := AddHTTPTargets(c, req, vals);
    AllPrinted(c, req, vals);
  }

  // ----- parsing -----

  /** A parameter that does not parse, or a TTL range whose counting never ends. */
  datatype ParseError = BadParam(p: Param) | RunsAway

  /** The trimmed names between the commas, blank ones left out. */
  function NamesOf(segs: seq<string>): seq<string> {
    if segs == [] then []
    else
      var name := TrimSpace(segs[|segs| - 1]);
      NamesOf(segs[..|segs| - 1]) + (if name == "" then [] else [name])
  }

  function Names(s: string): seq<string> {
    if s == "" then [] else NamesOf(Split(s, ','))
  }

  /** An appended slice stays nil until something is appended. */
  function NilIfEmpty(names: seq<string>): Option<seq<string>> {
    if names == [] then None else Some(names)
  }

  function NonEmpty(s: string): Option<string> {
    if s == "" then None else Some(s)
  }

  function IntParam(p: Param, s: string): Result<Option<Int>, ParseError> {
    if s == "" then Success(None) else if Atoi(s).None? then Failure(BadParam(p)) else Success(Atoi(s))
  }

  function BoolParam(p: Param, s: string): Result<Option<bool>, ParseError> {
    if s == "" then Success(None) else if ParseBool(s).None? then Failure(BadParam(p)) else Success(ParseBool(s))
  }

  function HTTPOf(c: Codec, tgts: seq<string>): Option<seq<HTTPTarget>> {
    if tgts == [] then Some([])
    else
      var front, t := HTTPOf(c, tgts[..|tgts| - 1]), c.decodeHTTP(tgts[|tgts| - 1]);
      if front.None? || t.None? || !AcceptableProto(t.value) then None else Some(front.value + [t.value])
  }

  function DNSOf(c: Codec, tgts: seq<string>): Option<seq<DNSTarget>> {
    if tgts == [] then Some([])
    else
      var front, t := DNSOf(c, tgts[..|tgts| - 1]), c.decodeDNS(tgts[|tgts| - 1]);
      if front.None? || t.None? then None else Some(front.value + [t.value])
  }

  /** What a TTL text stands for. */
  ghost predicate TTLDenotes(s: string, r: Result<TTLGenerator, ParseError>) {
    if s == "" then r == Success(Range([DEFAULT_TTL], 0))
    else if "auto(" <= s || s == "auto" then
      r == if ParseToAutoTTL(s).None? then Failure(BadParam(ParamTTL)) else Success(ParseToAutoTTL(s).value)
    else exists ints :: IntList.Denotes(s, ints) && r == RangeOf(ints)
  }

  function RangeOf(ints: IntList.Outcome): Result<TTLGenerator, ParseError> {
    match ints
    case Ints(values) => Success(Range(values, 0))
    case Bad => Failure(BadParam(ParamTTL))
    case RunsAway => Failure(RunsAway)
  }

  /** The fields that are read before the TTL; the first parameter that does not parse is reported. */
  function BeforeTTL(c: Codec, q: Values): Result<SimplePingRequest, ParseError> {
    var http := HTTPOf(c, Lookup(q, ParamHTTPTarget));
    if http.None? then Failure(BadParam(ParamHTTPTarget))
    else
      var dns := DNSOf(c, Lookup(q, ParamDNSTarget));
      if dns.None? then Failure(BadParam(ParamDNSTarget))
      else
        var port :- IntParam(ParamUDPDstPort, Get(q, ParamUDPDstPort));
        var size :- IntParam(ParamRandomPayloadSize, Get(q, ParamRandomPayloadSize));
        var count :- IntParam(ParamCount, Get(q, ParamCount));
        var interval :- IntParam(ParamIntvMs, Get(q, ParamIntvMs));
        var timeout :- IntParam(ParamPktTimeoutMs, Get(q, ParamPktTimeoutMs));
        var l4 := if Get(q, ParamL4PacketType) != "" then Get(q, ParamL4PacketType) else Get(q, ParamL3PacketType);
        Success(SimplePingRequest(
          NilIfEmpty(Names(Get(q, ParamFrom))), Names(Get(q, ParamTargets)),
          if interval.Some? then interval.value else 1000, if timeout.Some? then timeout.value else 3000,
          None, None, count, None, None, size, None, NonEmpty(Get(q, ParamsIPInfoProviderName)), NonEmpty(l4),
          NonEmpty(Get(q, ParamL7PacketType)), dns.value, http.value, port))
  }

  /** The fields that are read after the TTL. */
  function AfterTTL(req: SimplePingRequest, q: Values): Result<SimplePingRequest, ParseError> {
    var v4 :- BoolParam(ParamPreferV4, Get(q, ParamPreferV4));
    var v6 :- BoolParam(ParamPreferV6, Get(q, ParamPreferV6));
    Success(req.(PreferV4 := v4, PreferV6 := v6, Resolver := NonEmpty(Get(q, ParamResolver))))
  }

  ghost predicate Parses(c: Codec, q: Values, r: Result<SimplePingRequest, ParseError>) {
    match BeforeTTL(c, q)
    case Failure(e) => r == Failure(e)
    case Success(req) =>
      exists ttl :: TTLDenotes(Get(q, ParamTTL), ttl)
                    && r == match ttl
                            case Failure(e) => Failure(e)
                            case Success(t) => AfterTTL(req.(TTL := Some(t)), q)
  }

  method ParseNames(s: string) returns (names: seq<string>)
    ensures names == Names(s)
  {
    hide TrimSpace, Split;
    names := [];
    if s != "" {
      var segs := Split(s, ',');
      var k := 0;
      while k < |segs|
        invariant 0 <= k <= |segs| && names == NamesOf(segs[..k])
      {
        assert segs[..k + 1][..k] == segs[..k];
        var name := TrimSpace(segs[k]);
        if name != "" {
          names := names + [name];
        }
        k := k + 1;
      }
      assert segs[..k] == segs;
    }
  }

  lemma {:induction false} HTTPOfFails(c: Codec, tgts: seq<string>, k: nat)
    requires k <= |tgts| && HTTPOf(c, tgts[..k]).None?
    ensures HTTPOf(c, tgts).None?
  {
    if k == |tgts| {
      assert tgts[..k] == tgts;
    } else {
      assert tgts[..|tgts| - 1][..k] == tgts[..k];
      HTTPOfFails(c, tgts[..|tgts| - 1], k);
    }
  }

  lemma {:induction false} DNSOfFails(c: Codec, tgts: seq<string>, k: nat)
    requires k <= |tgts| && DNSOf(c, tgts[..k]).None?
    ensures DNSOf(c, tgts).None?
  {
    if k == |tgts| {
      assert tgts[..k] == tgts;
    } else {
      assert tgts[..|tgts| - 1][..k] == tgts[..k];
      DNSOfFails(c, tgts[..|tgts| - 1], k);
    }
  }

  method ParseHTTPTargets(c: Codec, tgts: seq<string>) returns (r: Option<seq<HTTPTarget>>)
    ensures r == HTTPOf(c, tgts)
  {
    hide AcceptableProto;
    var targets: seq<HTTPTarget> := [];
    var k := 0;
    while k < |tgts|
      invariant 0 <= k <= |tgts| && HTTPOf(c, tgts[..k]) == Some(targets)
    {
      assert tgts[..k + 1][..k] == tgts[..k];
      var t := c.decodeHTTP(tgts[k]);
      if t.None? || !AcceptableProto(t.value) {
        HTTPOfFails(c, tgts, k + 1);
        return None;
      }
      targets := targets + [t.value];
      k := k + 1;
    }
    assert tgts[..k] == tgts;
    r := Some(targets);
  }

  method ParseDNSTargets(c: Codec, tgts: seq<string>) returns (r: Option<seq<DNSTarget>>)
    ensures r == DNSOf(c, tgts)
  {
    var targets: seq<DNSTarget> := [];
    var k := 0;
    while k < |tgts|
      invariant 0 <= k <= |tgts| && DNSOf(c, tgts[..k]) == Some(targets)
    {
      assert tgts[..k + 1][..k] == tgts[..k];
      var t := c.decodeDNS(tgts[k]);
      if t.None? {
        DNSOfFails(c, tgts, k + 1);
        return None;
      }
      targets := targets + [t.value];
      k := k + 1;
    }
    assert tgts[..k] == tgts;
    r := Some(targets);
  }

  method ParseTTL(s: string) returns (r: Result<TTLGenerator, ParseError>)
    ensures TTLDenotes(s, r)
  {
    hide ParseToAutoTTL, IntList.Denotes;
    if s == "" {
      return Success(Range([DEFAULT_TTL], 0));
    }
    if "auto(" <= s || s == "auto" {
      var auto := ParseToAutoTTL(s);
      if auto.None? {
        return Failure(BadParam(ParamTTL));
      }
      return Success(auto.value);
    }
    var ints := IntList.ParseInts(s);
    r := RangeOf(ints);
  }

  method ParseSimplePingRequest(c: Codec, q: Values) returns (r: Result<SimplePingRequest, ParseError>)
    ensures Parses(c, q, r)
  {
    hide HTTPOf, DNSOf, Names, Atoi, ParseBool, TTLDenotes, Lookup;
    var http := ParseHTTPTargets(c, Lookup(q, ParamHTTPTarget));
    if http.None? {
      return Failure(BadParam(ParamHTTPTarget));
    }
    var dns := ParseDNSTargets(c, Lookup(q, ParamDNSTarget));
    if dns.None? {
      return Failure(BadParam(ParamDNSTarget));
    }
    var l7 := NonEmpty(Get(q, ParamL7PacketType));
    var l4 := NonEmpty(Get(q, ParamL3PacketType));
    if Get(q, ParamL4PacketType) != "" {
      l4 := Some(Get(q, ParamL4PacketType));
    }
    var port :- IntParam(ParamUDPDstPort, Get(q, ParamUDPDstPort));
    var provider := NonEmpty(Get(q, ParamsIPInfoProviderName));
    var size :- IntParam(ParamRandomPayloadSize, Get(q, ParamRandomPayloadSize));
    var targets := ParseNames(Get(q, ParamTargets));
    var from := ParseNames(Get(q, ParamFrom));
    var count :- IntParam(ParamCount, Get(q, ParamCount));
    var interval :- IntParam(ParamIntvMs, Get(q, ParamIntvMs));
    var timeout :- IntParam(ParamPktTimeoutMs, Get(q, ParamPktTimeoutMs));
    var result := SimplePingRequest(
      NilIfEmpty(from), targets, if interval.Some? then interval.value else 1000,
      if timeout.Some? then timeout.value else 3000, None, None, count, None, None, size, None, provider, l4, l7,
      dns.value, http.value, port);
    var ttl := ParseTTL(Get(q, ParamTTL));
    if ttl.Failure? {
      return Failure(ttl.error);
    }
    result := result.(TTL := Some(ttl.value));
    var v4 :- BoolParam(ParamPreferV4, Get(q, ParamPreferV4));
    var v6 :- BoolParam(ParamPreferV6, Get(q, ParamPreferV6));
    result := result.(PreferV4 := v4, PreferV6 := v6);
    r := Success(result.(Resolver := NonEmpty(Get(q, ParamResolver))));
  }
}
