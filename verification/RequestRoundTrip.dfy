/** What becomes of a ping request that is printed as query values and parsed again (pkg/pinger/request.go): the exact
    result for every request, and exactly which requests come back. */
module RequestRoundTrip {
  import opened Wrappers
  import opened Text
  import opened Request
  import IntList

  // ----- single parameters -----

  function First(values: seq<string>): string {
    if values == [] then "" else values[0]
  }

  /** An empty string reads as an absent one. */
  function NoEmpty(o: Option<string>): Option<string> {
    if o == Some("") then None else o
  }

  lemma IntBack(p: Param, o: Option<Int>)
    ensures IntParam(p, First(IntShown(o))) == Success(o)
  {
    if o.Some? {
      AtoiUndoesItoa(o.value);
    }
  }

  lemma BoolBack(p: Param, o: Option<bool>)
    ensures BoolParam(p, First(BoolShown(o))) == Success(o)
  {
  }

  lemma StringBack(o: Option<string>)
    ensures NonEmpty(First(PresentShown(o))) == NonEmpty(First(NonEmptyShown(o))) == NoEmpty(o)
  {
  }

  ghost predicate AllAcceptable(ts: seq<HTTPTarget>) {
    forall i :: 0 <= i < |ts| ==> AcceptableProto(ts[i])
  }

  lemma {:induction false} HTTPBack(c: Codec, ts: seq<HTTPTarget>)
    requires c.Inverse()
    ensures HTTPOf(c, HTTPShown(c, ts)) == if AllAcceptable(ts) then Some(ts) else None
  {
    if ts != [] {
      var front, last := ts[..|ts| - 1], ts[|ts| - 1];
      var shown := HTTPShown(c, ts);
      HTTPBack(c, front);
      assert ts == front + [last];
      assert shown[..|shown| - 1] == HTTPShown(c, front);
      assert AllAcceptable(ts) <==> AllAcceptable(front) && AcceptableProto(last);
    }
  }

  lemma {:induction false} DNSBack(c: Codec, ts: seq<DNSTarget>)
    requires c.Inverse()
    ensures DNSOf(c, DNSShown(c, ts)) == Some(ts)
  {
    if ts != [] {
      var front, last := ts[..|ts| - 1], ts[|ts| - 1];
      var shown := DNSShown(c, ts);
      DNSBack(c, front);
      assert ts == front + [last];
      assert shown[..|shown| - 1] == DNSShown(c, front);
    }
  }

  // ----- names -----

  predicate CanonicalName(name: string) {
    name != "" && Trimmed(name) && ',' !in name
  }

  predicate CanonicalNames(names: seq<string>) {
    forall i :: 0 <= i < |names| ==> CanonicalName(names[i])
  }

  lemma {:induction false} NamesOfCanonical(names: seq<string>)
    requires CanonicalNames(names)
    ensures NamesOf(names) == names
  {
    hide TrimSpace, Trimmed;
    if names != [] {
      var m := |names| - 1;
      NamesOfCanonical(names[..m]);
      TrimSpaceTrims(names[m]);
      assert names == names[..m] + [names[m]];
    }
  }

  lemma {:induction false} NamesAreCanonical(segs: seq<string>)
    requires forall i :: 0 <= i < |segs| ==> ',' !in segs[i]
    ensures CanonicalNames(NamesOf(segs))
  {
    hide TrimSpace, Trimmed;
    if segs != [] {
      NamesAreCanonical(segs[..|segs| - 1]);
      TrimSpaceTrims(segs[|segs| - 1]);
    }
  }

  /** Joining names with commas and parsing them gives the names back exactly when each is trimmed, not empty and free
      of commas. */
  lemma NamesBack(names: seq<string>)
    ensures Names(Join(names, ',')) == names <==> CanonicalNames(names)
  {
    hide TrimSpace, Trimmed, Split;
    var s := Join(names, ',');
    SplitHasNoSeparator(s, ',');
    NamesAreCanonical(Split(s, ','));
    if CanonicalNames(names) && names != [] {
      assert CanonicalName(names[0]);
      assert |s| >= |names[0]|;
      assert forall i :: 0 <= i < |names| ==> ',' !in names[i] by {
        assert forall i :: 0 <= i < |names| ==> CanonicalName(names[i]);
      }
      SplitUndoesJoin(names, ',');
      NamesOfCanonical(names);
    }
  }

  // ----- the TTL -----

  /** What a printed TTL reads as: an absent or empty list as the default, a generator from its start, and a negative
      start not at all. */
  function NormalTTL(ttl: Option<TTLGenerator>): Result<TTLGenerator, ParseError> {
    if ttl.None? then Success(Range([DEFAULT_TTL], 0))
    else match ttl.value
      case Auto(start, _) => if start >= 0 then Success(Auto(start, start)) else Failure(BadParam(ParamTTL))
      case Range(ttls, _) => Success(Range(if ttls == [] then [DEFAULT_TTL] else ttls, 0))
  }

  lemma AutoBack(start: Int)
    ensures var s := TTLString(Auto(start, start));
            && "auto(" <= s
            && ParseToAutoTTL(s) == if start >= 0 then Some(Auto(start, start)) else None
  {
    hide IntList.DigitsThen, Atoi, DigitsOf;
    var s := TTLString(Auto(start, start));
    var inner := Itoa(start) + ")" + "";
    assert s == "auto(" + inner && s[5..] == inner && |s| > 4;
    AtoiUndoesItoa(start);
    if start >= 0 {
      IntList.DigitsThenAt(Itoa(start), ')', "");
    } else {
      NoDigits(inner, ')');
    }
  }

  lemma NoDigits(s: string, c: char)
    requires s != "" && !IsDigit(s[0])
    ensures IntList.DigitsThen(s, c) == None
  {
  }

  lemma RangeBack(ttls: seq<Int>, r: Result<TTLGenerator, ParseError>)
    requires ttls != [] && TTLDenotes(TTLString(Range(ttls, 0)), r)
    ensures r == Success(Range(ttls, 0))
  {
    hide IntList.Denotes, IntList.Printed, Join, ParseToAutoTTL;
    var s := TTLString(Range(ttls, 0));
    IntList.PrintedStart(ttls);
    assert "auto("[0] == 'a' && "auto"[0] == 'a' && s[0] != 'a';
    var ints :| IntList.Denotes(s, ints) && r == RangeOf(ints);
    IntList.ParseUndoesPrint(ttls, ints);
  }

  lemma EmptyTTL(idx: nat)
    ensures TTLString(Range([], idx)) == ""
  {
  }

  lemma TTLBack(ttl: Option<TTLGenerator>, r: Result<TTLGenerator, ParseError>)
    requires TTLDenotes(First(PresentShown(TTLText(ttl))), r)
    ensures r == NormalTTL(ttl)
  {
    hide TTLString, ParseToAutoTTL, IntList.Denotes;
    if ttl.Some? {
      match ttl.value
      case Auto(start, next) =>
        SameText(start, next);
        AutoBack(start);
      case Range(ttls, idx) =>
        if ttls == [] {
          EmptyTTL(idx);
        } else {
          SameList(ttls, idx);
          RangeBack(ttls, r);
        }
    }
  }

  lemma SameText(start: Int, next: Int)
    ensures TTLString(Auto(start, next)) == TTLString(Auto(start, start))
  {
  }

  lemma SameList(ttls: seq<Int>, idx: nat)
    ensures TTLString(Range(ttls, idx)) == TTLString(Range(ttls, 0))
  {
  }

  // ----- the whole request -----

  /** What a printed request reads as: names cleaned, empty strings absent, no resolve timeout. */
  function Normal(req: SimplePingRequest, ttl: TTLGenerator): SimplePingRequest {
    req.(
      Targets := Names(Join(req.Targets, ',')),
      From := if req.From.None? then None else NilIfEmpty(Names(Join(req.From.value, ','))),
      TTL := Some(ttl),
      Resolver := NoEmpty(req.Resolver),
      ResolveTimeoutMilliseconds := None,
      IPInfoProviderName := NoEmpty(req.IPInfoProviderName),
      L4PacketType := NoEmpty(req.L4PacketType),
      L7PacketType := NoEmpty(req.L7PacketType))
  }

  lemma GetShown(c: Codec, req: SimplePingRequest, vals: Values, p: Param)
    requires Prints(c, req, vals)
    ensures Lookup(vals, p) == Shown(c, req, p) && Get(vals, p) == First(Shown(c, req, p))
  {
    hide Shown;
  }

  lemma NumbersBack(c: Codec, req: SimplePingRequest, vals: Values)
    requires Prints(c, req, vals)
    ensures IntParam(ParamUDPDstPort, Get(vals, ParamUDPDstPort)) == Success(req.UDPDstPort)
    ensures IntParam(ParamRandomPayloadSize, Get(vals, ParamRandomPayloadSize)) == Success(req.RandomPayloadSize)
    ensures IntParam(ParamCount, Get(vals, ParamCount)) == Success(req.TotalPkts)
    ensures IntParam(ParamIntvMs, Get(vals, ParamIntvMs)) == Success(Some(req.IntvMilliseconds))
    ensures IntParam(ParamPktTimeoutMs, Get(vals, ParamPktTimeoutMs)) == Success(Some(req.PktTimeoutMilliseconds))
    ensures BoolParam(ParamPreferV4, Get(vals, ParamPreferV4)) == Success(req.PreferV4)
    ensures BoolParam(ParamPreferV6, Get(vals, ParamPreferV6)) == Success(req.PreferV6)
  {
    hide IntParam, BoolParam, IntShown, BoolShown, Get, Lookup, Prints;
    GetShown(c, req, vals, ParamUDPDstPort);
    IntBack(ParamUDPDstPort, req.UDPDstPort);
    GetShown(c, req, vals, ParamRandomPayloadSize);
    IntBack(ParamRandomPayloadSize, req.RandomPayloadSize);
    GetShown(c, req, vals, ParamCount);
    IntBack(ParamCount, req.TotalPkts);
    GetShown(c, req, vals, ParamIntvMs);
    IntBack(ParamIntvMs, Some(req.IntvMilliseconds));
    GetShown(c, req, vals, ParamPktTimeoutMs);
    IntBack(ParamPktTimeoutMs, Some(req.PktTimeoutMilliseconds));
    GetShown(c, req, vals, ParamPreferV4);
    BoolBack(ParamPreferV4, req.PreferV4);
    GetShown(c, req, vals, ParamPreferV6);
    BoolBack(ParamPreferV6, req.PreferV6);
  }

  lemma StringsBack(c: Codec, req: SimplePingRequest, vals: Values)
    requires Prints(c, req, vals)
    ensures NonEmpty(Get(vals, ParamResolver)) == NoEmpty(req.Resolver)
    ensures NonEmpty(Get(vals, ParamsIPInfoProviderName)) == NoEmpty(req.IPInfoProviderName)
    ensures NonEmpty(Get(vals, ParamL3PacketType)) == NonEmpty(Get(vals, ParamL4PacketType)) == NoEmpty(req.L4PacketType)
    ensures NonEmpty(Get(vals, ParamL7PacketType)) == NoEmpty(req.L7PacketType)
  {
    hide NonEmpty, NoEmpty, NonEmptyShown, PresentShown, First, Get, Lookup, Prints;
    GetShown(c, req, vals, ParamResolver);
    StringBack(req.Resolver);
    GetShown(c, req, vals, ParamsIPInfoProviderName);
    StringBack(req.IPInfoProviderName);
    GetShown(c, req, vals, ParamL3PacketType);
    GetShown(c, req, vals, ParamL4PacketType);
    StringBack(req.L4PacketType);
    GetShown(c, req, vals, ParamL7PacketType);
    StringBack(req.L7PacketType);
  }

  lemma ListsBack(c: Codec, req: SimplePingRequest, vals: Values)
    requires Prints(c, req, vals)
    ensures NilIfEmpty(Names(Get(vals, ParamFrom))) == if req.From.None? then None else NilIfEmpty(Names(Join(req.From.value, ',')))
    ensures Names(Get(vals, ParamTargets)) == Names(Join(req.Targets, ','))
  {
    assert Names("") == [];
    assert Join([], ',') == "";
    hide Get, Lookup, Prints, Names, Join;
    GetShown(c, req, vals, ParamFrom);
    GetShown(c, req, vals, ParamTargets);
  }

  lemma BeforeBack(c: Codec, req: SimplePingRequest, vals: Values, ttl: TTLGenerator)
    requires c.Inverse() && Prints(c, req, vals)
    ensures BeforeTTL(c, vals)
            == if AllAcceptable(req.HTTPTargets)
               then Success(Normal(req, ttl).(TTL := None, PreferV4 := None, PreferV6 := None, Resolver := None))
               else Failure(BadParam(ParamHTTPTarget))
  {
    hide IntParam, BoolParam, Names, Prints, Lookup, Get, HTTPOf, DNSOf, AllAcceptable, NoEmpty, Join, NilIfEmpty,
         Codec.Inverse;
    NumbersBack(c, req, vals);
    StringsBack(c, req, vals);
    ListsBack(c, req, vals);
    TargetsBack(c, req, vals);
  }

  lemma TargetsBack(c: Codec, req: SimplePingRequest, vals: Values)
    requires c.Inverse() && Prints(c, req, vals)
    ensures HTTPOf(c, Lookup(vals, ParamHTTPTarget)) == if AllAcceptable(req.HTTPTargets) then Some(req.HTTPTargets) else None
    ensures DNSOf(c, Lookup(vals, ParamDNSTarget)) == Some(req.DNSTargets)
  {
    hide Prints, Lookup, HTTPOf, DNSOf, HTTPShown, DNSShown, AllAcceptable;
    GetShown(c, req, vals, ParamHTTPTarget);
    GetShown(c, req, vals, ParamDNSTarget);
    HTTPBack(c, req.HTTPTargets);
    DNSBack(c, req.DNSTargets);
  }

  /** The exact outcome for every request: parsing fails if and only if an HTTP target names an unknown protocol or the
      automatic TTL starts below zero, and otherwise gives the normal form. */
  lemma PrintedParses(c: Codec, req: SimplePingRequest, vals: Values, r: Result<SimplePingRequest, ParseError>)
    requires c.Inverse() && Prints(c, req, vals) && Parses(c, vals, r)
    ensures r == if !AllAcceptable(req.HTTPTargets) then Failure(BadParam(ParamHTTPTarget))
                 else if NormalTTL(req.TTL).Failure? then Failure(BadParam(ParamTTL))
                 else Success(Normal(req, NormalTTL(req.TTL).value))
  {
    hide AllAcceptable, BeforeTTL, AfterTTL, Prints, Normal, Shown, Get, TTLDenotes, TTLText, Codec.Inverse;
    var normal := NormalTTL(req.TTL);
    BeforeBack(c, req, vals, if normal.Success? then normal.value else Auto(0, 0));
    if AllAcceptable(req.HTTPTargets) {
      var before := BeforeTTL(c, vals).value;
      TTLShown(c, req, vals);
      var ttl :| TTLDenotes(Get(vals, ParamTTL), ttl)
                 && r == match ttl
                         case Failure(e) => Failure(e)
                         case Success(t) => AfterTTL(before.(TTL := Some(t)), vals);
      TTLBack(req.TTL, ttl);
      if ttl.Success? {
        AfterBack(c, req, vals, ttl.value);
      }
    }
  }

  lemma TTLShown(c: Codec, req: SimplePingRequest, vals: Values)
    requires Prints(c, req, vals)
    ensures Get(vals, ParamTTL) == First(PresentShown(TTLText(req.TTL)))
  {
    GetShown(c, req, vals, ParamTTL);
  }

  lemma AfterBack(c: Codec, req: SimplePingRequest, vals: Values, ttl: TTLGenerator)
    requires Prints(c, req, vals)
    ensures var before := Normal(req, ttl).(TTL := None, PreferV4 := None, PreferV6 := None, Resolver := None);
            AfterTTL(before.(TTL := Some(ttl)), vals) == Success(Normal(req, ttl))
  {
    hide IntParam, BoolParam, Names, Prints, Lookup, Get, NonEmpty, NoEmpty, Join;
    NumbersBack(c, req, vals);
    StringsBack(c, req, vals);
  }

  /** What the query values cannot carry: the resolve timeout, and how far a generator has come. */
  function Carried(req: SimplePingRequest): SimplePingRequest {
    req.(
      ResolveTimeoutMilliseconds := None,
      TTL := if req.TTL.None? then None
             else match req.TTL.value
               case Auto(start, _) => Some(Auto(start, start))
               case Range(ttls, _) => Some(Range(ttls, 0)))
  }

  predicate CanonicalTTL(ttl: Option<TTLGenerator>) {
    ttl.Some? && match ttl.value case Auto(start, _) => start >= 0 case Range(ttls, _) => ttls != []
  }

  ghost predicate Canonical(req: SimplePingRequest) {
    && CanonicalNames(req.Targets)
    && (req.From.Some? ==> req.From.value != [] && CanonicalNames(req.From.value))
    && CanonicalTTL(req.TTL)
    && AllAcceptable(req.HTTPTargets)
    && req.Resolver != Some("") && req.IPInfoProviderName != Some("")
    && req.L4PacketType != Some("") && req.L7PacketType != Some("")
  }

  /** The round trip: a request comes back, but for the resolve timeout and the TTL cursor, if and only if its names
      are trimmed, free of commas and not empty, its TTL is set and not an empty list or a negative start, its HTTP
      protocols are known, and no optional string is empty. */
  lemma RoundTrip(c: Codec, req: SimplePingRequest, vals: Values, r: Result<SimplePingRequest, ParseError>)
    requires c.Inverse() && Prints(c, req, vals) && Parses(c, vals, r)
    ensures r == Success(Carried(req)) <==> Canonical(req)
  {
    hide AllAcceptable, CanonicalNames, Parses, Prints, Names, Join;
    PrintedParses(c, req, vals, r);
    NamesBack(req.Targets);
    if req.From.Some? {
      NamesBack(req.From.value);
    }
  }

  /** One outcome for every query. */
  lemma ParsesOne(c: Codec, q: Values, r: Result<SimplePingRequest, ParseError>, r': Result<SimplePingRequest, ParseError>)
    requires Parses(c, q, r) && Parses(c, q, r')
    ensures r == r'
  {
    hide BeforeTTL, AfterTTL, IntList.Denotes, ParseToAutoTTL, Get;
    if BeforeTTL(c, q).Success? {
      var s := Get(q, ParamTTL);
      var req := BeforeTTL(c, q).value;
      var ttl :| TTLDenotes(s, ttl)
                 && r == match ttl
                         case Failure(e) => Failure(e)
                         case Success(t) => AfterTTL(req.(TTL := Some(t)), q);
      var ttl' :| TTLDenotes(s, ttl')
                  && r' == match ttl'
                           case Failure(e) => Failure(e)
                           case Success(t) => AfterTTL(req.(TTL := Some(t)), q);
      TTLDenotesOne(s, ttl, ttl');
    }
  }

  lemma TTLDenotesOne(s: string, r: Result<TTLGenerator, ParseError>, r': Result<TTLGenerator, ParseError>)
    requires TTLDenotes(s, r) && TTLDenotes(s, r')
    ensures r == r'
  {
    hide IntList.Denotes, ParseToAutoTTL;
    if s != "" && !("auto(" <= s || s == "auto") {
      var ints :| IntList.Denotes(s, ints) && r == RangeOf(ints);
      var ints' :| IntList.Denotes(s, ints') && r' == RangeOf(ints');
      IntList.DenotesOne(s, ints, ints');
    }
  }
}
