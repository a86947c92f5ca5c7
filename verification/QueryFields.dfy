/** What the parameters of a ping query mean one by one (pkg/pinger/request.go): which texts are read, what a missing
    parameter stands for, and which parameter is reported when one cannot be read. */
module QueryFields {
  import opened Wrappers
  import opened Text
  import opened Request
  import opened RequestRoundTrip
  import IntList

  // ----- names -----

  lemma {:induction false} NamesOfFront(seg: string, segs: seq<string>)
    ensures NamesOf([seg] + segs) == NamesOf([seg]) + NamesOf(segs)
  {
    hide TrimSpace;
    if segs == [] {
      assert [seg] + segs == [seg];
    } else {
      var m := |segs| - 1;
      NamesOfFront(seg, segs[..m]);
      assert ([seg] + segs)[..m + 1] == [seg] + segs[..m];
    }
  }

  /** A list of names is read from its first comma on: each name is trimmed, and a blank one is left out. */
  lemma NamesText(first: string, rest: string)
    requires ',' !in first
    ensures Names(first) == if TrimSpace(first) == "" then [] else [TrimSpace(first)]
    ensures Names(first + [','] + rest) == Names(first) + Names(rest)
  {
    SplitPlain(first, ',');
    SplitAtFirst(first, ',', rest);
    NamesOfOne(first);
    BlankName();
    hide Split, TrimSpace;
    NamesOfFront(first, Split(rest, ','));
  }

  lemma NamesOfOne(seg: string)
    ensures NamesOf([seg]) == if TrimSpace(seg) == "" then [] else [TrimSpace(seg)]
  {
    hide TrimSpace;
    assert [seg][..0] == [];
  }

  lemma BlankName()
    ensures TrimSpace("") == "" && Split("", ',') == [""] && NamesOf([""]) == []
  {
    NamesOfOne("");
  }

  /** The destination that old agents read is the first of the names that new agents read as targets. */
  lemma DestinationIsFirstTarget(c: Codec, req: SimplePingRequest, vals: Values)
    requires Prints(c, req, vals) && req.Targets != [] && ',' !in req.Targets[0]
    ensures if TrimSpace(req.Targets[0]) == "" then Lookup(vals, ParamDestination) == []
            else
              && Names(Get(vals, ParamTargets)) != []
              && Lookup(vals, ParamDestination) == [Names(Get(vals, ParamTargets))[0]]
  {
    hide Prints, Names, TrimSpace, Lookup, Get;
    GetShown(c, req, vals, ParamDestination);
    GetShown(c, req, vals, ParamTargets);
    var first, others := req.Targets[0], Join(req.Targets[1..], ',');
    NamesText(first, others);
  }

  // ----- the automatic TTL -----

  const AUTO: string := "auto"

  function AutoText(digits: string): string {
    AUTO + ("(" + (digits + ")" + ""))
  }

  /** The text gives a start, and the generator stands at it. */
  ghost predicate StartsAt(s: string, t: TTLGenerator) {
    exists digits :: IntList.IsNumber(digits) && s == AutoText(digits)
                     && Atoi(digits).Some? && t == Auto(Atoi(digits).value, Atoi(digits).value)
  }

  lemma AutoTextIsRead(digits: string)
    requires IntList.IsNumber(digits)
    ensures ParseToAutoTTL(AutoText(digits))
            == if Atoi(digits).Some? then Some(Auto(Atoi(digits).value, Atoi(digits).value)) else None
  {
    hide IntList.DigitsThen, Atoi;
    var s, inner := AutoText(digits), digits + ")" + "";
    assert |s| > 5 && s[..5] == "auto(" && s[5..] == inner;
    IntList.DigitsThenAt(digits, ')', "");
  }

  /** An automatic TTL is "auto", which starts at 1, or "auto(n)", which starts at n, and no other text. */
  lemma AutoTexts(s: string, t: TTLGenerator)
    ensures ParseToAutoTTL(s) == Some(t) <==> (s == AUTO && t == Auto(1, 1)) || StartsAt(s, t)
  {
    hide IntList.DigitsThen, Atoi, AllDigits;
    if s != AUTO && ParseToAutoTTL(s) == Some(t) {
      var digits := IntList.DigitsThen(s[5..], ')').value.0;
      IntList.DigitsThenOnly(s[5..], ')');
      assert s == s[..5] + s[5..] && s[..5] == "auto(";
      assert s == AutoText(digits);
    }
    if StartsAt(s, t) {
      var digits :| IntList.IsNumber(digits) && s == AutoText(digits)
                    && Atoi(digits).Some? && t == Auto(Atoi(digits).value, Atoi(digits).value);
      AutoTextIsRead(digits);
    }
  }

  // ----- defaults -----

  /** The query without parameters: an interval of 1000 and a timeout of 3000 milliseconds, TTL 64, and nothing else. */
  lemma EmptyQuery(c: Codec, r: Result<SimplePingRequest, ParseError>)
    requires Parses(c, map[], r)
    ensures r == Success(SimplePingRequest(
                   None, [], 1000, 3000, None, None, None, None, Some(Range([64], 0)), None, None, None, None, None, [], [], None))
  {
    assert forall p: Param :: Lookup(map[], p) == [] && Get(map[], p) == "";
    assert Names("") == [];
    hide Lookup, Get, Names;
    var ttl :| TTLDenotes("", ttl) && r == match ttl
                                           case Failure(e) => Failure(e)
                                           case Success(t) => AfterTTL(BeforeTTL(c, map[]).value.(TTL := Some(t)), map[]);
  }

  /** The resolve timeout is printed as it is. */
  lemma ResolveTimeoutShown(c: Codec, req: SimplePingRequest, vals: Values)
    requires Prints(c, req, vals)
    ensures IntParam(ParamResolveTimeoutMilliseconds, Get(vals, ParamResolveTimeoutMilliseconds)) == Success(req.ResolveTimeoutMilliseconds)
  {
    hide Prints, Get, Lookup, IntParam;
    GetShown(c, req, vals, ParamResolveTimeoutMilliseconds);
    IntBack(ParamResolveTimeoutMilliseconds, req.ResolveTimeoutMilliseconds);
  }

  ghost predicate SameBut(q: Values, q': Values, p: Param) {
    forall p' :: p' != p ==> Lookup(q', p') == Lookup(q, p') && Get(q', p') == Get(q, p')
  }

  /** What is read before the TTL. */
  ghost predicate SameFields(q: Values, q': Values) {
    && Lookup(q', ParamHTTPTarget) == Lookup(q, ParamHTTPTarget) && Lookup(q', ParamDNSTarget) == Lookup(q, ParamDNSTarget)
    && Get(q', ParamUDPDstPort) == Get(q, ParamUDPDstPort) && Get(q', ParamRandomPayloadSize) == Get(q, ParamRandomPayloadSize)
    && Get(q', ParamCount) == Get(q, ParamCount) && Get(q', ParamIntvMs) == Get(q, ParamIntvMs)
    && Get(q', ParamPktTimeoutMs) == Get(q, ParamPktTimeoutMs) && Get(q', ParamL4PacketType) == Get(q, ParamL4PacketType)
    && Get(q', ParamL3PacketType) == Get(q, ParamL3PacketType) && Get(q', ParamL7PacketType) == Get(q, ParamL7PacketType)
    && Get(q', ParamsIPInfoProviderName) == Get(q, ParamsIPInfoProviderName)
    && Get(q', ParamFrom) == Get(q, ParamFrom) && Get(q', ParamTargets) == Get(q, ParamTargets)
  }

  lemma FieldsSuffice(c: Codec, q: Values, q': Values)
    requires SameFields(q, q')
    ensures BeforeTTL(c, q') == BeforeTTL(c, q)
  {
    hide Lookup, Get, HTTPOf, DNSOf, IntParam, Names, NonEmpty, NilIfEmpty;
  }

  lemma SameBefore(c: Codec, q: Values, q': Values, p: Param)
    requires SameBut(q, q', p) && (p == ParamDestination || p == ParamResolveTimeoutMilliseconds)
    ensures BeforeTTL(c, q') == BeforeTTL(c, q) && Get(q', ParamTTL) == Get(q, ParamTTL)
  {
    hide BeforeTTL, Lookup, Get;
    FieldsSuffice(c, q, q');
  }

  lemma SameAfter(req: SimplePingRequest, q: Values, q': Values, p: Param)
    requires SameBut(q, q', p) && (p == ParamDestination || p == ParamResolveTimeoutMilliseconds)
    ensures AfterTTL(req, q') == AfterTTL(req, q)
  {
    hide Lookup, Get, BoolParam;
  }

  lemma OneChanged(q: Values, p: Param, texts: seq<string>)
    ensures SameBut(q, q[p := texts], p)
  {
  }

  lemma SameParses(c: Codec, q: Values, q': Values, r: Result<SimplePingRequest, ParseError>)
    requires BeforeTTL(c, q') == BeforeTTL(c, q) && Get(q', ParamTTL) == Get(q, ParamTTL) && Parses(c, q, r)
    requires forall req :: AfterTTL(req, q') == AfterTTL(req, q)
    ensures Parses(c, q', r)
  {
    hide BeforeTTL, AfterTTL, TTLDenotes, Get;
  }

  /** The parser reads neither the resolve timeout nor the destination: a query means the same whatever it holds there. */
  lemma UnreadParameters(c: Codec, q: Values, p: Param, texts: seq<string>, r: Result<SimplePingRequest, ParseError>)
    requires p == ParamDestination || p == ParamResolveTimeoutMilliseconds
    ensures Parses(c, q, r) <==> Parses(c, q[p := texts], r)
  {
    hide BeforeTTL, AfterTTL, Get, SameBut, Parses;
    var q' := q[p := texts];
    OneChanged(q, p, texts);
    SameBefore(c, q, q', p);
    forall req
      ensures AfterTTL(req, q') == AfterTTL(req, q)
    {
      SameAfter(req, q, q', p);
    }
    if Parses(c, q, r) {
      SameParses(c, q, q', r);
    }
    if Parses(c, q', r) {
      SameParses(c, q', q, r);
    }
  }

  /** The packet type is read under its name, and under its old name only when that is missing. */
  lemma PacketTypeFallsBack(c: Codec, q: Values, r: Result<SimplePingRequest, ParseError>)
    requires Parses(c, q, r) && r.Success?
    ensures var l4, l3 := Get(q, ParamL4PacketType), Get(q, ParamL3PacketType);
            && (l4 != "" ==> r.value.L4PacketType == Some(l4))
            && (l4 == "" && l3 != "" ==> r.value.L4PacketType == Some(l3))
            && (l4 == "" && l3 == "" ==> r.value.L4PacketType == None)
  {
    hide HTTPOf, DNSOf, Names, Atoi, ParseBool, TTLDenotes, Lookup, Get;
  }

  // ----- truth values -----

  function Upper(c: char): char {
    if 'a' <= c <= 'z' then (c as int - 32) as char else c
  }

  function AllUpper(s: string): string {
    if s == "" then "" else [Upper(s[0])] + AllUpper(s[1..])
  }

  /** The digit, the word and its first letter, in lower and in upper case, and the word with a capital. */
  predicate Spells(s: string, b: bool) {
    var word := FormatBool(b);
    s in [if b then "1" else "0", word, word[..1], AllUpper(word), AllUpper(word)[..1], [Upper(word[0])] + word[1..]]
  }

  lemma ParseBoolSpellings(s: string, b: bool)
    ensures ParseBool(s) == Some(b) <==> Spells(s, b)
  {
    UpperWords();
    hide AllUpper;
    assert FormatBool(true)[..1] == "t" && FormatBool(false)[..1] == "f";
    assert AllUpper(FormatBool(true))[..1] == "T" && AllUpper(FormatBool(false))[..1] == "F";
    assert [Upper('t')] + FormatBool(true)[1..] == "True" && [Upper('f')] + FormatBool(false)[1..] == "False";
  }

  lemma UpperWords()
    ensures AllUpper("true") == "TRUE" && AllUpper("false") == "FALSE"
  {
    hide AllUpper;
    UpperOf('e', "");
    UpperOf('u', "e");
    UpperOf('r', "ue");
    UpperOf('t', "rue");
    UpperOf('s', "e");
    UpperOf('l', "se");
    UpperOf('a', "lse");
    UpperOf('f', "alse");
    assert ['t'] + "rue" == "true" && ['r'] + "ue" == "rue" && ['u'] + "e" == "ue" && ['e'] + "" == "e";
    assert ['f'] + "alse" == "false" && ['a'] + "lse" == "alse" && ['l'] + "se" == "lse" && ['s'] + "e" == "se";
    NoLetters();
  }

  lemma NoLetters()
    ensures AllUpper("") == ""
  {
  }

  lemma UpperOf(c: char, rest: string)
    ensures AllUpper([c] + rest) == [Upper(c)] + AllUpper(rest)
  {
    assert ([c] + rest)[1..] == rest;
  }

  /** The versions of HTTP that a target may ask for. */
  predicate Version(v: string) {
    v == "1.1" || v == "2" || v == "3"
  }

  lemma AcceptableProtos(t: HTTPTarget)
    ensures AcceptableProto(t) <==> t.proto.None? || exists v :: Version(v) && t.proto.value == "http/" + v
  {
    assert "http/" + "1.1" == "http/1.1" && "http/" + "2" == "http/2" && "http/" + "3" == "http/3";
    assert Version("1.1") && Version("2") && Version("3");
  }

  // ----- which parameter is reported -----

  lemma {:induction false} HTTPOfAll(c: Codec, tgts: seq<string>)
    ensures HTTPOf(c, tgts).Some? <==>
              forall i :: 0 <= i < |tgts| ==> c.decodeHTTP(tgts[i]).Some? && AcceptableProto(c.decodeHTTP(tgts[i]).value)
    ensures HTTPOf(c, tgts).Some? ==>
              && |HTTPOf(c, tgts).value| == |tgts|
              && forall i :: 0 <= i < |tgts| ==> c.decodeHTTP(tgts[i]) == Some(HTTPOf(c, tgts).value[i])
  {
    hide AcceptableProto;
    if tgts != [] {
      HTTPOfAll(c, tgts[..|tgts| - 1]);
    }
  }

  lemma {:induction false} DNSOfAll(c: Codec, tgts: seq<string>)
    ensures DNSOf(c, tgts).Some? <==> forall i :: 0 <= i < |tgts| ==> c.decodeDNS(tgts[i]).Some?
    ensures DNSOf(c, tgts).Some? ==>
              && |DNSOf(c, tgts).value| == |tgts|
              && forall i :: 0 <= i < |tgts| ==> c.decodeDNS(tgts[i]) == Some(DNSOf(c, tgts).value[i])
  {
    if tgts != [] {
      DNSOfAll(c, tgts[..|tgts| - 1]);
    }
  }

  /** The parameter's values can be read; a missing number, truth value or TTL can. */
  ghost predicate Readable(c: Codec, q: Values, p: Param) {
    match p
    case ParamHTTPTarget =>
      forall i :: 0 <= i < |Lookup(q, p)| ==>
        c.decodeHTTP(Lookup(q, p)[i]).Some? && AcceptableProto(c.decodeHTTP(Lookup(q, p)[i]).value)
    case ParamDNSTarget => forall i :: 0 <= i < |Lookup(q, p)| ==> c.decodeDNS(Lookup(q, p)[i]).Some?
    case ParamUDPDstPort => NumberReadable(Get(q, p))
    case ParamRandomPayloadSize => NumberReadable(Get(q, p))
    case ParamCount => NumberReadable(Get(q, p))
    case ParamIntvMs => NumberReadable(Get(q, p))
    case ParamPktTimeoutMs => NumberReadable(Get(q, p))
    case ParamTTL => exists ttl :: TTLDenotes(Get(q, p), Success(ttl))
    case ParamPreferV4 => Get(q, p) == "" || ParseBool(Get(q, p)).Some?
    case ParamPreferV6 => Get(q, p) == "" || ParseBool(Get(q, p)).Some?
    case _ => true
  }

  predicate NumberReadable(s: string) {
    s == "" || Atoi(s).Some?
  }

  /** The order in which parameters are read. */
  function Turn(p: Param): nat {
    match p
    case ParamHTTPTarget => 0
    case ParamDNSTarget => 1
    case ParamUDPDstPort => 2
    case ParamRandomPayloadSize => 3
    case ParamCount => 4
    case ParamIntvMs => 5
    case ParamPktTimeoutMs => 6
    case ParamTTL => 7
    case ParamPreferV4 => 8
    case ParamPreferV6 => 9
    case _ => 10
  }

  function Culprit(e: ParseError): Param {
    match e
    case BadParam(p) => p
    case RunsAway => ParamTTL
  }

  /** Every parameter read before turn `k` can be read. */
  ghost predicate ReadUpTo(c: Codec, q: Values, k: nat) {
    forall p :: Turn(p) < k ==> Readable(c, q, p)
  }

  lemma ReadUpToNext(c: Codec, q: Values, p: Param)
    requires Turn(p) < 10
    ensures ReadUpTo(c, q, Turn(p) + 1) <==> ReadUpTo(c, q, Turn(p)) && Readable(c, q, p)
  {
    hide Readable;
    assert forall p' :: Turn(p') == Turn(p) ==> p' == p;
  }

  lemma Turns()
    ensures Turn(ParamHTTPTarget) == 0 && Turn(ParamDNSTarget) == 1 && Turn(ParamUDPDstPort) == 2
    ensures Turn(ParamRandomPayloadSize) == 3 && Turn(ParamCount) == 4 && Turn(ParamIntvMs) == 5 && Turn(ParamPktTimeoutMs) == 6
    ensures Turn(ParamTTL) == 7 && Turn(ParamPreferV4) == 8 && Turn(ParamPreferV6) == 9
  {
  }

  lemma FirstTurns(c: Codec, q: Values)
    ensures ReadUpTo(c, q, 0)
    ensures ReadUpTo(c, q, 1) <==> ReadUpTo(c, q, 0) && Readable(c, q, ParamHTTPTarget)
    ensures ReadUpTo(c, q, 2) <==> ReadUpTo(c, q, 1) && Readable(c, q, ParamDNSTarget)
    ensures ReadUpTo(c, q, 3) <==> ReadUpTo(c, q, 2) && Readable(c, q, ParamUDPDstPort)
    ensures ReadUpTo(c, q, 4) <==> ReadUpTo(c, q, 3) && Readable(c, q, ParamRandomPayloadSize)
    ensures ReadUpTo(c, q, 5) <==> ReadUpTo(c, q, 4) && Readable(c, q, ParamCount)
    ensures ReadUpTo(c, q, 6) <==> ReadUpTo(c, q, 5) && Readable(c, q, ParamIntvMs)
    ensures ReadUpTo(c, q, 7) <==> ReadUpTo(c, q, 6) && Readable(c, q, ParamPktTimeoutMs)
  {
    assert ReadUpTo(c, q, 0);
    Turns();
    hide ReadUpTo, Readable, Turn;
    ReadUpToNext(c, q, ParamHTTPTarget);
    ReadUpToNext(c, q, ParamDNSTarget);
    ReadUpToNext(c, q, ParamUDPDstPort);
    ReadUpToNext(c, q, ParamRandomPayloadSize);
    ReadUpToNext(c, q, ParamCount);
    ReadUpToNext(c, q, ParamIntvMs);
    ReadUpToNext(c, q, ParamPktTimeoutMs);
  }

  lemma NumbersReadable(c: Codec, q: Values, p: Param)
    requires p == ParamUDPDstPort || p == ParamRandomPayloadSize || p == ParamCount || p == ParamIntvMs || p == ParamPktTimeoutMs
    ensures IntParam(p, Get(q, p)).Success? <==> Readable(c, q, p)
    ensures IntParam(p, Get(q, p)).Failure? ==> IntParam(p, Get(q, p)).error == BadParam(p)
  {
    hide Get, Atoi;
  }

  lemma TargetsReadable(c: Codec, q: Values)
    ensures HTTPOf(c, Lookup(q, ParamHTTPTarget)).Some? <==> Readable(c, q, ParamHTTPTarget)
    ensures DNSOf(c, Lookup(q, ParamDNSTarget)).Some? <==> Readable(c, q, ParamDNSTarget)
  {
    HTTPOfAll(c, Lookup(q, ParamHTTPTarget));
    DNSOfAll(c, Lookup(q, ParamDNSTarget));
    hide HTTPOf, DNSOf, AcceptableProto, Lookup;
  }

  lemma BeforeReadable(c: Codec, q: Values)
    ensures BeforeTTL(c, q).Success? <==> ReadUpTo(c, q, 7)
    ensures BeforeTTL(c, q).Failure? ==>
              var p := Culprit(BeforeTTL(c, q).error);
              Turn(p) < 7 && !Readable(c, q, p) && ReadUpTo(c, q, Turn(p))
  {
    hide HTTPOf, DNSOf, IntParam, Names, Lookup, Get, Readable, ReadUpTo;
    TargetsReadable(c, q);
    NumbersReadable(c, q, ParamUDPDstPort);
    NumbersReadable(c, q, ParamRandomPayloadSize);
    NumbersReadable(c, q, ParamCount);
    NumbersReadable(c, q, ParamIntvMs);
    NumbersReadable(c, q, ParamPktTimeoutMs);
    FirstTurns(c, q);
  }

  lemma AfterReadable(c: Codec, q: Values, req: SimplePingRequest)
    ensures AfterTTL(req, q).Success? <==> Readable(c, q, ParamPreferV4) && Readable(c, q, ParamPreferV6)
    ensures AfterTTL(req, q).Failure? ==>
              var p := Culprit(AfterTTL(req, q).error);
              !Readable(c, q, p) && (p == ParamPreferV4 || (p == ParamPreferV6 && Readable(c, q, ParamPreferV4)))
  {
    hide ParseBool, Get;
  }

  /** A query is accepted exactly when every parameter can be read, and otherwise the one reported is the first, in the order
      of reading, that cannot. */
  lemma ReportsFirstUnreadable(c: Codec, q: Values, r: Result<SimplePingRequest, ParseError>)
    requires Parses(c, q, r)
    ensures r.Success? <==> forall p :: Readable(c, q, p)
    ensures r.Failure? ==>
              var p := Culprit(r.error);
              !Readable(c, q, p) && forall p' :: Turn(p') < Turn(p) ==> Readable(c, q, p')
  {
    BeforeReadable(c, q);
    LastTurns(c, q);
    hide BeforeTTL, AfterTTL, TTLDenotes, Get, Readable, Turn;
    if BeforeTTL(c, q).Success? {
      var before := BeforeTTL(c, q).value;
      var ttl :| TTLDenotes(Get(q, ParamTTL), ttl)
                 && r == match ttl
                         case Failure(e) => Failure(e)
                         case Success(t) => AfterTTL(before.(TTL := Some(t)), q);
      TTLReadable(c, q, ttl);
      if ttl.Success? {
        AfterReadable(c, q, before.(TTL := Some(ttl.value)));
      }
    }
  }

  lemma LastTurns(c: Codec, q: Values)
    ensures Turn(ParamTTL) == 7 && Turn(ParamPreferV4) == 8 && Turn(ParamPreferV6) == 9
    ensures ReadUpTo(c, q, 8) <==> ReadUpTo(c, q, 7) && Readable(c, q, ParamTTL)
    ensures ReadUpTo(c, q, 9) <==> ReadUpTo(c, q, 8) && Readable(c, q, ParamPreferV4)
    ensures ReadUpTo(c, q, 10) <==> ReadUpTo(c, q, 9) && Readable(c, q, ParamPreferV6)
    ensures (forall p :: Readable(c, q, p)) <==> ReadUpTo(c, q, 10)
  {
    Turns();
    AllTurns(c, q);
    hide ReadUpTo, Readable, Turn;
    ReadUpToNext(c, q, ParamTTL);
    ReadUpToNext(c, q, ParamPreferV4);
    ReadUpToNext(c, q, ParamPreferV6);
  }

  lemma AllTurns(c: Codec, q: Values)
    ensures (forall p :: Readable(c, q, p)) <==> ReadUpTo(c, q, 10)
  {
    forall p: Param
      ensures Turn(p) < 10 || Readable(c, q, p)
    {
      OneTurn(c, q, p);
    }
    hide Readable, Turn;
  }

  lemma OneTurn(c: Codec, q: Values, p: Param)
    ensures Turn(p) < 10 || Readable(c, q, p)
  {
  }

  lemma TTLReadable(c: Codec, q: Values, ttl: Result<TTLGenerator, ParseError>)
    requires TTLDenotes(Get(q, ParamTTL), ttl)
    ensures ttl.Success? <==> Readable(c, q, ParamTTL)
    ensures ttl.Failure? ==> Culprit(ttl.error) == ParamTTL
  {
    TTLCulprit(Get(q, ParamTTL), ttl);
    hide TTLDenotes, Get;
    if t :| TTLDenotes(Get(q, ParamTTL), Success(t)) {
      TTLDenotesOne(Get(q, ParamTTL), ttl, Success(t));
    }
    if ttl.Success? {
      assert TTLDenotes(Get(q, ParamTTL), Success(ttl.value));
    }
  }

  lemma TTLCulprit(s: string, ttl: Result<TTLGenerator, ParseError>)
    requires TTLDenotes(s, ttl)
    ensures ttl.Failure? ==> Culprit(ttl.error) == ParamTTL
  {
    hide IntList.Denotes, ParseToAutoTTL;
  }
}
