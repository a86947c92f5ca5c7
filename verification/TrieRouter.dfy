/** The route table of the browser client (web/utls/router.ts): a trie with variable strides, built by
    path copying, and what a lookup in it answers. */
module TrieRouter {
  import opened Wrappers
  import opened Bits
  import opened Bytes
  import opened IPAddresses
  import opened Segments

  /** `value` is the payload of the route; the table never looks at it. */
  datatype Route = Route(networkAddr: IPAddr, prefixLength: nat, value: Option<string>) {
    predicate Valid() {
      networkAddr.Valid() && prefixLength <= MaxBits(networkAddr.family)
    }

    /** The route's prefix contains the address. */
    predicate Covers(ip: IPAddr)
      requires Valid() && ip.Valid()
    {
      networkAddr.family == ip.family && networkAddr.Leading(prefixLength) == ip.Leading(prefixLength)
    }
  }

  ghost predicate AllValid(rs: seq<Route>, f: Family) {
    forall r :: r in rs ==> r.Valid() && r.networkAddr.family == f
  }

  /** A missing list of routes and an empty one are the same to every reader, so both are `[]`. */
  datatype NodeEntry = NodeEntry(nextHeader: Option<NextHeader>, routes: seq<Route>)

  /** Subtrees are keyed by the field value; its decimal form, the source's key, is one to one with it. */
  datatype NextHeader = NextHeader(segmentLength: nat, seg2SubTrees: map<nat, NodeEntry>)

  datatype LookupResult = LookupResult(routes: seq<Route>, matchedPrefixLen: nat)

  const INVALID_SEGMENT := "Invalid segment length"

  function DoLookup(tableEntry: NodeEntry, ip: IPAddr, matched: nat, maxBits: nat): Result<LookupResult, string>
    requires matched <= maxBits
    decreases maxBits - matched
  {
    var currentDefault := LookupResult(tableEntry.routes, matched);
    if matched == maxBits || tableEntry.nextHeader.None? then Success(currentDefault)
    else
      var next := tableEntry.nextHeader.value;
      if next.segmentLength <= 0 || next.segmentLength + matched > maxBits then Failure(INVALID_SEGMENT)
      else
        var segment := ip.MaskedField(matched, next.segmentLength);
        if segment !in next.seg2SubTrees then Success(currentDefault)
        else
          var below :- DoLookup(next.seg2SubTrees[segment], ip, matched + next.segmentLength, maxBits);
          Success(if |below.routes| > 0 then below else currentDefault)
  }

  function Subtrees(n: NodeEntry): map<nat, NodeEntry> {
    if n.nextHeader.Some? then n.nextHeader.value.seg2SubTrees else map[]
  }

  function Subtree(n: NodeEntry, seg: nat): Option<NodeEntry> {
    if seg in Subtrees(n) then Some(Subtrees(n)[seg]) else None
  }

  function OrEmpty(n: Option<NodeEntry>): NodeEntry {
    if n.Some? then n.value else NodeEntry(None, [])
  }

  function DoInsertRoute(tableRoot: Option<NodeEntry>, route: Route, segments: seq<nat>, level: nat, eaten: nat): NodeEntry
    decreases |segments| - level
  {
    var root := OrEmpty(tableRoot);
    if level >= |segments| || eaten + segments[level] > route.prefixLength then
      root.(routes := root.routes + [route])
    else
      var seg := route.networkAddr.MaskedField(eaten, segments[level]);
      var sub := DoInsertRoute(Subtree(root, seg), route, segments, level + 1, eaten + segments[level]);
      root.(nextHeader := Some(NextHeader(segments[level], Subtrees(root)[seg := sub])))
  }

  /** The table after inserting `rs` in order. */
  function InsertAll(rs: seq<Route>, segments: seq<nat>): Option<NodeEntry> {
    if rs == [] then None
    else Some(DoInsertRoute(InsertAll(rs[..|rs| - 1], segments), rs[|rs| - 1], segments, 0, 0))
  }

  function Select(rs: seq<Route>, p: Route -> bool): (s: seq<Route>)
    ensures forall r :: r in s <==> r in rs && p(r)
  {
    if rs == [] then []
    else
      var s := Select(rs[..|rs| - 1], p);
      if p(rs[|rs| - 1]) then s + [rs[|rs| - 1]] else s
  }

  lemma {:induction false} SelectSame(rs: seq<Route>, p: Route -> bool, q: Route -> bool)
    requires forall r :: r in rs ==> p(r) == q(r)
    ensures Select(rs, p) == Select(rs, q)
  {
    if rs != [] {
      SelectSame(rs[..|rs| - 1], p, q);
    }
  }

  function OfFamily(rs: seq<Route>, f: Family): seq<Route> {
    Select(rs, (r: Route) => r.networkAddr.family == f)
  }

  function Lengths(rs: seq<Route>): (ls: seq<nat>)
    ensures |ls| == |rs|
  {
    seq(|rs|, i requires 0 <= i < |rs| => rs[i].prefixLength)
  }

  /** The cut a route is filed at. */
  function FiledAt(r: Route, ss: seq<nat>): (c: nat)
    ensures c <= r.prefixLength
  {
    LargestCut(r.prefixLength, ss)
  }

  /** The address agrees with the route on the bits the route is filed by. */
  predicate Matches(r: Route, ip: IPAddr, ss: seq<nat>)
    requires r.Valid() && ip.Valid()
  {
    r.networkAddr.family == ip.family && r.networkAddr.Leading(FiledAt(r, ss)) == ip.Leading(FiledAt(r, ss))
  }

  /** The largest cut among matching routes; -1 when none matches. */
  function BestCut(rs: seq<Route>, ip: IPAddr, ss: seq<nat>): int
    requires AllValid(rs, ip.family) && ip.Valid()
  {
    if rs == [] then -1
    else
      var best, r := BestCut(rs[..|rs| - 1], ip, ss), rs[|rs| - 1];
      if Matches(r, ip, ss) && FiledAt(r, ss) > best then FiledAt(r, ss) else best
  }

  /** Specification of lookup: the matching routes of the largest cut, in insertion order. */
  function DeepestMatches(rs: seq<Route>, ip: IPAddr, ss: seq<nat>): seq<Route>
    requires AllValid(rs, ip.family) && ip.Valid()
  {
    var best := BestCut(rs, ip, ss);
    Select(rs, (r: Route) => r.Valid() && Matches(r, ip, ss) && FiledAt(r, ss) == best)
  }

  /** The longest prefix length among the routes that cover the address, by linear scan; -1 when none does. */
  function LongestLength(rs: seq<Route>, ip: IPAddr): int
    requires AllValid(rs, ip.family) && ip.Valid()
  {
    if rs == [] then -1
    else
      var best, r := LongestLength(rs[..|rs| - 1], ip), rs[|rs| - 1];
      if r.Covers(ip) && r.prefixLength > best then r.prefixLength else best
  }

  /** Longest-match forwarding (section 5.1 of RFC 4632), in insertion order. */
  function LongestMatch(rs: seq<Route>, ip: IPAddr): seq<Route>
    requires AllValid(rs, ip.family) && ip.Valid()
  {
    var best := LongestLength(rs, ip);
    Select(rs, (r: Route) => r.Valid() && r.Covers(ip) && r.prefixLength == best)
  }

  // ----- the specifications, one route at a time -----

  lemma SelectLast(rs: seq<Route>, r: Route, p: Route -> bool)
    ensures Select(rs + [r], p) == Select(rs, p) + (if p(r) then [r] else [])
  {
    assert (rs + [r])[..|rs|] == rs;
  }

  lemma SelectFromNone(p: Route -> bool)
    ensures Select([], p) == []
  {
  }

  /** Of a longer table one family's routes are those of the shorter one, followed by the new route if it is of the family. */
  lemma OfFamilyAppend(rs: seq<Route>, r: Route, f: Family)
    ensures OfFamily([], f) == []
    ensures OfFamily(rs + [r], f) == OfFamily(rs, f) + (if r.networkAddr.family == f then [r] else [])
  {
    hide Select;
    SelectFromNone((s: Route) => s.networkAddr.family == f);
    SelectLast(rs, r, (s: Route) => s.networkAddr.family == f);
  }

  /** Every route is filed in the table of its family and in no other, as often as it was given. */
  lemma {:induction false} FamiliesPartition(rs: seq<Route>)
    ensures forall f, r :: r in OfFamily(rs, f) <==> r in rs && r.networkAddr.family == f
    ensures multiset(OfFamily(rs, IPv4)) + multiset(OfFamily(rs, IPv6)) == multiset(rs)
    ensures |OfFamily(rs, IPv4)| + |OfFamily(rs, IPv6)| == |rs|
  {
    hide OfFamily;
    if rs == [] {
      OfFamilyAppend([], Route(IPAddr([], IPv4), 0, None), IPv4);
      OfFamilyAppend([], Route(IPAddr([], IPv6), 0, None), IPv6);
    } else {
      var front, last := rs[..|rs| - 1], rs[|rs| - 1];
      FamiliesPartition(front);
      assert rs == front + [last];
      OfFamilyAppend(front, last, IPv4);
      OfFamilyAppend(front, last, IPv6);
    }
    forall f, r
      ensures r in OfFamily(rs, f) <==> r in rs && r.networkAddr.family == f
    {
      InFamily(rs, f, r);
    }
  }

  lemma InFamily(rs: seq<Route>, f: Family, r: Route)
    ensures r in OfFamily(rs, f) <==> r in rs && r.networkAddr.family == f
  {
  }

  /** The specification of lookup, route by route: those that match, with no matching route filed deeper. */
  lemma DeepestMatchesAre(rs: seq<Route>, ip: IPAddr, ss: seq<nat>, r: Route)
    requires AllValid(rs, ip.family) && ip.Valid()
    ensures r in DeepestMatches(rs, ip, ss) <==>
              && r in rs && Matches(r, ip, ss)
              && forall q :: q in rs && Matches(q, ip, ss) ==> FiledAt(q, ss) <= FiledAt(r, ss)
  {
    hide Matches, FiledAt;
    BestCutBounds(rs, ip, ss);
  }

  /** Longest match, route by route: those that contain the address, with no longer route that contains it. */
  lemma LongestMatchesAre(rs: seq<Route>, ip: IPAddr, r: Route)
    requires AllValid(rs, ip.family) && ip.Valid()
    ensures r in LongestMatch(rs, ip) <==>
              && r in rs && r.Covers(ip)
              && forall q :: q in rs && q.Covers(ip) ==> q.prefixLength <= r.prefixLength
  {
    hide Route.Covers;
    LongestLengthBounds(rs, ip);
  }

  lemma {:induction false} LongestLengthBounds(rs: seq<Route>, ip: IPAddr)
    requires AllValid(rs, ip.family) && ip.Valid()
    ensures forall r :: r in rs && r.Covers(ip) ==> r.prefixLength <= LongestLength(rs, ip)
    ensures LongestLength(rs, ip) == -1
         || exists r :: r in rs && r.Covers(ip) && r.prefixLength == LongestLength(rs, ip)
  {
    hide Route.Covers;
    if rs != [] {
      LongestLengthBounds(rs[..|rs| - 1], ip);
    }
  }

  /** One more route changes the longest length only when it covers the address and is longer. */
  lemma LongestLengthStep(before: seq<Route>, r: Route, ip: IPAddr)
    requires ip.Valid() && AllValid(before + [r], ip.family)
    ensures AllValid(before, ip.family)
    ensures LongestLength(before + [r], ip)
            == if r.Covers(ip) && r.prefixLength > LongestLength(before, ip) then r.prefixLength else LongestLength(before, ip)
  {
    var after := before + [r];
    assert after[..|before|] == before && after[|before|] == r;
    assert forall s :: s in before ==> s in after;
    hide Route.Covers, Route.Valid;
  }

  /** One more route of the longest length is selected last; another one is not selected. */
  lemma LongestMatchStep(before: seq<Route>, r: Route, ip: IPAddr)
    requires ip.Valid() && AllValid(before + [r], ip.family)
    ensures AllValid(before, ip.family)
    ensures var l, l' := LongestLength(before, ip), LongestLength(before + [r], ip);
            && (r.Covers(ip) && r.prefixLength == l' ==>
                  LongestMatch(before + [r], ip) != [] && LongestMatch(before + [r], ip)[|LongestMatch(before + [r], ip)| - 1] == r)
            && (l' == l && !(r.Covers(ip) && r.prefixLength == l') ==> LongestMatch(before + [r], ip) == LongestMatch(before, ip))
  {
    assert r in before + [r];
    assert forall s :: s in before ==> s in before + [r];
    hide Route.Covers, LongestLength;
    var l' := LongestLength(before + [r], ip);
    SelectLast(before, r, (s: Route) => s.Valid() && s.Covers(ip) && s.prefixLength == l');
  }

  // ----- the table -----

  datatype RouteTable = RouteTable(table4: Option<NodeEntry>, table6: Option<NodeEntry>) {
    function Lookup(ip: IPAddr): Result<seq<Route>, string> {
      var table := if ip.family == IPv4 then table4 else table6;
      if table.None? then Success([])
      else
        var found :- DoLookup(table.value, ip, 0, MaxBits(ip.family));
        Success(found.routes)
    }
  }

  // ----- the routes a node holds -----

  /** The routes at the node reached by `path`. */
  function RoutesAt(n: NodeEntry, path: seq<nat>): seq<Route>
    decreases |path|
  {
    if path == [] then n.routes
    else if path[0] in Subtrees(n) then RoutesAt(Subtrees(n)[path[0]], path[1..])
    else []
  }

  /** The field values of `a` over the strides `level .. level + d`. */
  function Fields(a: IPAddr, ss: seq<nat>, level: nat, d: nat): (path: seq<nat>)
    requires level + d <= |ss|
    ensures |path| == d
    decreases d
  {
    if d == 0 then [] else [a.MaskedField(Cut(ss, level), ss[level])] + Fields(a, ss, level + 1, d - 1)
  }

  /** The level at which insertion from `level` on stops for a prefix of length `p`. */
  function StopLevel(p: nat, ss: seq<nat>, level: nat): (l: nat)
    requires level <= |ss|
    ensures level <= l <= |ss|
    decreases |ss| - level
  {
    if level < |ss| && Cut(ss, level + 1) <= p then StopLevel(p, ss, level + 1) else level
  }

  lemma {:induction false} StopLevelIsLargestCut(p: nat, ss: seq<nat>, level: nat)
    requires Positive(ss) && level <= |ss| && Cut(ss, level) <= p
    ensures Cut(ss, StopLevel(p, ss, level)) == LargestCut(p, ss)
    decreases |ss| - level
  {
    if level < |ss| && Cut(ss, level + 1) <= p {
      StopLevelIsLargestCut(p, ss, level + 1);
    } else {
      LargestCutAt(p, ss, level, |ss|);
    }
  }

  lemma ConsEqual(x: nat, path: seq<nat>, rest: seq<nat>)
    ensures path == [x] + rest <==> path != [] && path[0] == x && path[1..] == rest
  {
    assert path != [] ==> path == [path[0]] + path[1..];
  }

  /** An insertion that goes down leaves the node's routes, changes one subtree and keeps the others. */
  lemma InsertGoesDown(root: Option<NodeEntry>, r: Route, ss: seq<nat>, level: nat, path: seq<nat>)
    requires level < |ss| && Cut(ss, level + 1) <= r.prefixLength
    ensures var seg := r.networkAddr.MaskedField(Cut(ss, level), ss[level]);
            var below := DoInsertRoute(Subtree(OrEmpty(root), seg), r, ss, level + 1, Cut(ss, level + 1));
            RoutesAt(DoInsertRoute(root, r, ss, level, Cut(ss, level)), path)
            == if path != [] && path[0] == seg then RoutesAt(below, path[1..]) else RoutesAt(OrEmpty(root), path)
  {
  }

  /** Below a node, a missing subtree holds nothing. */
  lemma RoutesBelow(n: NodeEntry, path: seq<nat>)
    requires path != []
    ensures RoutesAt(n, path) == RoutesAt(OrEmpty(Subtree(n, path[0])), path[1..])
  {
    assert RoutesAt(NodeEntry(None, []), path[1..]) == [];
  }

  /** The fields of a route begin with its first field. */
  lemma FieldsOfStop(r: Route, ss: seq<nat>, level: nat)
    requires level < |ss| && Cut(ss, level + 1) <= r.prefixLength
    ensures Fields(r.networkAddr, ss, level, StopLevel(r.prefixLength, ss, level) - level)
         == [r.networkAddr.MaskedField(Cut(ss, level), ss[level])]
            + Fields(r.networkAddr, ss, level + 1, StopLevel(r.prefixLength, ss, level + 1) - level - 1)
  {
  }

  /** One insertion adds its route to the node its fields lead to and to no other. */
  lemma {:induction false} InsertFiles(root: Option<NodeEntry>, r: Route, ss: seq<nat>, level: nat, path: seq<nat>)
    requires level <= |ss|
    ensures RoutesAt(DoInsertRoute(root, r, ss, level, Cut(ss, level)), path)
         == RoutesAt(OrEmpty(root), path)
            + (if path == Fields(r.networkAddr, ss, level, StopLevel(r.prefixLength, ss, level) - level) then [r] else [])
    decreases |ss| - level
  {
    hide DoInsertRoute, RoutesAt, Fields, StopLevel, Cut, IPAddr.MaskedField, Subtree, OrEmpty;
    if level < |ss| && Cut(ss, level + 1) <= r.prefixLength {
      var seg := r.networkAddr.MaskedField(Cut(ss, level), ss[level]);
      var rest := Fields(r.networkAddr, ss, level + 1, StopLevel(r.prefixLength, ss, level + 1) - level - 1);
      InsertGoesDown(root, r, ss, level, path);
      FieldsOfStop(r, ss, level);
      ConsEqual(seg, path, rest);
      if path != [] && path[0] == seg {
        InsertFiles(Subtree(OrEmpty(root), seg), r, ss, level + 1, path[1..]);
        RoutesBelow(OrEmpty(root), path);
      }
    } else {
      InsertStops(root, r, ss, level, path);
    }
  }

  lemma InsertStops(root: Option<NodeEntry>, r: Route, ss: seq<nat>, level: nat, path: seq<nat>)
    requires level <= |ss| && (level < |ss| ==> Cut(ss, level + 1) > r.prefixLength)
    ensures RoutesAt(DoInsertRoute(root, r, ss, level, Cut(ss, level)), path)
         == RoutesAt(OrEmpty(root), path) + (if path == [] then [r] else [])
    ensures Fields(r.networkAddr, ss, level, StopLevel(r.prefixLength, ss, level) - level) == []
  {
  }

  /** The node at `path` holds, in insertion order, the routes whose fields spell `path`. */
  lemma {:induction false} InsertAllFiles(rs: seq<Route>, ss: seq<nat>, path: seq<nat>)
    ensures RoutesAt(OrEmpty(InsertAll(rs, ss)), path)
         == Select(rs, (r: Route) => Fields(r.networkAddr, ss, 0, StopLevel(r.prefixLength, ss, 0)) == path)
  {
    if rs == [] {
      assert RoutesAt(NodeEntry(None, []), path) == [];
    } else {
      InsertAllFiles(rs[..|rs| - 1], ss, path);
      InsertFiles(InsertAll(rs[..|rs| - 1], ss), rs[|rs| - 1], ss, 0, path);
    }
  }

  // ----- the shape of a trie -----

  /** Every stride of the trie is the one of its level, and none reaches past the address. */
  ghost predicate Shaped(n: NodeEntry, ss: seq<nat>, level: nat, maxBits: nat)
    requires level <= |ss|
    decreases |ss| - level
  {
    n.nextHeader.Some? ==>
      level < |ss| && n.nextHeader.value.segmentLength == ss[level] && Cut(ss, level + 1) <= maxBits
      && forall k :: k in Subtrees(n) ==> Shaped(Subtrees(n)[k], ss, level + 1, maxBits)
  }

  lemma {:induction false} InsertKeepsShape(root: Option<NodeEntry>, r: Route, ss: seq<nat>, level: nat, maxBits: nat)
    requires level <= |ss| && r.prefixLength <= maxBits && Shaped(OrEmpty(root), ss, level, maxBits)
    ensures Shaped(DoInsertRoute(root, r, ss, level, Cut(ss, level)), ss, level, maxBits)
    decreases |ss| - level
  {
    if level < |ss| && Cut(ss, level + 1) <= r.prefixLength {
      var seg := r.networkAddr.MaskedField(Cut(ss, level), ss[level]);
      var n, m := OrEmpty(root), DoInsertRoute(root, r, ss, level, Cut(ss, level));
      InsertKeepsShape(Subtree(n, seg), r, ss, level + 1, maxBits);
      forall k | k in Subtrees(m)
        ensures Shaped(Subtrees(m)[k], ss, level + 1, maxBits)
      {
        assert k != seg ==> Subtrees(m)[k] == Subtrees(n)[k];
      }
    } else {
      assert Subtrees(DoInsertRoute(root, r, ss, level, Cut(ss, level))) == Subtrees(OrEmpty(root));
    }
  }

  lemma {:induction false} InsertAllShaped(rs: seq<Route>, ss: seq<nat>, f: Family)
    requires AllValid(rs, f)
    ensures Shaped(OrEmpty(InsertAll(rs, ss)), ss, 0, MaxBits(f))
  {
    if rs != [] {
      InsertAllShaped(rs[..|rs| - 1], ss, f);
      InsertKeepsShape(InsertAll(rs[..|rs| - 1], ss), rs[|rs| - 1], ss, 0, MaxBits(f));
    }
  }

  /** On a well-shaped trie lookup never throws and answers with the deepest non-empty node on the
      address's own path. */
  lemma {:induction false} LookupFindsDeepest(n: NodeEntry, ip: IPAddr, ss: seq<nat>, level: nat, maxBits: nat) returns (d: nat)
    requires Positive(ss) && level <= |ss| && Cut(ss, level) <= maxBits && Shaped(n, ss, level, maxBits)
    ensures level + d <= |ss| && Cut(ss, level + d) <= maxBits
    ensures DoLookup(n, ip, Cut(ss, level), maxBits)
         == Success(LookupResult(RoutesAt(n, Fields(ip, ss, level, d)), Cut(ss, level + d)))
    ensures d > 0 ==> RoutesAt(n, Fields(ip, ss, level, d)) != []
    ensures forall e :: d < e && level + e <= |ss| ==> RoutesAt(n, Fields(ip, ss, level, e)) == []
    decreases |ss| - level
  {
    d := 0;
    if n.nextHeader.Some? {
      CutsIncrease(ss, level, level + 1);
      var seg := ip.MaskedField(Cut(ss, level), ss[level]);
      if seg in Subtrees(n) {
        var below := Subtrees(n)[seg];
        var d' := LookupFindsDeepest(below, ip, ss, level + 1, maxBits);
        forall e | 0 < e && level + e <= |ss|
          ensures RoutesAt(n, Fields(ip, ss, level, e)) == RoutesAt(below, Fields(ip, ss, level + 1, e - 1))
        {
          assert Fields(ip, ss, level, e)[1..] == Fields(ip, ss, level + 1, e - 1);
        }
        if RoutesAt(below, Fields(ip, ss, level + 1, d')) != [] {
          d := d' + 1;
        }
      }
    }
  }

  /** Two addresses spell the same fields exactly when they agree on the bits those fields cover. */
  lemma {:induction false} FieldsArePrefixes(a: IPAddr, b: IPAddr, ss: seq<nat>, level: nat, d: nat)
    requires a.Valid() && b.Valid() && a.family == b.family && Positive(ss)
    requires level + d <= |ss| && Cut(ss, level + d) <= MaxBits(a.family)
    requires Cut(ss, level) <= Cut(ss, level + d) && a.Leading(Cut(ss, level)) == b.Leading(Cut(ss, level))
    ensures Fields(a, ss, level, d) == Fields(b, ss, level, d)
       <==> a.Leading(Cut(ss, level + d)) == b.Leading(Cut(ss, level + d))
    decreases d
  {
    if d > 0 {
      var off, n, total := Cut(ss, level), ss[level], MaxBits(a.family);
      CutsIncrease(ss, level + 1, level + d);
      PrefixAgreement(a.Value(), b.Value(), total, off, n);
      var fa, fb := Fields(a, ss, level + 1, d - 1), Fields(b, ss, level + 1, d - 1);
      assert Fields(a, ss, level, d)[1..] == fa && Fields(b, ss, level, d)[1..] == fb;
      if a.Leading(off + n) == b.Leading(off + n) {
        FieldsArePrefixes(a, b, ss, level + 1, d - 1);
      } else if a.Leading(Cut(ss, level + d)) == b.Leading(Cut(ss, level + d)) {
        PrefixShorten(a.Value(), b.Value(), total, off + n, Cut(ss, level + d));
      }
    }
  }

  /** A route is filed on the address's path, `d` levels down, exactly when it matches at that cut. */
  lemma FiledOnPath(r: Route, ip: IPAddr, ss: seq<nat>, d: nat)
    requires r.Valid() && ip.Valid() && r.networkAddr.family == ip.family
    requires Positive(ss) && d <= |ss| && Cut(ss, d) <= MaxBits(ip.family)
    ensures Fields(r.networkAddr, ss, 0, StopLevel(r.prefixLength, ss, 0)) == Fields(ip, ss, 0, d)
       <==> Matches(r, ip, ss) && FiledAt(r, ss) == Cut(ss, d)
  {
    var l := StopLevel(r.prefixLength, ss, 0);
    StopLevelIsLargestCut(r.prefixLength, ss, 0);
    assert FiledAt(r, ss) == Cut(ss, l);
    PrefixOfValid(r.networkAddr, ip);
    if l == d {
      FieldsArePrefixes(r.networkAddr, ip, ss, 0, d);
    } else {
      assert |Fields(r.networkAddr, ss, 0, l)| != |Fields(ip, ss, 0, d)|;
      if Cut(ss, l) == Cut(ss, d) {
        CutsInjective(ss, l, d);
      }
    }
  }

  lemma PrefixOfValid(a: IPAddr, b: IPAddr)
    requires a.Valid() && b.Valid() && a.family == b.family
    ensures a.Leading(0) == b.Leading(0)
  {
    LowOfSmall(a.Value(), 8 * |a.data|);
    LowOfSmall(b.Value(), 8 * |b.data|);
  }

  lemma {:induction false} BestCutBounds(rs: seq<Route>, ip: IPAddr, ss: seq<nat>)
    requires AllValid(rs, ip.family) && ip.Valid()
    ensures forall r :: r in rs && Matches(r, ip, ss) ==> FiledAt(r, ss) <= BestCut(rs, ip, ss)
    ensures BestCut(rs, ip, ss) == -1
         || exists r :: r in rs && Matches(r, ip, ss) && FiledAt(r, ss) == BestCut(rs, ip, ss)
  {
    if rs != [] {
      BestCutBounds(rs[..|rs| - 1], ip, ss);
    }
  }

  /** The matching routes filed at cut `c`. */
  function MatchesAt(rs: seq<Route>, ip: IPAddr, ss: seq<nat>, c: nat): seq<Route>
    requires ip.Valid()
  {
    Select(rs, (r: Route) => r.Valid() && Matches(r, ip, ss) && FiledAt(r, ss) == c)
  }

  /** If no cut behind the `d`-th has a match, and the `d`-th has one unless it is the first, it has the deepest. */
  lemma LastNonEmptyIsDeepest(rs: seq<Route>, ip: IPAddr, ss: seq<nat>, d: nat)
    requires AllValid(rs, ip.family) && ip.Valid() && Positive(ss) && d <= |ss|
    requires d > 0 ==> MatchesAt(rs, ip, ss, Cut(ss, d)) != []
    requires forall e :: d < e <= |ss| && Cut(ss, e) <= MaxBits(ip.family) ==> MatchesAt(rs, ip, ss, Cut(ss, e)) == []
    ensures MatchesAt(rs, ip, ss, Cut(ss, d)) == DeepestMatches(rs, ip, ss)
  {
    hide Matches, Cut, LargestCut;
    var best := BestCut(rs, ip, ss);
    BestCutBounds(rs, ip, ss);
    forall r | r in rs && Matches(r, ip, ss)
      ensures FiledAt(r, ss) <= Cut(ss, d)
    {
      FiledNoDeeper(rs, r, ip, ss, d);
    }
    if MatchesAt(rs, ip, ss, Cut(ss, d)) != [] {
      assert MatchesAt(rs, ip, ss, Cut(ss, d))[0] in MatchesAt(rs, ip, ss, Cut(ss, d));
      assert best == Cut(ss, d);
    } else {
      FirstCut(ss);
      NoneFiledAt(rs, ip, ss, Cut(ss, d));
      assert best == -1;
    }
    SelectSame(rs, (r: Route) => r.Valid() && Matches(r, ip, ss) && FiledAt(r, ss) == Cut(ss, d),
               (r: Route) => r.Valid() && Matches(r, ip, ss) && FiledAt(r, ss) == best);
  }

  lemma NoneFiledAt(rs: seq<Route>, ip: IPAddr, ss: seq<nat>, c: nat)
    requires AllValid(rs, ip.family) && ip.Valid() && MatchesAt(rs, ip, ss, c) == []
    ensures forall r :: r in rs && Matches(r, ip, ss) ==> FiledAt(r, ss) != c
  {
    hide Matches;
    assert forall r :: r in rs ==> r !in MatchesAt(rs, ip, ss, c);
  }

  lemma FirstCut(ss: seq<nat>)
    ensures Cut(ss, 0) == 0
  {
  }

  lemma FiledNoDeeper(rs: seq<Route>, r: Route, ip: IPAddr, ss: seq<nat>, d: nat)
    requires AllValid(rs, ip.family) && ip.Valid() && Positive(ss) && d <= |ss| && r in rs && Matches(r, ip, ss)
    requires forall e :: d < e <= |ss| && Cut(ss, e) <= MaxBits(ip.family) ==> MatchesAt(rs, ip, ss, Cut(ss, e)) == []
    ensures FiledAt(r, ss) <= Cut(ss, d)
  {
    hide Matches;
    LargestCutIsExact(r.prefixLength, ss);
    var e :| 0 <= e <= |ss| && Cut(ss, e) == FiledAt(r, ss);
    assert r in MatchesAt(rs, ip, ss, Cut(ss, e));
    if e < d {
      CutsIncrease(ss, e, d);
    }
  }

  /** Trie refinement: for any routes of one family and any positive strides, lookup returns the
      specification's routes, and the error for a bad segment length cannot happen. */
  lemma TrieRefinesDeepestMatches(rs: seq<Route>, ip: IPAddr, ss: seq<nat>)
    requires AllValid(rs, ip.family) && ip.Valid() && Positive(ss)
    ensures DoLookup(OrEmpty(InsertAll(rs, ss)), ip, 0, MaxBits(ip.family)).Success?
    ensures DoLookup(OrEmpty(InsertAll(rs, ss)), ip, 0, MaxBits(ip.family)).value.routes == DeepestMatches(rs, ip, ss)
  {
    FirstCut(ss);
    hide InsertAll, DoInsertRoute, DoLookup, RoutesAt, Fields, Cut, MatchesAt, DeepestMatches;
    var root, f := OrEmpty(InsertAll(rs, ss)), ip.family;
    InsertAllShaped(rs, ss, f);
    var d := LookupFindsDeepest(root, ip, ss, 0, MaxBits(f));
    forall e | 0 <= e <= |ss| && Cut(ss, e) <= MaxBits(f)
      ensures RoutesAt(root, Fields(ip, ss, 0, e)) == MatchesAt(rs, ip, ss, Cut(ss, e))
    {
      AtDepth(rs, ip, ss, e);
    }
    LastNonEmptyIsDeepest(rs, ip, ss, d);
  }

  lemma AtDepth(rs: seq<Route>, ip: IPAddr, ss: seq<nat>, e: nat)
    requires AllValid(rs, ip.family) && ip.Valid() && Positive(ss)
    requires e <= |ss| && Cut(ss, e) <= MaxBits(ip.family)
    ensures RoutesAt(OrEmpty(InsertAll(rs, ss)), Fields(ip, ss, 0, e)) == MatchesAt(rs, ip, ss, Cut(ss, e))
  {
    var path := Fields(ip, ss, 0, e);
    InsertAllFiles(rs, ss, path);
    forall r | r in rs
      ensures Fields(r.networkAddr, ss, 0, StopLevel(r.prefixLength, ss, 0)) == path
         <==> Matches(r, ip, ss) && FiledAt(r, ss) == Cut(ss, e)
    {
      FiledOnPath(r, ip, ss, e);
    }
    SelectSame(rs, (r: Route) => Fields(r.networkAddr, ss, 0, StopLevel(r.prefixLength, ss, 0)) == path,
               (r: Route) => r.Valid() && Matches(r, ip, ss) && FiledAt(r, ss) == Cut(ss, e));
  }
}
