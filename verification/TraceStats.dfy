/** The traceroute statistics (web/apis/trace.ts): what the fold of events into hops and peers keeps. */
module TraceStats {
  import opened Wrappers
  import StableSort

  /** The parts of an event that the statistics read. Round-trip times are whole milliseconds. */
  datatype TraceEvent = TraceEvent(
    Seq: int, RTTMs: int, Peer: string, PeerRDNS: string, ASN: string, ISP: string, City: string,
    CountryAlpha2: string, Timeout: bool, OriginTTL: int, LastHop: bool, PMTU: Option<int>)

  function CompareSeq(a: TraceEvent, b: TraceEvent): int {
    a.Seq - b.Seq
  }

  function SeqOf(e: TraceEvent): int {
    e.Seq
  }

  datatype PeerStats = PeerStats(
    Peer: string, PeerRDNS: string, ASN: string, ISP: string, City: string, CountryAlpha2: string,
    Events: seq<TraceEvent>, ReceivedCount: int, LossCount: int, MinRTT: int, MaxRTT: int, TotalRTT: int,
    PMTU: Option<int>)
  {
    /** The floor of the mean; 0 when nothing was received. */
    function AvgRTT(): int {
      if ReceivedCount == 0 then 0 else TotalRTT / ReceivedCount
    }

    function WriteEvent(ev: TraceEvent): PeerStats {
      var newEvents := StableSort.Sort(Events + [ev], CompareSeq);
      var peer := if Peer != "" then Peer else ev.Peer;
      if ev.Timeout then this.(Peer := peer, Events := newEvents, LossCount := LossCount + 1)
      else PeerStats(
        peer,
        if ev.PeerRDNS != "" then ev.PeerRDNS else PeerRDNS,
        if ev.ASN != "" then ev.ASN else ASN,
        if ev.ISP != "" then ev.ISP else ISP,
        if ev.City != "" then ev.City else City,
        if ev.CountryAlpha2 != "" then ev.CountryAlpha2 else CountryAlpha2,
        newEvents,
        ReceivedCount + 1,
        LossCount,
        if MinRTT == -1 || ev.RTTMs < MinRTT then ev.RTTMs else MinRTT,
        if MaxRTT == -1 || ev.RTTMs > MaxRTT then ev.RTTMs else MaxRTT,
        TotalRTT + ev.RTTMs,
        if ev.PMTU.Some? then ev.PMTU else PMTU)
    }
  }

  function NewPeerStats(): PeerStats {
    PeerStats("", "", "", "", "", "", [], 0, 0, -1, -1, 0, None)
  }

  function PeerKey(ev: TraceEvent): string {
    if ev.Timeout || ev.Peer == "" then "*" else ev.Peer
  }

  /** The peer with the latest packet first. */
  function ComparePeers(peers: map<string, PeerStats>): (string, string) -> int {
    (a, b) =>
      if a !in peers || |peers[a].Events| == 0 then 1
      else if b !in peers || |peers[b].Events| == 0 then -1
      else peers[b].Events[|peers[b].Events| - 1].Seq - peers[a].Events[|peers[a].Events| - 1].Seq
  }

  /** `keys` are the keys of `Peers` in the order of their insertion. */
  datatype HopGroup = HopGroup(TTL: int, Peers: map<string, PeerStats>, keys: seq<string>, PeerOrder: seq<string>)
  {
    function WriteEvent(ev: TraceEvent): HopGroup {
      var peerKey := PeerKey(ev);
      var newPeer := if peerKey in Peers then Peers[peerKey].WriteEvent(ev) else NewPeerStats().WriteEvent(ev);
      var newPeers := Peers[peerKey := newPeer];
      var newKeys := if peerKey in Peers then keys else keys + [peerKey];
      HopGroup(TTL, newPeers, newKeys, StableSort.Sort(newKeys, ComparePeers(newPeers)))
    }
  }

  function NewHopGroup(ttl: int): HopGroup {
    HopGroup(ttl, map[], [], [])
  }

  function HopOf(ev: TraceEvent): int {
    if ev.OriginTTL <= 0 then 1 else ev.OriginTTL
  }

  /** `filter`: the hops up to `hopTTL`. */
  function UpTo(order: seq<int>, hopTTL: int): seq<int> {
    if order == [] then []
    else UpTo(order[..|order| - 1], hopTTL) + (if order[|order| - 1] <= hopTTL then [order[|order| - 1]] else [])
  }

  datatype TraceStats = TraceStats(Hops: map<int, HopGroup>, HopOrder: seq<int>) {
    function WriteEvent(ev: TraceEvent): TraceStats {
      var hopTTL := HopOf(ev);
      var newHop := if hopTTL in Hops then Hops[hopTTL].WriteEvent(ev) else NewHopGroup(hopTTL).WriteEvent(ev);
      var newHops := Hops[hopTTL := newHop];
      var newHopOrder := if hopTTL in Hops then HopOrder else StableSort.Sort(HopOrder + [hopTTL], StableSort.Difference);
      if ev.LastHop then
        TraceStats(map ttl | ttl in newHops && ttl <= hopTTL :: newHops[ttl], UpTo(newHopOrder, hopTTL))
      else TraceStats(newHops, newHopOrder)
    }
  }

  function PeerOf(events: seq<TraceEvent>): PeerStats {
    if events == [] then NewPeerStats() else PeerOf(events[..|events| - 1]).WriteEvent(events[|events| - 1])
  }

  function GroupOf(ttl: int, events: seq<TraceEvent>): HopGroup {
    if events == [] then NewHopGroup(ttl) else GroupOf(ttl, events[..|events| - 1]).WriteEvent(events[|events| - 1])
  }

  function TraceOf(events: seq<TraceEvent>): TraceStats {
    if events == [] then TraceStats(map[], [])
    else TraceOf(events[..|events| - 1]).WriteEvent(events[|events| - 1])
  }

  // ----- one peer -----

  /** The events that carried a reply. */
  function Replies(events: seq<TraceEvent>): seq<TraceEvent> {
    if events == [] then []
    else Replies(events[..|events| - 1]) + (if events[|events| - 1].Timeout then [] else [events[|events| - 1]])
  }

  function SumRTT(events: seq<TraceEvent>): int {
    if events == [] then 0 else SumRTT(events[..|events| - 1]) + events[|events| - 1].RTTMs
  }

  /** `m` is the least of the round-trip times. */
  ghost predicate IsMinRTT(events: seq<TraceEvent>, m: int) {
    && (forall i :: 0 <= i < |events| ==> m <= events[i].RTTMs)
    && exists i :: 0 <= i < |events| && m == events[i].RTTMs
  }

  ghost predicate IsMaxRTT(events: seq<TraceEvent>, m: int) {
    && (forall i :: 0 <= i < |events| ==> m >= events[i].RTTMs)
    && exists i :: 0 <= i < |events| && m == events[i].RTTMs
  }

  ghost predicate NonNegative(events: seq<TraceEvent>) {
    forall i :: 0 <= i < |events| ==> events[i].RTTMs >= 0
  }

  lemma RanksBySeq(events: seq<TraceEvent>)
    ensures StableSort.Ranks(events, CompareSeq, SeqOf)
  {
  }

  /** The events of a peer are those written, sorted by sequence number, equal numbers in the order of arrival. */
  lemma {:induction false} PeerEvents(events: seq<TraceEvent>)
    ensures PeerOf(events).Events == StableSort.Sort(events, CompareSeq)
    ensures StableSort.Sorts(events, SeqOf, PeerOf(events).Events)
  {
    hide StableSort.Sort, StableSort.Sorts, StableSort.Ranks;
    RanksBySeq(events);
    StableSort.SortSorts(events, CompareSeq, SeqOf);
    if events != [] {
      var front, last := events[..|events| - 1], events[|events| - 1];
      PeerEvents(front);
      assert front + [last] == events;
      StableSort.SortOfSorted(front, last, CompareSeq, SeqOf);
    } else {
      EmptySort();
    }
  }

  lemma EmptySort()
    ensures StableSort.Sort<TraceEvent>([], CompareSeq) == []
  {
  }

  lemma {:induction false} RepliesNonNegative(events: seq<TraceEvent>)
    requires NonNegative(events)
    ensures NonNegative(Replies(events)) && |Replies(events)| <= |events|
  {
    if events != [] {
      RepliesNonNegative(events[..|events| - 1]);
    }
  }

  ghost predicate Extremes(p: PeerStats, replies: seq<TraceEvent>) {
    if replies == [] then p.MinRTT == -1 && p.MaxRTT == -1
    else IsMinRTT(replies, p.MinRTT) && IsMaxRTT(replies, p.MaxRTT) && p.MinRTT >= 0
  }

  lemma ExtremesStep(p: PeerStats, replies: seq<TraceEvent>, ev: TraceEvent)
    requires Extremes(p, replies) && NonNegative(replies) && ev.RTTMs >= 0 && !ev.Timeout
    ensures Extremes(p.WriteEvent(ev), replies + [ev])
  {
    hide StableSort.Sort;
    var p', replies' := p.WriteEvent(ev), replies + [ev];
    assert replies'[|replies|] == ev;
    if replies != [] {
      var i :| 0 <= i < |replies| && p.MinRTT == replies[i].RTTMs;
      var j :| 0 <= j < |replies| && p.MaxRTT == replies[j].RTTMs;
      assert replies'[i] == replies[i] && replies'[j] == replies[j];
    }
  }

  lemma {:induction false} PeerExtremes(events: seq<TraceEvent>)
    requires NonNegative(events)
    ensures Extremes(PeerOf(events), Replies(events))
  {
    hide StableSort.Sort, Extremes;
    if events == [] {
      NoExtremes();
    } else {
      var front, ev := events[..|events| - 1], events[|events| - 1];
      PeerExtremes(front);
      RepliesNonNegative(front);
      if ev.Timeout {
        SameExtremes(PeerOf(front), ev, Replies(front));
      } else {
        ExtremesStep(PeerOf(front), Replies(front), ev);
      }
    }
  }

  lemma NoExtremes()
    ensures Extremes(PeerOf([]), Replies([]))
  {
  }

  lemma SameExtremes(p: PeerStats, ev: TraceEvent, replies: seq<TraceEvent>)
    requires Extremes(p, replies) && ev.Timeout
    ensures Extremes(p.WriteEvent(ev), replies + [])
  {
    hide StableSort.Sort;
    assert replies + [] == replies;
  }

  lemma {:induction false} PeerCounts(events: seq<TraceEvent>)
    ensures var p := PeerOf(events);
            && p.ReceivedCount == |Replies(events)|
            && p.ReceivedCount + p.LossCount == |events|
            && p.TotalRTT == SumRTT(Replies(events))
  {
    hide StableSort.Sort;
    if events != [] {
      var front, ev := events[..|events| - 1], events[|events| - 1];
      PeerCounts(front);
      if ev.Timeout {
        assert Replies(events) == Replies(front);
      } else {
        assert (Replies(front) + [ev])[..|Replies(front)|] == Replies(front);
      }
    }
  }

  lemma {:induction false} SumBetween(events: seq<TraceEvent>, lo: int, hi: int)
    requires forall i :: 0 <= i < |events| ==> lo <= events[i].RTTMs <= hi
    ensures |events| * lo <= SumRTT(events) <= |events| * hi
  {
    if events != [] {
      var m := |events| - 1;
      SumBetween(events[..m], lo, hi);
      assert (m + 1) * lo == m * lo + lo && (m + 1) * hi == m * hi + hi;
    }
  }

  /** The numbers shown for a peer are those of the events written to it: counts, extremes and total of the replies;
      the average is the whole part of the mean, and lies between the extremes. */
  lemma PeerNumbers(events: seq<TraceEvent>)
    requires NonNegative(events)
    ensures var p, replies := PeerOf(events), Replies(events);
            && p.ReceivedCount == |replies| && p.LossCount == |events| - |replies|
            && p.TotalRTT == SumRTT(replies)
            && Extremes(p, replies)
            && (replies != [] ==> 0 <= p.MinRTT <= p.AvgRTT() <= p.MaxRTT)
            && (replies != [] ==> |replies| * p.AvgRTT() <= SumRTT(replies) < |replies| * (p.AvgRTT() + 1))
            && (replies == [] ==> p.AvgRTT() == 0)
  {
    hide PeerOf, Replies, SumRTT;
    var p, replies := PeerOf(events), Replies(events);
    PeerCounts(events);
    PeerExtremes(events);
    if replies != [] {
      SumBetween(replies, p.MinRTT, p.MaxRTT);
      FloorBetween(p.TotalRTT, p.ReceivedCount, p.MinRTT, p.MaxRTT);
      FloorIsExact(p.TotalRTT, p.ReceivedCount);
    }
  }

  lemma FloorBetween(total: int, n: int, lo: int, hi: int)
    requires n > 0 && n * lo <= total <= n * hi
    ensures lo <= total / n <= hi
  {
    var q, r := total / n, total % n;
    assert total == n * q + r && 0 <= r < n;
    assert n * (q + 1) == n * q + n && n * (hi + 1) == n * hi + n;
    if q + 1 <= lo {
      MulMonotonic(n, q + 1, lo);
    }
    if hi + 1 <= q {
      MulMonotonic(n, hi + 1, q);
    }
  }

  lemma FloorIsExact(total: int, n: int)
    requires n > 0
    ensures n * (total / n) <= total < n * (total / n + 1)
  {
    assert n * (total / n + 1) == n * (total / n) + n;
  }

  lemma MulMonotonic(n: int, a: int, b: int)
    requires n > 0 && a <= b
    ensures n * a <= n * b
  {
  }

  /** The last value of an attribute that was not empty. */
  function LastKnown(replies: seq<TraceEvent>, attribute: TraceEvent -> string): string {
    if replies == [] then ""
    else if attribute(replies[|replies| - 1]) != "" then attribute(replies[|replies| - 1])
    else LastKnown(replies[..|replies| - 1], attribute)
  }

  function LastPMTU(replies: seq<TraceEvent>): Option<int> {
    if replies == [] then None
    else if replies[|replies| - 1].PMTU.Some? then replies[|replies| - 1].PMTU
    else LastPMTU(replies[..|replies| - 1])
  }

  function RDNSOf(e: TraceEvent): string { e.PeerRDNS }
  function ASNOf(e: TraceEvent): string { e.ASN }
  function ISPOf(e: TraceEvent): string { e.ISP }
  function CityOf(e: TraceEvent): string { e.City }
  function CountryOf(e: TraceEvent): string { e.CountryAlpha2 }

  /** The first name that an event carried. */
  function FirstName(events: seq<TraceEvent>): string {
    if events == [] then ""
    else if events[0].Peer != "" then events[0].Peer
    else FirstName(events[1..])
  }

  lemma {:induction false} FirstNameAppend(events: seq<TraceEvent>, ev: TraceEvent)
    ensures FirstName(events + [ev]) == if FirstName(events) != "" then FirstName(events) else ev.Peer
  {
    if events == [] {
      assert (events + [ev])[1..] == [];
    } else {
      assert (events + [ev])[1..] == events[1..] + [ev];
      FirstNameAppend(events[1..], ev);
    }
  }

  /** Statistics carry the first name that came with an event, reply or timeout. */
  lemma {:induction false} PeerNamedFirst(events: seq<TraceEvent>)
    ensures PeerOf(events).Peer == FirstName(events)
  {
    hide StableSort.Sort, FirstName;
    if events == [] {
      Unnamed();
    } else {
      var front, last := events[..|events| - 1], events[|events| - 1];
      PeerNamedFirst(front);
      assert events == front + [last];
      FirstNameAppend(front, last);
    }
  }

  lemma Unnamed()
    ensures FirstName([]) == ""
  {
  }

  /** Every attribute shown for a peer is the last one a reply carried; timeouts never change it. */
  lemma {:induction false} PeerAttributes(events: seq<TraceEvent>)
    ensures var p, replies := PeerOf(events), Replies(events);
            && p.PeerRDNS == LastKnown(replies, RDNSOf) && p.ASN == LastKnown(replies, ASNOf)
            && p.ISP == LastKnown(replies, ISPOf) && p.City == LastKnown(replies, CityOf)
            && p.CountryAlpha2 == LastKnown(replies, CountryOf) && p.PMTU == LastPMTU(replies)
  {
    hide StableSort.Sort;
    if events != [] {
      var front, ev := events[..|events| - 1], events[|events| - 1];
      PeerAttributes(front);
      if ev.Timeout {
        assert Replies(events) == Replies(front);
      } else {
        assert (Replies(front) + [ev])[..|Replies(front)|] == Replies(front);
      }
    }
  }

  // ----- one hop -----

  /** The events of one peer, in order. */
  function OfPeer(events: seq<TraceEvent>, key: string): seq<TraceEvent> {
    if events == [] then []
    else OfPeer(events[..|events| - 1], key)
         + (if PeerKey(events[|events| - 1]) == key then [events[|events| - 1]] else [])
  }

  ghost predicate GroupSound(g: HopGroup, ttl: int, events: seq<TraceEvent>) {
    && g.TTL == ttl
    && (forall k :: k in g.Peers <==> OfPeer(events, k) != [])
    && (forall k :: k in g.Peers ==> g.Peers[k] == PeerOf(OfPeer(events, k)))
  }

  /** `keys` lists the keys of the map, each once. */
  ghost predicate KeysSound(g: HopGroup) {
    && (forall i :: 0 <= i < |g.keys| ==> g.keys[i] in g.Peers)
    && (forall k :: k in g.Peers ==> k in g.keys)
    && forall i, j :: 0 <= i < j < |g.keys| ==> g.keys[i] != g.keys[j]
  }

  lemma OfPeerLast(events: seq<TraceEvent>, key: string)
    requires events != []
    ensures var front, ev := events[..|events| - 1], events[|events| - 1];
            && (PeerKey(ev) == key ==> OfPeer(events, key) == OfPeer(front, key) + [ev] != [])
            && (PeerKey(ev) != key ==> OfPeer(events, key) == OfPeer(front, key))
  {
  }

  lemma PeerOfAppend(events: seq<TraceEvent>, ev: TraceEvent)
    ensures PeerOf(events + [ev]) == PeerOf(events).WriteEvent(ev)
    ensures PeerOf([]) == NewPeerStats()
  {
    assert (events + [ev])[..|events|] == events;
  }

  lemma GroupStep(g: HopGroup, ttl: int, events: seq<TraceEvent>)
    requires events != [] && GroupSound(g, ttl, events[..|events| - 1])
    ensures GroupSound(g.WriteEvent(events[|events| - 1]), ttl, events)
  {
    hide StableSort.Sort, PeerStats.WriteEvent, NewPeerStats, OfPeer, PeerOf, PeerKey;
    var front, ev := events[..|events| - 1], events[|events| - 1];
    var key, g' := PeerKey(ev), g.WriteEvent(ev);
    OfPeerLast(events, key);
    PeerOfAppend(OfPeer(front, key), ev);
    forall k | k != key
      ensures (k in g'.Peers <==> OfPeer(events, k) != [])
      ensures k in g'.Peers ==> g'.Peers[k] == PeerOf(OfPeer(events, k))
    {
      OfPeerLast(events, k);
    }
  }

  /** A list of keys stays without repetition when a new one is put behind it. */
  lemma KeysAppend(keys: seq<string>, key: string)
    requires key !in keys && forall i, j :: 0 <= i < j < |keys| ==> keys[i] != keys[j]
    ensures forall i, j :: 0 <= i < j < |keys + [key]| ==> (keys + [key])[i] != (keys + [key])[j]
    ensures forall k :: k in keys + [key] <==> k in keys || k == key
  {
    assert (keys + [key])[|keys|] == key;
  }

  lemma KeysStep(g: HopGroup, ev: TraceEvent)
    requires KeysSound(g)
    ensures KeysSound(g.WriteEvent(ev))
  {
    hide StableSort.Sort, PeerStats.WriteEvent, NewPeerStats, PeerKey;
    var key := PeerKey(ev);
    if key !in g.Peers {
      assert key !in g.keys;
      KeysAppend(g.keys, key);
    }
  }

  lemma {:induction false} GroupIsSound(ttl: int, events: seq<TraceEvent>)
    ensures GroupSound(GroupOf(ttl, events), ttl, events) && KeysSound(GroupOf(ttl, events))
  {
    hide GroupSound, KeysSound, HopGroup.WriteEvent;
    if events == [] {
      EmptyGroup(ttl);
    } else {
      GroupIsSound(ttl, events[..|events| - 1]);
      GroupStep(GroupOf(ttl, events[..|events| - 1]), ttl, events);
      KeysStep(GroupOf(ttl, events[..|events| - 1]), events[|events| - 1]);
    }
  }

  lemma EmptyGroup(ttl: int)
    ensures GroupSound(GroupOf(ttl, []), ttl, []) && KeysSound(GroupOf(ttl, []))
  {
  }

  /** Ascending in this rank is descending in the latest sequence number. */
  function PeerRank(peers: map<string, PeerStats>): string -> int {
    k => if k !in peers || |peers[k].Events| == 0 then 0 else -peers[k].Events[|peers[k].Events| - 1].Seq
  }

  /** A peer has an entry exactly when an event was written for it, and its entry is the fold of just its own events.
      The peer order lists every peer once, the one with the latest packet first. */
  lemma GroupShowsPeers(ttl: int, events: seq<TraceEvent>)
    ensures var g := GroupOf(ttl, events);
            && GroupSound(g, ttl, events)
            && KeysSound(g)
            && StableSort.Sorts(g.keys, PeerRank(g.Peers), g.PeerOrder)
            && forall k :: k in g.Peers ==> g.Peers[k].Events != []
  {
    hide StableSort.Sorts, GroupSound, KeysSound, GroupOf;
    var g := GroupOf(ttl, events);
    GroupIsSound(ttl, events);
    PeersNonempty(g, ttl, events);
    PeersSorted(g);
    GroupOrder(ttl, events);
  }

  lemma PeersNonempty(g: HopGroup, ttl: int, events: seq<TraceEvent>)
    requires GroupSound(g, ttl, events)
    ensures forall k :: k in g.Peers ==> g.Peers[k].Events != []
  {
    hide PeerOf, OfPeer;
    forall k | k in g.Peers
      ensures g.Peers[k].Events != []
    {
      EventsNonempty(OfPeer(events, k));
    }
  }

  lemma PeersSorted(g: HopGroup)
    requires KeysSound(g) && forall k :: k in g.Peers ==> g.Peers[k].Events != []
    ensures StableSort.Sorts(g.keys, PeerRank(g.Peers), StableSort.Sort(g.keys, ComparePeers(g.Peers)))
  {
    hide StableSort.Sort, StableSort.Sorts, StableSort.Ranks, ComparePeers, PeerRank;
    RanksByPeer(g.keys, g.Peers);
    StableSort.SortSorts(g.keys, ComparePeers(g.Peers), PeerRank(g.Peers));
  }

  lemma GroupOrder(ttl: int, events: seq<TraceEvent>)
    ensures var g := GroupOf(ttl, events); g.PeerOrder == StableSort.Sort(g.keys, ComparePeers(g.Peers))
  {
    hide PeerStats.WriteEvent, NewPeerStats, ComparePeers;
  }

  lemma EventsNonempty(events: seq<TraceEvent>)
    requires events != []
    ensures PeerOf(events).Events != []
  {
    hide PeerOf, StableSort.Sort;
    PeerEvents(events);
    assert |multiset(PeerOf(events).Events)| == |multiset(events)| == |events|;
  }

  lemma RanksByPeer(keys: seq<string>, peers: map<string, PeerStats>)
    requires forall i :: 0 <= i < |keys| ==> keys[i] in peers
    requires forall k :: k in peers ==> peers[k].Events != []
    ensures StableSort.Ranks(keys, ComparePeers(peers), PeerRank(peers))
  {
  }

  // ----- the whole trace -----

  /** The events of hop `h` since a last-hop event at a lower hop cut it off. */
  function Recent(events: seq<TraceEvent>, h: int): seq<TraceEvent> {
    if events == [] then []
    else
      var ev := events[|events| - 1];
      if ev.LastHop && HopOf(ev) < h then []
      else Recent(events[..|events| - 1], h) + (if HopOf(ev) == h then [ev] else [])
  }

  ghost predicate HopsSound(t: TraceStats, events: seq<TraceEvent>) {
    && (forall h :: h in t.Hops <==> Recent(events, h) != [])
    && (forall h :: h in t.Hops ==> h >= 1 && t.Hops[h] == GroupOf(h, Recent(events, h)))
  }

  ghost predicate StrictlyIncreasing(order: seq<int>) {
    forall i, j :: 0 <= i < j < |order| ==> order[i] < order[j]
  }

  ghost predicate OrderSound(t: TraceStats) {
    && StrictlyIncreasing(t.HopOrder)
    && forall h :: h in t.Hops <==> h in t.HopOrder
  }

  lemma RecentLast(events: seq<TraceEvent>, h: int)
    requires events != []
    ensures var front, ev := events[..|events| - 1], events[|events| - 1];
            && (HopOf(ev) == h ==> Recent(events, h) == Recent(front, h) + [ev] != [])
            && (HopOf(ev) != h ==> Recent(events, h) == if ev.LastHop && HopOf(ev) < h then [] else Recent(front, h))
  {
  }

  lemma GroupOfAppend(ttl: int, events: seq<TraceEvent>, ev: TraceEvent)
    ensures GroupOf(ttl, events + [ev]) == GroupOf(ttl, events).WriteEvent(ev)
    ensures GroupOf(ttl, []) == NewHopGroup(ttl)
  {
    hide HopGroup.WriteEvent;
    assert (events + [ev])[..|events|] == events;
  }

  lemma HopsStep(t: TraceStats, events: seq<TraceEvent>)
    requires events != [] && HopsSound(t, events[..|events| - 1])
    ensures HopsSound(t.WriteEvent(events[|events| - 1]), events)
  {
    hide StableSort.Sort, HopGroup.WriteEvent, NewHopGroup, UpTo, Recent, GroupOf;
    var front, ev := events[..|events| - 1], events[|events| - 1];
    var hop, t' := HopOf(ev), t.WriteEvent(ev);
    RecentLast(events, hop);
    GroupOfAppend(hop, Recent(front, hop), ev);
    forall h | h != hop
      ensures (h in t'.Hops <==> Recent(events, h) != [])
      ensures h in t'.Hops ==> h >= 1 && t'.Hops[h] == GroupOf(h, Recent(events, h))
    {
      RecentLast(events, h);
    }
  }

  lemma {:induction false} UpToKeeps(order: seq<int>, hop: int)
    requires StrictlyIncreasing(order)
    ensures StrictlyIncreasing(UpTo(order, hop))
    ensures forall h :: h in UpTo(order, hop) <==> h in order && h <= hop
  {
    if order != [] {
      var m := |order| - 1;
      UpToKeeps(order[..m], hop);
      assert order == order[..m] + [order[m]];
      var r := UpTo(order[..m], hop);
      forall i | 0 <= i < |r|
        ensures r[i] < order[m]
      {
        assert r[i] in r;
        var j :| 0 <= j < m && order[..m][j] == r[i];
        assert order[j] < order[m];
      }
    }
  }

  lemma SortedWithNew(order: seq<int>, hop: int)
    requires StrictlyIncreasing(order) && hop !in order
    ensures StrictlyIncreasing(StableSort.Sort(order + [hop], StableSort.Difference))
    ensures forall h :: h in StableSort.Sort(order + [hop], StableSort.Difference) <==> h in order || h == hop
  {
    hide StableSort.Sort, StableSort.OfRank;
    var all := order + [hop];
    var r := StableSort.Sort(all, StableSort.Difference);
    StableSort.SortSorts(all, StableSort.Difference, StableSort.Itself);
    forall h
      ensures h in r <==> h in order || h == hop
    {
      assert h in r <==> h in multiset(r);
      assert h in all <==> h in multiset(all);
    }
    forall i, j | 0 <= i < j < |r|
      ensures r[i] < r[j]
    {
      assert StableSort.Itself(r[i]) <= StableSort.Itself(r[j]);
      StableSort.KeepsDistinct(all, r);
    }
  }

  lemma OrderStep(t: TraceStats, ev: TraceEvent)
    requires OrderSound(t)
    ensures OrderSound(t.WriteEvent(ev))
  {
    hide StableSort.Sort, HopGroup.WriteEvent, NewHopGroup, UpTo, StrictlyIncreasing;
    var hop := HopOf(ev);
    if hop !in t.Hops {
      SortedWithNew(t.HopOrder, hop);
    }
    var newHopOrder := if hop in t.Hops then t.HopOrder else StableSort.Sort(t.HopOrder + [hop], StableSort.Difference);
    UpToKeeps(newHopOrder, hop);
  }

  lemma {:induction false} TraceIsSound(events: seq<TraceEvent>)
    ensures HopsSound(TraceOf(events), events) && OrderSound(TraceOf(events))
  {
    hide HopsSound, OrderSound, TraceStats.WriteEvent;
    if events == [] {
      EmptyTrace();
    } else {
      TraceIsSound(events[..|events| - 1]);
      HopsStep(TraceOf(events[..|events| - 1]), events);
      OrderStep(TraceOf(events[..|events| - 1]), events[|events| - 1]);
    }
  }

  lemma EmptyTrace()
    ensures HopsSound(TraceOf([]), []) && OrderSound(TraceOf([]))
  {
  }

  /** For every sequence of events: a hop is shown exactly when it had an event since a last-hop event below it, and
      shows exactly the fold of those events; the hop order is strictly increasing and lists exactly the hops shown;
      and after a last-hop event no higher hop is left. */
  lemma TraceShowsRecentEvents(events: seq<TraceEvent>)
    ensures var t := TraceOf(events);
            && HopsSound(t, events)
            && StrictlyIncreasing(t.HopOrder)
            && (forall h :: h in t.Hops <==> h in t.HopOrder)
    ensures events != [] && events[|events| - 1].LastHop ==>
              forall h :: h in TraceOf(events).Hops ==> h <= HopOf(events[|events| - 1])
  {
    hide TraceOf, GroupOf;
    TraceIsSound(events);
  }

  lemma {:induction false} OfPeerKeys(events: seq<TraceEvent>, key: string)
    ensures forall i :: 0 <= i < |OfPeer(events, key)| ==> PeerKey(OfPeer(events, key)[i]) == key
  {
    if events != [] {
      OfPeerKeys(events[..|events| - 1], key);
    }
  }

  /** The statistics of a peer carry its name, but for those of timeouts and nameless replies. */
  lemma {:induction false} PeerName(events: seq<TraceEvent>, key: string)
    requires events != [] && key != "*" && forall i :: 0 <= i < |events| ==> PeerKey(events[i]) == key
    ensures PeerOf(events).Peer == key
  {
    hide StableSort.Sort;
    var front, last := events[..|events| - 1], events[|events| - 1];
    assert last.Peer == key != "";
    if front != [] {
      PeerName(front, key);
    }
  }

  /** From the events to the screen: what the trace shows for a peer at a hop are the events of that peer at that hop
      since it was last cut off, each once and in the order of their numbers. */
  lemma TraceShowsPeerEvents(events: seq<TraceEvent>, h: int, k: string)
    ensures var t, mine := TraceOf(events), OfPeer(Recent(events, h), k);
            && (h in t.Hops && k in t.Hops[h].Peers <==> mine != [])
            && (mine != [] ==>
                  && t.Hops[h].Peers[k] == PeerOf(mine)
                  && (k != "*" ==> t.Hops[h].Peers[k].Peer == k)
                  && StableSort.Sorts(mine, SeqOf, t.Hops[h].Peers[k].Events))
  {
    hide TraceOf, GroupOf, PeerOf, StableSort.Sorts;
    TraceIsSound(events);
    var recent := Recent(events, h);
    if recent != [] {
      GroupIsSound(h, recent);
      var mine := OfPeer(recent, k);
      PeerEvents(mine);
      OfPeerKeys(recent, k);
      if mine != [] && k != "*" {
        PeerName(mine, k);
      }
    }
  }

  lemma {:induction false} OfPeerHolds(events: seq<TraceEvent>, key: string, e: TraceEvent)
    ensures e in OfPeer(events, key) <==> e in events && PeerKey(e) == key
  {
    if events != [] {
      var front, last := events[..|events| - 1], events[|events| - 1];
      OfPeerHolds(front, key, e);
      assert events == front + [last];
    }
  }

  lemma {:induction false} RecentHolds(events: seq<TraceEvent>, h: int, e: TraceEvent)
    ensures e in Recent(events, h) ==> e in events && HopOf(e) == h
  {
    if events != [] {
      var front, last := events[..|events| - 1], events[|events| - 1];
      RecentHolds(front, h, e);
      assert events == front + [last];
    }
  }

  /** The trace shows the event at this hop for this peer. */
  ghost predicate Shows(t: TraceStats, h: int, k: string, e: TraceEvent) {
    h in t.Hops && k in t.Hops[h].Peers && e in t.Hops[h].Peers[k].Events
  }

  lemma SameEvents(mine: seq<TraceEvent>, shown: seq<TraceEvent>, e: TraceEvent)
    requires StableSort.Sorts(mine, SeqOf, shown)
    ensures e in shown <==> e in mine
  {
    hide StableSort.OfRank;
    assert e in shown <==> e in multiset(shown);
    assert e in mine <==> e in multiset(mine);
  }

  lemma ShownIsMine(events: seq<TraceEvent>, h: int, k: string, e: TraceEvent)
    ensures Shows(TraceOf(events), h, k, e) <==> e in OfPeer(Recent(events, h), k)
  {
    hide TraceOf, StableSort.Sorts, PeerOf;
    TraceShowsPeerEvents(events, h, k);
    var t, mine := TraceOf(events), OfPeer(Recent(events, h), k);
    if mine != [] {
      SameEvents(mine, t.Hops[h].Peers[k].Events, e);
    }
  }

  /** An event is shown at the hop of its TTL, or at the first when it has none, under its peer, or under "*" when it is a
      timeout or names none: there as soon as it is written, and nowhere else at any time. */
  lemma EventShownAtItsHop(events: seq<TraceEvent>, ev: TraceEvent, h: int, k: string, e: TraceEvent)
    ensures Shows(TraceOf(events + [ev]), if ev.OriginTTL >= 1 then ev.OriginTTL else 1,
                  if ev.Timeout || ev.Peer == "" then "*" else ev.Peer, ev)
    ensures Shows(TraceOf(events), h, k, e) ==>
              && e in events
              && h == (if e.OriginTTL >= 1 then e.OriginTTL else 1)
              && k == (if e.Timeout || e.Peer == "" then "*" else e.Peer)
  {
    hide TraceOf, Recent, OfPeer, Shows;
    ShownIsMine(events, h, k, e);
    OfPeerHolds(Recent(events, h), k, e);
    RecentHolds(events, h, e);
    var own := if ev.OriginTTL >= 1 then ev.OriginTTL else 1;
    assert (events + [ev])[..|events|] == events;
    RecentLast(events + [ev], own);
    ShownIsMine(events + [ev], own, PeerKey(ev), ev);
    OfPeerHolds(Recent(events + [ev], own), PeerKey(ev), ev);
  }
}
