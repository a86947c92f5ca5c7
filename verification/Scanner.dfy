/** The block scanner (pkg/pinger/scaner.go): the send loop, the event drain and the in-flight counter of one block,
    over the probe tracker. The goroutines are interleaved step by step; MarkSent and the counter increment that
    follows it are one step. Runs are uncancelled and no probe is answered twice. */
module Scanner {
  import opened Wrappers
  import Tracker

  /** What is sent on the output channel. */
  datatype ProbeEvent = ProbeEvent(rtt: int, peer: nat)

  const NANOS_PER_MILLISECOND := 1_000_000

  /** Whole milliseconds of a duration in nanoseconds, rounded toward zero. */
  function Milliseconds(d: int): (ms: int)
    ensures d >= 0 ==> NANOS_PER_MILLISECOND * ms <= d < NANOS_PER_MILLISECOND * (ms + 1)
    ensures d < 0 ==> NANOS_PER_MILLISECOND * (ms - 1) < d <= NANOS_PER_MILLISECOND * ms
  {
    if d >= 0 then d / NANOS_PER_MILLISECOND else -(-d / NANOS_PER_MILLISECOND)
  }

  /** Times are in nanoseconds. */
  function NewProbeEvent(ev: Tracker.Entry): ProbeEvent {
    ProbeEvent(
      if |ev.receivedAt| > 0 then Milliseconds(ev.receivedAt[|ev.receivedAt| - 1] - ev.sentAt) else -1,
      ev.dst)
  }

  /** The send loop: taking the next address, writing a request, waiting for the counter, and done. */
  datatype MainPc = Taking | Writing | Waiting | Closed

  /** The drain: idle, holding an event it has received, or having sent it with the counter not yet reduced. */
  datatype DrainPc = Idle | Holding(ev: Tracker.Entry) | Delivered

  /** `inbox` are the positions of the tracker's events that the drain has not received yet; the channel may hand
      them out in any order. `taken` are the positions it has received, in order. `replied` is the history of
      answered sequence numbers. */
  datatype State = State(
    addrs: seq<nat>,
    tracker: Tracker.State,
    main: MainPc,
    numPktsSent: nat,
    inFlight: int,
    inbox: set<nat>,
    taken: seq<nat>,
    drain: DrainPc,
    output: seq<ProbeEvent>,
    replied: set<nat>)

  function Start(addrs: seq<nat>): State {
    State(addrs, Tracker.NewState(), Taking, 0, 0, {}, [], Idle, [], {})
  }

  datatype Action =
    | TakeAddress(ttl: int, now: int)
    | AddressesEnd
    | WriteRequest
    | CloseOutput
    | Reply(seqNo: nat, reply: Tracker.Reply, now: int)
    | Fire(timer: nat)
    | Timeout(seqNo: nat)
    | Cleanup(seqNo: nat)
    | TakeEvent(i: nat)
    | Deliver
    | Done

  /** The sends accepted by the tracker so far. */
  function NumMarked(s: State): nat {
    if s.main == Writing then s.numPktsSent + 1 else s.numPktsSent
  }

  predicate Enabled(s: State, a: Action) {
    match a
    case TakeAddress(_, _) => s.main == Taking && s.numPktsSent < |s.addrs|
    case AddressesEnd => s.main == Taking && s.numPktsSent == |s.addrs|
    case WriteRequest => s.main == Writing
    case CloseOutput => s.main == Waiting && s.inFlight == 0
    case Reply(seqNo, _, _) => seqNo !in s.replied
    case Fire(timer) => timer in s.tracker.armed
    case Timeout(seqNo) => seqNo in s.tracker.due
    case Cleanup(seqNo) => seqNo in s.tracker.cleanups
    case TakeEvent(i) => s.drain == Idle && i in s.inbox && i < |s.tracker.emitted|
    case Deliver => s.drain.Holding?
    case Done => s.drain == Delivered
  }

  /** The tracker moves on by one request; the event it may emit joins the inbox. */
  function WithTracker(s: State, tracker: Tracker.State): State {
    s.(tracker := tracker,
       inbox := if |tracker.emitted| > |s.tracker.emitted| then s.inbox + {|s.tracker.emitted|} else s.inbox)
  }

  function Apply(s: State, a: Action): State
    requires Enabled(s, a)
  {
    match a
    case TakeAddress(ttl, now) =>
      WithTracker(s, Tracker.Sent(s.tracker, s.numPktsSent + 1, ttl, s.addrs[s.numPktsSent], now))
        .(inFlight := s.inFlight + 1, main := Writing)
    case AddressesEnd => s.(main := Waiting)
    case WriteRequest => s.(numPktsSent := s.numPktsSent + 1, main := Taking)
    case CloseOutput => s.(main := Closed)
    case Reply(seqNo, reply, now) =>
      WithTracker(s, Tracker.Received(s.tracker, seqNo, reply, now)).(replied := s.replied + {seqNo})
    case Fire(timer) => WithTracker(s, Tracker.Apply(s.tracker, Tracker.Fire(timer)))
    case Timeout(seqNo) => WithTracker(s, Tracker.Apply(s.tracker, Tracker.Timeout(seqNo)))
    case Cleanup(seqNo) => WithTracker(s, Tracker.Apply(s.tracker, Tracker.Cleanup(seqNo)))
    case TakeEvent(i) =>
      s.(inbox := s.inbox - {i}, taken := s.taken + [i], drain := Holding(s.tracker.emitted[i]))
    case Deliver => s.(output := s.output + [NewProbeEvent(s.drain.ev)], drain := Delivered)
    case Done => s.(inFlight := s.inFlight - 1, drain := Idle)
  }

  // ----- invariants -----

  /** The numbers 1 to `k`. */
  function Upto(k: nat): (r: set<nat>)
    ensures |r| == k
    ensures forall n :: n in r <==> 1 <= n <= k
  {
    if k == 0 then {} else Upto(k - 1) + {k}
  }

  /** Probes are numbered 1, 2, 3, ... in the order of the addresses. */
  ghost predicate Numbered(total: nat, main: MainPc, numPktsSent: nat, marked: nat, sent: set<nat>) {
    && numPktsSent <= marked <= total
    && (main.Waiting? || main.Closed? ==> numPktsSent == total)
    && sent == Upto(marked)
  }

  /** An entry or event belongs to the address its number stands for. */
  ghost predicate Addressed(addrs: seq<nat>, e: Tracker.Entry) {
    1 <= e.seqNo <= |addrs| && e.dst == addrs[e.seqNo - 1]
  }

  /** Without duplicate replies every entry has at most one, and none before its number was answered. */
  ghost predicate EntrySound(addrs: seq<nat>, replied: set<nat>, n: nat, e: Tracker.Entry) {
    Addressed(addrs, e) && |e.receivedAt| <= 1 && (e.receivedAt != [] ==> n in replied)
  }

  /** Without duplicate replies every event settles its number. */
  ghost predicate Unduplicated(addrs: seq<nat>, tr: Tracker.State, replied: set<nat>) {
    && (forall n :: n in tr.store ==> EntrySound(addrs, replied, n, tr.store[n]))
    && (forall i :: 0 <= i < |tr.emitted| ==> Addressed(addrs, tr.emitted[i]) && tr.emitted[i].Settles())
    && |tr.emitted| == tr.ackedSeq
  }

  /** Every emitted event is in the inbox or has been received once; the received ones were sent on in order,
      except the one in hand. */
  ghost predicate Drained(log: seq<Tracker.Entry>, inbox: set<nat>, taken: seq<nat>, drain: DrainPc, output: seq<ProbeEvent>) {
    && (forall i :: i in inbox ==> i < |log|)
    && (forall j :: 0 <= j < |taken| ==> taken[j] < |log| && taken[j] !in inbox)
    && (forall j, k :: 0 <= j < k < |taken| ==> taken[j] != taken[k])
    && (forall i :: 0 <= i < |log| ==> i in inbox || i in taken)
    && |inbox| + |taken| == |log|
    && (drain.Holding? ==> taken != [] && drain.ev == log[taken[|taken| - 1]])
    && |output| == (if drain.Holding? then |taken| - 1 else |taken|)
    && forall j :: 0 <= j < |output| ==> output[j] == NewProbeEvent(log[taken[j]])
  }

  /** The counter is the number sent less the number delivered, plus the one whose Done is due. */
  ghost predicate Counted(main: MainPc, marked: nat, inFlight: int, drain: DrainPc, delivered: nat) {
    && inFlight == marked - delivered + (if drain == Delivered then 1 else 0)
    && (main == Closed ==> inFlight == 0)
  }

  ghost predicate Inv(s: State) {
    && !s.tracker.closed && Tracker.Inv(s.tracker)
    && Numbered(|s.addrs|, s.main, s.numPktsSent, NumMarked(s), s.tracker.sent)
    && Unduplicated(s.addrs, s.tracker, s.replied)
    && Drained(s.tracker.emitted, s.inbox, s.taken, s.drain, s.output)
    && Counted(s.main, NumMarked(s), s.inFlight, s.drain, |s.output|)
  }

  /** Delivered events, received events, emitted events and sends, in that order. */
  lemma Counts(s: State)
    requires Inv(s)
    ensures |s.output| <= |s.taken| <= |s.tracker.emitted|
    ensures |s.tracker.emitted| + |Tracker.UnAcked(s.tracker)| == NumMarked(s)
    ensures s.inFlight >= 0
    ensures s.drain == Delivered || s.drain.Holding? ==> s.inFlight > 0
  {
    hide Tracker.SettledOnce, Tracker.EntriesSound, Tracker.UnAcked;
  }

  /** Once the counter is at zero, every event has been delivered and no probe waits. */
  lemma ZeroMeansAllDelivered(s: State)
    requires Inv(s) && s.inFlight == 0
    ensures s.drain == Idle && s.inbox == {} && Tracker.UnAcked(s.tracker) == {}
    ensures |s.output| == |s.tracker.emitted| == NumMarked(s)
  {
    hide Tracker.UnAcked, Tracker.SettledOnce, Tracker.EntriesSound;
    Counts(s);
  }

  lemma DrainedEmit(log: seq<Tracker.Entry>, ev: Tracker.Entry, inbox: set<nat>, taken: seq<nat>, drain: DrainPc, output: seq<ProbeEvent>)
    requires Drained(log, inbox, taken, drain, output)
    ensures Drained(log + [ev], inbox + {|log|}, taken, drain, output)
  {
  }

  lemma DrainedTake(log: seq<Tracker.Entry>, inbox: set<nat>, taken: seq<nat>, i: nat, output: seq<ProbeEvent>)
    requires Drained(log, inbox, taken, Idle, output) && i in inbox && i < |log|
    ensures Drained(log, inbox - {i}, taken + [i], Holding(log[i]), output)
  {
    var taken' := taken + [i];
    assert taken'[|taken|] == i;
    forall k | 0 <= k < |log|
      ensures k in inbox - {i} || k in taken'
    {
      if k != i && k !in inbox {
        assert k in taken;
      }
    }
  }

  lemma DrainedDeliver(log: seq<Tracker.Entry>, inbox: set<nat>, taken: seq<nat>, ev: Tracker.Entry, output: seq<ProbeEvent>)
    requires Drained(log, inbox, taken, Holding(ev), output)
    ensures Drained(log, inbox, taken, Delivered, output + [NewProbeEvent(ev)])
  {
  }

  lemma DrainedDone(log: seq<Tracker.Entry>, inbox: set<nat>, taken: seq<nat>, output: seq<ProbeEvent>)
    requires Drained(log, inbox, taken, Delivered, output)
    ensures Drained(log, inbox, taken, Idle, output)
  {
  }

  lemma UnduplicatedSent(addrs: seq<nat>, tr: Tracker.State, replied: set<nat>, n: nat, ttl: int, now: int)
    requires Unduplicated(addrs, tr, replied) && 1 <= n <= |addrs|
    ensures Unduplicated(addrs, Tracker.Sent(tr, n, ttl, addrs[n - 1], now), replied)
  {
  }

  lemma UnduplicatedReceived(addrs: seq<nat>, tr: Tracker.State, replied: set<nat>, n: nat, reply: Tracker.Reply, now: int)
    requires Unduplicated(addrs, tr, replied) && Tracker.EntriesSound(tr) && n !in replied
    ensures Unduplicated(addrs, Tracker.Received(tr, n, reply, now), replied + {n})
  {
    hide Tracker.UnAcked;
    if !tr.closed && n in tr.store {
      assert EntrySound(addrs, replied, n, tr.store[n]);
      assert tr.store[n].receivedAt == [] && tr.store[n].raw == [];
    }
    forall m | m in tr.store
      ensures EntrySound(addrs, replied + {n}, m, tr.store[m])
    {
      assert EntrySound(addrs, replied, m, tr.store[m]);
    }
  }

  lemma UnduplicatedTimedOut(addrs: seq<nat>, tr: Tracker.State, replied: set<nat>, n: nat)
    requires Unduplicated(addrs, tr, replied)
    ensures Unduplicated(addrs, Tracker.TimedOut(tr, n), replied)
  {
    hide EntrySound;
    if n in tr.store {
      assert EntrySound(addrs, replied, n, tr.store[n]);
      CloneSound(addrs, replied, n, tr.store[n]);
    }
  }

  lemma CloneSound(addrs: seq<nat>, replied: set<nat>, n: nat, e: Tracker.Entry)
    requires EntrySound(addrs, replied, n, e)
    ensures Addressed(addrs, e.ReadonlyClone()) && e.ReadonlyClone().Settles()
  {
  }

  /** A request to the tracker that emits one event or none keeps the drain's books. */
  lemma TrackerMoves(s: State, tr: Tracker.State)
    requires Drained(s.tracker.emitted, s.inbox, s.taken, s.drain, s.output)
    requires tr.emitted == s.tracker.emitted
          || (|tr.emitted| > 0 && tr.emitted == s.tracker.emitted + [tr.emitted[|tr.emitted| - 1]])
    ensures var s' := WithTracker(s, tr); Drained(tr.emitted, s'.inbox, s'.taken, s'.drain, s'.output)
  {
    hide Drained;
    if tr.emitted != s.tracker.emitted {
      DrainedEmit(s.tracker.emitted, tr.emitted[|tr.emitted| - 1], s.inbox, s.taken, s.drain, s.output);
    }
  }

  lemma TakeAddressKeepsInv(s: State, ttl: int, now: int)
    requires Inv(s) && Enabled(s, TakeAddress(ttl, now))
    ensures Inv(Apply(s, TakeAddress(ttl, now)))
  {
    hide Unduplicated, Drained, Tracker.Inv, Tracker.UnAcked, Upto;
    var n := s.numPktsSent + 1;
    Tracker.SentKeepsInv(s.tracker, n, ttl, s.addrs[n - 1], now);
    UnduplicatedSent(s.addrs, s.tracker, s.replied, n, ttl, now);
    assert Upto(n) == Upto(n - 1) + {n};
  }

  lemma ReplyKeepsInv(s: State, seqNo: nat, reply: Tracker.Reply, now: int)
    requires Inv(s) && Enabled(s, Reply(seqNo, reply, now))
    ensures Inv(Apply(s, Reply(seqNo, reply, now)))
  {
    hide Unduplicated, Drained, Numbered, Counted, Tracker.UnAcked, Tracker.SettledOnce, Tracker.EntriesSound;
    Tracker.ReceivedKeepsInv(s.tracker, seqNo, reply, now);
    TrackerMoves(s, Tracker.Received(s.tracker, seqNo, reply, now));
    UnduplicatedReceived(s.addrs, s.tracker, s.replied, seqNo, reply, now);
  }

  lemma TrackerActionKeepsInv(s: State, a: Tracker.Action)
    requires Inv(s) && Tracker.Enabled(s.tracker, a) && (a.Fire? || a.Timeout? || a.Cleanup?)
    ensures Inv(WithTracker(s, Tracker.Apply(s.tracker, a)))
  {
    hide Drained, Numbered, Counted, Tracker.Inv;
    Tracker.ApplyKeepsInv(s.tracker, a);
    TrackerMoves(s, Tracker.Apply(s.tracker, a));
    if a.Timeout? {
      var tr := s.tracker.(due := s.tracker.due - multiset{a.seqNo});
      UnduplicatedTimedOut(s.addrs, tr, s.replied, a.seqNo);
    }
  }

  lemma DrainKeepsInv(s: State, a: Action)
    requires Inv(s) && Enabled(s, a) && (a.TakeEvent? || a.Deliver? || a.Done?)
    ensures Inv(Apply(s, a))
  {
    hide Unduplicated, Drained, Numbered, Tracker.Inv, Tracker.UnAcked;
    Counts(s);
    match a
    case TakeEvent(i) => DrainedTake(s.tracker.emitted, s.inbox, s.taken, i, s.output);
    case Deliver => DrainedDeliver(s.tracker.emitted, s.inbox, s.taken, s.drain.ev, s.output);
    case Done => DrainedDone(s.tracker.emitted, s.inbox, s.taken, s.output);
  }

  lemma ApplyKeepsInv(s: State, a: Action)
    requires Inv(s) && Enabled(s, a)
    ensures Inv(Apply(s, a))
  {
    hide Unduplicated, Drained, Tracker.Inv, Tracker.Apply;
    match a
    case TakeAddress(ttl, now) => TakeAddressKeepsInv(s, ttl, now);
    case Reply(seqNo, reply, now) => ReplyKeepsInv(s, seqNo, reply, now);
    case Fire(timer) => TrackerActionKeepsInv(s, Tracker.Fire(timer));
    case Timeout(seqNo) => TrackerActionKeepsInv(s, Tracker.Timeout(seqNo));
    case Cleanup(seqNo) => TrackerActionKeepsInv(s, Tracker.Cleanup(seqNo));
    case TakeEvent(_) => DrainKeepsInv(s, a);
    case Deliver => DrainKeepsInv(s, a);
    case Done => DrainKeepsInv(s, a);
    case AddressesEnd =>
    case WriteRequest =>
    case CloseOutput =>
  }

  /** `s` is reached from the start of a scan of `addrs` by some schedule. */
  ghost predicate Reaches(addrs: seq<nat>, actions: seq<Action>, s: State) {
    if actions == [] then s == Start(addrs)
    else
      var m := |actions| - 1;
      exists prev ::
        Reaches(addrs, actions[..m], prev) && Enabled(prev, actions[m]) && s == Apply(prev, actions[m])
  }

  lemma StartInv(addrs: seq<nat>)
    ensures Inv(Start(addrs))
  {
    assert Tracker.UnAcked(Start(addrs).tracker) == {};
  }

  lemma AddressesFixed(s: State, a: Action)
    requires Enabled(s, a)
    ensures Apply(s, a).addrs == s.addrs
  {
  }

  lemma {:induction false} ReachableInv(addrs: seq<nat>, actions: seq<Action>, s: State)
    requires Reaches(addrs, actions, s)
    ensures Inv(s) && s.addrs == addrs
  {
    hide Inv, Apply, Enabled;
    if actions == [] {
      StartInv(addrs);
    } else {
      var m := |actions| - 1;
      var prev :| Reaches(addrs, actions[..m], prev) && Enabled(prev, actions[m]) && s == Apply(prev, actions[m]);
      AddressesFixed(prev, actions[m]);
      ReachableInv(addrs, actions[..m], prev);
      ApplyKeepsInv(prev, actions[m]);
    }
  }

  /** The in-flight counter is the number sent less the number delivered (one more between a delivery and its Done);
      it is never negative, so the wait group cannot panic. */
  lemma InFlightIsSentMinusDelivered(addrs: seq<nat>, actions: seq<Action>, s: State)
    requires Reaches(addrs, actions, s)
    ensures s.inFlight == NumMarked(s) - |s.output| + (if s.drain == Delivered then 1 else 0) >= 0
    ensures Enabled(s, Done) ==> s.inFlight >= 1
  {
    hide Unduplicated, Drained, Numbered, Reaches, Tracker.Inv, Tracker.UnAcked;
    ReachableInv(addrs, actions, s);
    Counts(s);
  }

  /** Nothing is sent on the output after it closes: the drain has nothing in hand and can get nothing. */
  lemma NothingAfterClose(addrs: seq<nat>, actions: seq<Action>, s: State, a: Action)
    requires Reaches(addrs, actions, s) && s.main == Closed && Enabled(s, a)
    ensures !a.Deliver? && !a.TakeEvent? && Apply(s, a).output == s.output
  {
    ReachableInv(addrs, actions, s);
    ZeroMeansAllDelivered(s);
  }

  /** When the output closes it holds exactly one event for each address of the block, and no other event. */
  lemma FinishedScanIsComplete(addrs: seq<nat>, actions: seq<Action>, s: State)
    requires Reaches(addrs, actions, s) && s.main == Closed
    requires forall i, j :: 0 <= i < j < |addrs| ==> addrs[i] != addrs[j]
    ensures |s.output| == |addrs|
    ensures forall j :: 0 <= j < |s.output| ==> s.output[j].peer in addrs
    ensures forall x :: x in addrs ==> exists j :: 0 <= j < |s.output| && s.output[j].peer == x
    ensures forall j, k :: 0 <= j < k < |s.output| ==> s.output[j].peer != s.output[k].peer
  {
    hide Unduplicated, Drained, Numbered, Reaches, Tracker.Inv, Tracker.UnAcked;
    ReachableInv(addrs, actions, s);
    ZeroMeansAllDelivered(s);
    assert NumMarked(s) == |addrs| by {
      MarkedAtClose(s);
    }
    forall j | 0 <= j < |s.output|
      ensures s.output[j].peer in addrs
    {
      OutputIsAddressed(s, j);
    }
    forall x | x in addrs
      ensures exists j :: 0 <= j < |s.output| && s.output[j].peer == x
    {
      var i :| 0 <= i < |addrs| && addrs[i] == x;
      var j := OutputFor(s, i + 1);
    }
    forall j, k | 0 <= j < k < |s.output|
      ensures s.output[j].peer != s.output[k].peer
    {
      OutputIsAddressed(s, j);
      OutputIsAddressed(s, k);
      DistinctNumbers(s, s.taken[j], s.taken[k]);
    }
  }

  // ----- what the output tells -----

  /** How many addresses were taken, and how many requests written. */
  function SendsIn(actions: seq<Action>): nat {
    if actions == [] then 0 else SendsIn(actions[..|actions| - 1]) + (if actions[|actions| - 1].TakeAddress? then 1 else 0)
  }

  function WritesIn(actions: seq<Action>): nat {
    if actions == [] then 0 else WritesIn(actions[..|actions| - 1]) + (if actions[|actions| - 1] == WriteRequest then 1 else 0)
  }

  /** The request that action `a` makes to the tracker after `before`: the k-th address taken is sent to under number k. */
  function Requested(addrs: seq<nat>, before: seq<Action>, a: Action): seq<Tracker.Action> {
    match a
    case TakeAddress(ttl, now) =>
      var k := SendsIn(before);
      if k < |addrs| then [Tracker.Send(k + 1, ttl, addrs[k], now)] else []
    case Reply(seqNo, reply, now) => [Tracker.Action.Reply(seqNo, reply, now)]
    case Fire(timer) => [Tracker.Fire(timer)]
    case Timeout(seqNo) => [Tracker.Timeout(seqNo)]
    case Cleanup(seqNo) => [Tracker.Cleanup(seqNo)]
    case _ => []
  }

  /** The requests that a run makes to the tracker. */
  function Requests(addrs: seq<nat>, actions: seq<Action>): seq<Tracker.Action> {
    if actions == [] then []
    else
      var m := |actions| - 1;
      Requests(addrs, actions[..m]) + Requested(addrs, actions[..m], actions[m])
  }

  lemma RequestedIsActionOf(s: State, before: seq<Action>, a: Action)
    requires Enabled(s, a) && (a.TakeAddress? ==> s.numPktsSent == SendsIn(before))
    ensures Requested(s.addrs, before, a) == if TrackerActionOf(s, a).Some? then [TrackerActionOf(s, a).value] else []
    ensures TrackerActionOf(s, a).None? ==> Apply(s, a).tracker == s.tracker
  {
  }

  lemma CountsStep(s: State, before: seq<Action>, a: Action)
    requires Enabled(s, a) && NumMarked(s) == SendsIn(before) && s.numPktsSent == WritesIn(before)
    ensures NumMarked(Apply(s, a)) == SendsIn(before + [a]) && Apply(s, a).numPktsSent == WritesIn(before + [a])
  {
    hide Tracker.Apply, Tracker.Sent, Tracker.Received;
    assert (before + [a])[..|before|] == before;
  }

  ghost predicate RunsTracker(addrs: seq<nat>, actions: seq<Action>, s: State) {
    && Tracker.Reaches(Requests(addrs, actions), s.tracker)
    && NumMarked(s) == SendsIn(actions) && s.numPktsSent == WritesIn(actions)
  }

  lemma RequestsAppend(addrs: seq<nat>, before: seq<Action>, a: Action)
    ensures Requests(addrs, before + [a]) == Requests(addrs, before) + Requested(addrs, before, a)
  {
    hide Requested;
    assert (before + [a])[..|before|] == before;
  }

  lemma RunsTrackerStep(addrs: seq<nat>, before: seq<Action>, s: State, a: Action)
    requires Inv(s) && s.addrs == addrs && Enabled(s, a) && RunsTracker(addrs, before, s)
    ensures RunsTracker(addrs, before + [a], Apply(s, a))
  {
    hide Inv, Apply, Enabled, Tracker.Reaches, Requests, Requested, TrackerActionOf, NumMarked, SendsIn, WritesIn;
    if a.TakeAddress? {
      TakingIsNotWriting(s, a);
    }
    RequestedIsActionOf(s, before, a);
    CountsStep(s, before, a);
    RequestsAppend(addrs, before, a);
    if TrackerActionOf(s, a).Some? {
      FreshNumber(s, a);
      Tracker.StepTo(Requests(addrs, before), s.tracker, TrackerActionOf(s, a).value);
    } else {
      assert Requests(addrs, before) + [] == Requests(addrs, before);
    }
  }

  /** A scan runs the tracker by its requests; the probes marked are the addresses taken, and every one of them is written
      once, the last one perhaps not yet. */
  lemma {:induction false} ScanRunsTracker(addrs: seq<nat>, actions: seq<Action>, s: State)
    requires Reaches(addrs, actions, s)
    ensures RunsTracker(addrs, actions, s)
    ensures s.main == Closed ==> SendsIn(actions) == WritesIn(actions) == |addrs|
  {
    hide Inv, Apply, Enabled, RunsTracker;
    ReachableInv(addrs, actions, s);
    if actions == [] {
      NothingRequested(addrs);
    } else {
      var m := |actions| - 1;
      var prev :| Reaches(addrs, actions[..m], prev) && Enabled(prev, actions[m]) && s == Apply(prev, actions[m]);
      ReachableInv(addrs, actions[..m], prev);
      ScanRunsTracker(addrs, actions[..m], prev);
      RunsTrackerStep(addrs, actions[..m], prev, actions[m]);
      assert actions == actions[..m] + [actions[m]];
    }
    if s.main == Closed {
      ClosedHasAll(actions, s);
    }
  }

  lemma ClosedHasAll(actions: seq<Action>, s: State)
    requires Inv(s) && s.main == Closed && RunsTracker(s.addrs, actions, s)
    ensures SendsIn(actions) == WritesIn(actions) == |s.addrs|
  {
    hide Tracker.Reaches, Requests, SendsIn, WritesIn;
  }

  lemma TakingIsNotWriting(s: State, a: Action)
    requires Enabled(s, a) && a.TakeAddress?
    ensures NumMarked(s) == s.numPktsSent
  {
  }

  lemma NothingRequested(addrs: seq<nat>)
    ensures RunsTracker(addrs, [], Start(addrs))
  {
  }

  /** Where in the run the k-th request was made. */
  lemma {:induction false} PositionOf(addrs: seq<nat>, actions: seq<Action>, k: nat) returns (i: nat)
    requires k < |Requests(addrs, actions)|
    ensures i < |actions| && |Requests(addrs, actions[..i])| == k
    ensures Requested(addrs, actions[..i], actions[i]) == [Requests(addrs, actions)[k]]
  {
    hide Requested;
    var m := |actions| - 1;
    RequestedOnce(addrs, actions[..m], actions[m]);
    if k < |Requests(addrs, actions[..m])| {
      i := PositionOf(addrs, actions[..m], k);
      assert actions[..m][..i] == actions[..i];
    } else {
      i := m;
    }
  }

  lemma RequestedOnce(addrs: seq<nat>, before: seq<Action>, a: Action)
    ensures |Requested(addrs, before, a)| <= 1
  {
  }

  lemma {:induction false} RequestsGrow(addrs: seq<nat>, actions: seq<Action>, i: nat)
    requires i <= |actions|
    ensures |Requests(addrs, actions[..i])| <= |Requests(addrs, actions)|
    decreases |actions|
  {
    hide Requested;
    if i < |actions| {
      RequestsGrow(addrs, actions[..|actions| - 1], i);
      assert actions[..|actions| - 1][..i] == actions[..i];
    } else {
      assert actions[..i] == actions;
    }
  }

  /** Requests are made in the order of the actions. */
  lemma InOrder(addrs: seq<nat>, actions: seq<Action>, i: nat, k: nat)
    requires i < |actions| && k < |actions|
    requires |Requests(addrs, actions[..i])| < |Requests(addrs, actions[..k])|
    ensures i < k
  {
    hide Requests;
    if k <= i {
      assert actions[..i][..k] == actions[..k];
      RequestsGrow(addrs, actions[..i], k);
    }
  }

  /** The probe sent at position `i`: under the next number, to the next address. */
  ghost predicate Probes(addrs: seq<nat>, actions: seq<Action>, i: nat, n: nat) {
    i < |actions| && actions[i].TakeAddress? && n == SendsIn(actions[..i]) + 1 && n <= |addrs|
  }

  /** A reply at position `k` to probe `n`, sent at position `i`, is what the event tells. */
  ghost predicate TellsReply(actions: seq<Action>, i: nat, n: nat, k: nat, rtt: int) {
    && i < k < |actions| && actions[i].TakeAddress? && actions[k].Reply? && actions[k].seqNo == n
    && rtt == Milliseconds(actions[k].now - actions[i].now)
  }

  /** A timeout of the probe at position `k` is what the event tells. */
  ghost predicate TellsTimeout(actions: seq<Action>, i: nat, n: nat, k: nat, rtt: int) {
    i < k < |actions| && actions[k] == Timeout(n) && rtt == -1
  }

  /** Every output tells the outcome of one probe, from the time its address was taken: the address, and the time from then
      to the reply in whole milliseconds, or -1 when the probe timed out. */
  lemma OutputTellsOutcome(addrs: seq<nat>, actions: seq<Action>, s: State, j: nat) returns (i: nat, n: nat, k: nat)
    requires Reaches(addrs, actions, s) && j < |s.output|
    ensures Probes(addrs, actions, i, n) && s.output[j].peer == addrs[n - 1]
    ensures TellsReply(actions, i, n, k, s.output[j].rtt) || TellsTimeout(actions, i, n, k, s.output[j].rtt)
  {
    hide Reaches, Inv, Requests, Tracker.Events, Tracker.Sources, NewProbeEvent;
    ReachableInv(addrs, actions, s);
    ScanRunsTracker(addrs, actions, s);
    var requests := Requests(addrs, actions);
    Tracker.StateTellsHistory(requests, s.tracker);
    var e := OutputEvent(s, j);
    var x, ys := Tracker.EventHasSources(requests, s.taken[j]);
    i, n, k := EventOutcome(addrs, actions, e, x, ys);
  }

  lemma OutputEvent(s: State, j: nat) returns (e: Tracker.Entry)
    requires Inv(s) && j < |s.output|
    ensures j < |s.taken| && s.taken[j] < |s.tracker.emitted| && e == s.tracker.emitted[s.taken[j]]
    ensures |e.receivedAt| <= 1 && s.output[j] == NewProbeEvent(e)
  {
    hide Numbered, Counted, Tracker.Inv;
    e := s.tracker.emitted[s.taken[j]];
  }

  /** From the tracker's requests back to the actions of the scan. */
  lemma EventOutcome(addrs: seq<nat>, actions: seq<Action>, e: Tracker.Entry, x: nat, ys: seq<nat>)
    returns (i: nat, n: nat, k: nat)
    requires Tracker.Sources(Requests(addrs, actions), e, x, ys) && |e.receivedAt| <= 1
    requires e.receivedAt == [] ==>
               exists y :: x < y < |Requests(addrs, actions)| && Requests(addrs, actions)[y] == Tracker.Timeout(e.seqNo)
    ensures Probes(addrs, actions, i, n) && NewProbeEvent(e).peer == addrs[n - 1]
    ensures TellsReply(actions, i, n, k, NewProbeEvent(e).rtt) || TellsTimeout(actions, i, n, k, NewProbeEvent(e).rtt)
  {
    hide Requests, SendsIn, Milliseconds;
    i := PositionOf(addrs, actions, x);
    n := e.seqNo;
    var y: nat;
    if e.receivedAt == [] {
      y :| x < y < |Requests(addrs, actions)| && Requests(addrs, actions)[y] == Tracker.Timeout(e.seqNo);
    } else {
      y := ys[0];
    }
    k := PositionOf(addrs, actions, y);
    InOrder(addrs, actions, i, k);
  }

  /** A reply to a waiting probe that was not answered before can come at any time, and its round-trip time can be told. */
  lemma ReplyCanBeTold(addrs: seq<nat>, actions: seq<Action>, s: State, n: nat, reply: Tracker.Reply, now: int)
    returns (actions': seq<Action>, s': State)
    requires Reaches(addrs, actions, s) && n in Tracker.UnAcked(s.tracker) && n !in s.replied
    ensures actions + [Reply(n, reply, now)] <= actions' && Reaches(addrs, actions', s')
    ensures 1 <= n <= |addrs| && s.tracker.store[n].dst == addrs[n - 1]
    ensures s'.output != [] && s'.output[|s'.output| - 1] == ProbeEvent(Milliseconds(now - s.tracker.store[n].sentAt), addrs[n - 1])
  {
    hide Reaches, Inv, Milliseconds, Tracker.UnAcked, Tracker.Sent, Tracker.TimedOut, Tracker.CleanedUp;
    ReachableInv(addrs, actions, s);
    WaitingIsAddressed(s, n);
    var e := s.tracker.store[n].(timer := None, receivedAt := [now], raw := [reply]);
    actions', s' := StepTo(addrs, actions, s, Reply(n, reply, now));
    assert [] + [now] == [now] && [] + [reply] == [reply];
    assert s'.tracker.emitted == s.tracker.emitted + [e];
    var last: nat := |s.tracker.emitted|;
    if s'.drain.Holding? {
      actions', s' := StepTo(addrs, actions', s', Deliver);
    }
    if s'.drain == Delivered {
      actions', s' := StepTo(addrs, actions', s', Done);
    }
    actions', s' := StepTo(addrs, actions', s', TakeEvent(last));
    actions', s' := StepTo(addrs, actions', s', Deliver);
  }

  lemma WaitingIsAddressed(s: State, n: nat)
    requires Inv(s) && n in Tracker.UnAcked(s.tracker)
    ensures !s.tracker.closed && n in s.tracker.store && s.tracker.store[n].receivedAt == [] && s.tracker.store[n].raw == []
    ensures 1 <= n <= |s.addrs| && s.tracker.store[n].seqNo == n && s.tracker.store[n].dst == s.addrs[n - 1]
  {
    hide Numbered, Drained, Counted, Tracker.SettledOnce;
  }

  lemma StepTo(addrs: seq<nat>, actions: seq<Action>, s: State, a: Action) returns (actions': seq<Action>, s': State)
    requires Reaches(addrs, actions, s) && Enabled(s, a)
    ensures actions' == actions + [a] && s' == Apply(s, a) && Reaches(addrs, actions', s')
  {
    actions', s' := actions + [a], Apply(s, a);
    assert actions'[..|actions|] == actions;
  }

  /** The tracker keeps a timer running or due for every waiting probe, all through a scan. */
  lemma {:induction false} ScanWatches(addrs: seq<nat>, actions: seq<Action>, s: State)
    requires Reaches(addrs, actions, s)
    ensures Tracker.Watched(s.tracker)
  {
    if actions != [] {
      var m := |actions| - 1;
      var prev :| Reaches(addrs, actions[..m], prev) && Enabled(prev, actions[m]) && s == Apply(prev, actions[m]);
      ReachableInv(addrs, actions[..m], prev);
      ScanWatches(addrs, actions[..m], prev);
      StepWatches(prev, actions[m]);
    }
  }

  lemma StepWatches(s: State, a: Action)
    requires Inv(s) && Tracker.Watched(s.tracker) && Enabled(s, a)
    ensures Tracker.Watched(Apply(s, a).tracker)
  {
    hide Unduplicated, Drained, Numbered, Tracker.Watched, Tracker.EntriesSound, Tracker.Apply;
    if TrackerActionOf(s, a).Some? {
      FreshNumber(s, a);
      Tracker.ApplyKeepsWatched(s.tracker, TrackerActionOf(s, a).value);
    }
  }

  /** The request an action makes to the tracker. */
  function TrackerActionOf(s: State, a: Action): Option<Tracker.Action>
    requires Enabled(s, a)
  {
    match a
    case TakeAddress(ttl, now) => Some(Tracker.Send(s.numPktsSent + 1, ttl, s.addrs[s.numPktsSent], now))
    case Reply(seqNo, reply, now) => Some(Tracker.Action.Reply(seqNo, reply, now))
    case Fire(timer) => Some(Tracker.Fire(timer))
    case Timeout(seqNo) => Some(Tracker.Timeout(seqNo))
    case Cleanup(seqNo) => Some(Tracker.Cleanup(seqNo))
    case _ => None
  }

  lemma NextIsFresh(s: State)
    requires Inv(s) && s.main == Taking
    ensures s.numPktsSent + 1 !in s.tracker.sent
  {
    hide Unduplicated, Drained, Tracker.Inv;
  }

  lemma FreshNumber(s: State, a: Action)
    requires Inv(s) && Enabled(s, a) && TrackerActionOf(s, a).Some?
    ensures var ta := TrackerActionOf(s, a).value;
            Tracker.Enabled(s.tracker, ta) && Apply(s, a).tracker == Tracker.Apply(s.tracker, ta)
  {
    hide Inv, Tracker.Sent, Tracker.Received, Tracker.TimedOut, Tracker.CleanedUp;
    if a.TakeAddress? {
      NextIsFresh(s);
    }
  }

  /** A scan never gets stuck: until the output is closed some step of its own goroutines or timers can be taken,
      without any further reply. */
  lemma NeverStuck(addrs: seq<nat>, actions: seq<Action>, s: State) returns (a: Action)
    requires Reaches(addrs, actions, s) && s.main != Closed
    ensures Enabled(s, a) && !a.Reply?
  {
    hide Unduplicated, Drained, Reaches, Tracker.Inv, Tracker.Watched, Tracker.UnAcked;
    ReachableInv(addrs, actions, s);
    ScanWatches(addrs, actions, s);
    if s.main == Writing {
      a := WriteRequest;
    } else if s.main == Taking {
      a := if s.numPktsSent < |addrs| then TakeAddress(0, 0) else AddressesEnd;
    } else if s.drain.Holding? {
      a := Deliver;
    } else if s.drain == Delivered {
      a := Done;
    } else if s.inFlight == 0 {
      a := CloseOutput;
    } else {
      var e := SomethingPending(s);
      if e.None? {
        var i :| i in s.inbox && i < |s.tracker.emitted|;
        a := TakeEvent(i);
      } else {
        var pending := Tracker.PendingTimer(s.tracker, e.value);
        a := if pending.Timeout? then Timeout(pending.seqNo) else Fire(pending.timer);
      }
    }
  }

  /** With the counter above zero and the drain idle, an event waits in the inbox or a probe waits in the tracker. */
  lemma SomethingPending(s: State) returns (e: Option<nat>)
    requires Inv(s) && s.drain == Idle && s.inFlight != 0
    ensures e.None? ==> exists i :: i in s.inbox && i < |s.tracker.emitted|
    ensures e.Some? ==> e.value in Tracker.UnAcked(s.tracker)
  {
    hide Tracker.UnAcked, Tracker.Inv;
    Counts(s);
    if s.inbox != {} {
      var i :| i in s.inbox;
      e := None;
    } else {
      var n :| n in Tracker.UnAcked(s.tracker);
      e := Some(n);
    }
  }

  lemma MarkedAtClose(s: State)
    requires Inv(s) && s.main == Closed
    ensures NumMarked(s) == |s.addrs|
  {
  }

  /** An output event is about the address its probe's number stands for. */
  lemma OutputIsAddressed(s: State, j: nat)
    requires Inv(s) && j < |s.output|
    ensures j < |s.taken| && s.taken[j] < |s.tracker.emitted|
    ensures var e := s.tracker.emitted[s.taken[j]];
            1 <= e.seqNo <= |s.addrs| && s.output[j].peer == s.addrs[e.seqNo - 1]
    ensures forall k :: 0 <= k < |s.output| && k < |s.taken| && k != j ==> s.taken[k] != s.taken[j]
  {
    hide Numbered, Tracker.Inv;
  }

  /** Every probe that has settled and been delivered has its output event. */
  lemma OutputFor(s: State, n: nat) returns (j: nat)
    requires Inv(s) && s.inbox == {} && s.drain == Idle && 1 <= n <= NumMarked(s) && n !in Tracker.UnAcked(s.tracker)
    ensures j < |s.output| && s.output[j].peer == s.addrs[n - 1]
  {
    hide Tracker.UnAcked;
    var e := EventOf(s, n);
    assert e in s.taken;
    j :| 0 <= j < |s.taken| && s.taken[j] == e;
  }

  /** The event that settled a probe. */
  lemma EventOf(s: State, n: nat) returns (e: nat)
    requires Inv(s) && n in s.tracker.sent && n !in Tracker.UnAcked(s.tracker)
    ensures e < |s.tracker.emitted| && s.tracker.emitted[e].seqNo == n
  {
    e := SettlingPosition(s.tracker.emitted, n);
  }

  lemma {:induction false} SettlingPosition(log: seq<Tracker.Entry>, n: nat) returns (e: nat)
    requires Tracker.Settlings(log, n) >= 1
    ensures e < |log| && log[e].seqNo == n
  {
    e := |log| - 1;
    if log[e].seqNo != n || !log[e].Settles() {
      e := SettlingPosition(log[..e], n);
    }
  }

  lemma DistinctNumbers(s: State, d: nat, e: nat)
    requires Inv(s) && d < |s.tracker.emitted| && e < |s.tracker.emitted| && d != e
    ensures s.tracker.emitted[d].seqNo != s.tracker.emitted[e].seqNo
  {
    var log := s.tracker.emitted;
    if log[d].seqNo == log[e].seqNo {
      Tracker.SettlingsOfTwo(log, if d < e then d else e, if d < e then e else d);
      assert false;
    }
  }
}
