/** The stop-and-wait pinger (pkg/pinger/ping.go): the event-generating loop and the sending loop of one target, over
    the probe tracker and the one-place control channel between them. Runs are uncancelled, the transceiver does not
    fail, and no probe is answered twice. */
module Pinger {
  import opened Wrappers
  import Tracker

  /** The event-generating loop: waiting for an event; holding one; having passed it on and about to read the number
      of unacknowledged packets; about to read the number of acknowledged ones; about to signal the next send; done. */
  datatype GenPc = Waiting | Holding(ev: Tracker.Entry) | ReadingUnAcked | ReadingAcked | Signalling | Stopped

  /** `ctrl` is the control channel (capacity one), holding the numbers of packets to send. `inbox` are the positions of
      the tracker's events not yet received. `sends` is the history of numbers marked sent, `replied` of those answered. */
  datatype State = State(
    totalPkts: Option<int>,
    tracker: Tracker.State,
    ctrl: seq<nat>,
    gen: GenPc,
    numPktsSent: nat,
    inbox: set<nat>,
    output: seq<Tracker.Entry>,
    sends: seq<nat>,
    replied: set<nat>)

  function Start(totalPkts: Option<int>): State {
    State(totalPkts, Tracker.NewState(), [1], Waiting, 0, {}, [], [], {})
  }

  datatype Action =
    | TakeEvent(i: nat)
    | PassOn
    | ReadUnAcked
    | ReadAcked
    | Signal
    | SendNext(ttl: int, dst: nat, now: int)
    | Reply(seqNo: nat, reply: Tracker.Reply, now: int)
    | Fire(timer: nat)
    | Timeout(seqNo: nat)
    | Cleanup(seqNo: nat)

  predicate Enabled(s: State, a: Action) {
    match a
    case TakeEvent(i) => s.gen == Waiting && i in s.inbox && i < |s.tracker.emitted|
    case PassOn => s.gen.Holding?
    case ReadUnAcked => s.gen == ReadingUnAcked
    case ReadAcked => s.gen == ReadingAcked
    case Signal => s.gen == Signalling && |s.ctrl| < 1
    case SendNext(_, _, _) => |s.ctrl| > 0
    case Reply(seqNo, _, _) => seqNo !in s.replied
    case Fire(timer) => timer in s.tracker.armed
    case Timeout(seqNo) => seqNo in s.tracker.due
    case Cleanup(seqNo) => seqNo in s.tracker.cleanups
  }

  /** The tracker moves on by one request; the event it may emit joins the inbox. */
  function WithTracker(s: State, tracker: Tracker.State): State {
    s.(tracker := tracker,
       inbox := if |tracker.emitted| > |s.tracker.emitted| then s.inbox + {|s.tracker.emitted|} else s.inbox)
  }

  function Apply(s: State, a: Action): State
    requires Enabled(s, a)
  {
    match a
    case TakeEvent(i) => s.(inbox := s.inbox - {i}, gen := Holding(s.tracker.emitted[i]))
    case PassOn =>
      s.(output := s.output + [s.gen.ev],
         numPktsSent := s.numPktsSent + 1,
         gen := if s.totalPkts.Some? then ReadingUnAcked else Signalling)
    case ReadUnAcked => s.(gen := if |Tracker.UnAcked(s.tracker)| == 0 then ReadingAcked else Signalling)
    case ReadAcked => s.(gen := if Some(s.tracker.ackedSeq) == s.totalPkts then Stopped else Signalling)
    case Signal => s.(ctrl := s.ctrl + [s.numPktsSent + 1], gen := Waiting)
    case SendNext(ttl, dst, now) =>
      WithTracker(s, Tracker.Sent(s.tracker, s.ctrl[0], ttl, dst, now))
        .(ctrl := s.ctrl[1..], sends := s.sends + [s.ctrl[0]])
    case Reply(seqNo, reply, now) =>
      WithTracker(s, Tracker.Received(s.tracker, seqNo, reply, now)).(replied := s.replied + {seqNo})
    case Fire(timer) => WithTracker(s, Tracker.Apply(s.tracker, Tracker.Fire(timer)))
    case Timeout(seqNo) => WithTracker(s, Tracker.Apply(s.tracker, Tracker.Timeout(seqNo)))
    case Cleanup(seqNo) => WithTracker(s, Tracker.Apply(s.tracker, Tracker.Cleanup(seqNo)))
  }

  // ----- invariants -----

  /** The packets sent are numbered 1, 2, 3, ... and only the last one may still be waiting. */
  ghost predicate InOrder(sends: seq<nat>, tr: Tracker.State) {
    && (forall i :: 0 <= i < |sends| ==> sends[i] == i + 1)
    && (forall n :: n in tr.sent <==> 1 <= n <= |sends|)
    && |tr.sent| == |sends|
    && Tracker.UnAcked(tr) <= {|sends|}
  }

  /** Without duplicate replies every event settles its packet, so events come in the order of the packets. */
  ghost predicate Unduplicated(tr: Tracker.State, replied: set<nat>) {
    && (forall n :: n in tr.store && tr.store[n].receivedAt != [] ==> n in replied)
    && |tr.emitted| == tr.ackedSeq
    && forall i :: 0 <= i < |tr.emitted| ==> tr.emitted[i].seqNo == i + 1
  }

  /** The events received so far. */
  function NumTaken(s: State): nat {
    if s.gen.Holding? then |s.output| + 1 else |s.output|
  }

  ghost predicate Received(s: State) {
    && NumTaken(s) <= |s.tracker.emitted|
    && (forall i :: i in s.inbox <==> NumTaken(s) <= i < |s.tracker.emitted|)
    && |s.inbox| == |s.tracker.emitted| - NumTaken(s)
    && s.output <= s.tracker.emitted
    && (s.gen.Holding? ==> s.gen.ev == s.tracker.emitted[|s.output|])
    && s.numPktsSent == |s.output|
  }

  /** One token goes round: a signal to send, a packet in flight, an event, or the generator at work on one. */
  function Token(ctrl: nat, unAcked: nat, inbox: nat, gen: GenPc): nat {
    ctrl + unAcked + inbox + (if gen == Waiting then 0 else 1)
  }

  /** With a limit of `n` packets, at most `n` are ever sent or signalled, and the loop stops at `n` exactly. */
  ghost predicate WithinLimit(s: State) {
    && (s.ctrl != [] ==> s.ctrl[0] == |s.sends| + 1)
    && (s.gen == Stopped ==> s.totalPkts == Some(|s.output|) && |s.output| > 0)
    && (s.gen == ReadingUnAcked || s.gen == ReadingAcked ==> s.totalPkts.Some? && |s.output| > 0)
    && (s.totalPkts.Some? && s.totalPkts.value >= 1 ==>
          && |s.sends| + |s.ctrl| <= s.totalPkts.value
          && (s.gen == Signalling ==> |s.sends| < s.totalPkts.value))
  }

  ghost predicate Inv(s: State) {
    && !s.tracker.closed && Tracker.Inv(s.tracker)
    && InOrder(s.sends, s.tracker)
    && Unduplicated(s.tracker, s.replied)
    && Received(s)
    && Token(|s.ctrl|, |Tracker.UnAcked(s.tracker)|, |s.inbox|, s.gen) == 1
    && WithinLimit(s)
  }

  /** Events received, events emitted and packets sent. */
  lemma Counts(s: State)
    requires Inv(s)
    ensures |s.tracker.emitted| + |Tracker.UnAcked(s.tracker)| == |s.sends|
    ensures NumTaken(s) + |s.inbox| == |s.tracker.emitted|
    ensures s.gen != Waiting ==>
              s.ctrl == [] && Tracker.UnAcked(s.tracker) == {} && s.inbox == {} && NumTaken(s) == s.tracker.ackedSeq == |s.sends|
    ensures s.ctrl != [] ==> Tracker.UnAcked(s.tracker) == {} && |s.output| == |s.sends|
  {
    hide Tracker.UnAcked, Tracker.SettledOnce, Tracker.EntriesSound;
  }

  lemma GeneratorKeepsInv(s: State, a: Action)
    requires Inv(s) && Enabled(s, a) && (a.TakeEvent? || a.PassOn? || a.ReadUnAcked? || a.ReadAcked? || a.Signal?)
    ensures Inv(Apply(s, a))
  {
    hide Tracker.UnAcked, Tracker.Inv, InOrder;
    Counts(s);
  }

  lemma SendKeepsInv(s: State, ttl: int, dst: nat, now: int)
    requires Inv(s) && Enabled(s, SendNext(ttl, dst, now))
    ensures Inv(Apply(s, SendNext(ttl, dst, now)))
  {
    hide Tracker.UnAcked, Tracker.Inv;
    Counts(s);
    Tracker.SentKeepsInv(s.tracker, s.ctrl[0], ttl, dst, now);
  }

  /** A request that settles the packet in flight, or nothing. */
  lemma SettlingMove(s: State, tr: Tracker.State, replied: set<nat>, n: nat)
    requires Inv(s) && s.replied <= replied && Unduplicated(tr, replied)
    requires !tr.closed && Tracker.Inv(tr) && tr.sent == s.tracker.sent
    requires Tracker.UnAcked(tr) == Tracker.UnAcked(s.tracker) - {n}
    requires if n in Tracker.UnAcked(s.tracker)
             then |tr.emitted| == |s.tracker.emitted| + 1 && s.tracker.emitted <= tr.emitted
             else tr.emitted == s.tracker.emitted
    ensures Inv(WithTracker(s, tr).(replied := replied))
  {
    hide Tracker.UnAcked, Tracker.Inv, Unduplicated, Received, WithinLimit;
    if n in Tracker.UnAcked(s.tracker) {
      assert Tracker.UnAcked(s.tracker) == {n};
      SettledMove(s, tr, replied, n);
    } else {
      assert Tracker.UnAcked(tr) == Tracker.UnAcked(s.tracker);
      UnsettledMove(s, tr, replied);
    }
  }

  lemma SettledMove(s: State, tr: Tracker.State, replied: set<nat>, n: nat)
    requires Inv(s) && Tracker.UnAcked(s.tracker) == {n} && Tracker.UnAcked(tr) == {}
    requires |tr.emitted| == |s.tracker.emitted| + 1 && s.tracker.emitted <= tr.emitted
    ensures var s' := WithTracker(s, tr).(replied := replied);
            && Received(s') && WithinLimit(s')
            && Token(|s'.ctrl|, |Tracker.UnAcked(tr)|, |s'.inbox|, s'.gen) == 1
  {
    hide Tracker.UnAcked, Tracker.Inv, InOrder, Unduplicated;
  }

  lemma UnsettledMove(s: State, tr: Tracker.State, replied: set<nat>)
    requires Inv(s) && Tracker.UnAcked(tr) == Tracker.UnAcked(s.tracker) && tr.emitted == s.tracker.emitted
    ensures var s' := WithTracker(s, tr).(replied := replied);
            && Received(s') && WithinLimit(s')
            && Token(|s'.ctrl|, |Tracker.UnAcked(tr)|, |s'.inbox|, s'.gen) == 1
  {
    hide Tracker.UnAcked, Tracker.Inv, InOrder, Unduplicated;
  }

  /** A first reply to the packet in flight is the next event, and every other reply is ignored. */
  lemma ReplyUnduplicated(tr: Tracker.State, replied: set<nat>, n: nat, reply: Tracker.Reply, now: int)
    requires Tracker.EntriesSound(tr) && !tr.closed && Unduplicated(tr, replied) && n !in replied
    requires n in tr.store ==> n == |tr.emitted| + 1
    ensures var tr' := Tracker.Received(tr, n, reply, now);
            && Unduplicated(tr', replied + {n})
            && (n in tr.store <==> n in Tracker.UnAcked(tr))
            && tr'.sent == tr.sent && !tr'.closed
            && (if n in tr.store then |tr'.emitted| == |tr.emitted| + 1 && tr.emitted <= tr'.emitted
                else tr'.emitted == tr.emitted)
  {
    if n in tr.store {
      assert tr.store[n].receivedAt == [] && tr.store[n].raw == [];
    }
  }

  /** Only the last packet can be waiting, so an entry that was never answered is that packet. */
  lemma UnansweredIsLast(s: State, n: nat)
    requires Inv(s) && n !in s.replied && n in s.tracker.store
    ensures n == |s.tracker.emitted| + 1
  {
    hide Received, WithinLimit, Tracker.SettledOnce;
    Counts(s);
    assert n in Tracker.UnAcked(s.tracker);
    hide Tracker.UnAcked;
  }

  lemma ReplyIsSettling(s: State, n: nat, reply: Tracker.Reply, now: int)
    requires Inv(s) && n !in s.replied
    ensures Inv(Apply(s, Reply(n, reply, now)))
  {
    hide Received, WithinLimit, InOrder, Unduplicated, Tracker.Received, Tracker.UnAcked, Tracker.SettledOnce;
    var tr := Tracker.Received(s.tracker, n, reply, now);
    if n in s.tracker.store {
      UnansweredIsLast(s, n);
    }
    Tracker.ReceivedKeepsInv(s.tracker, n, reply, now);
    ReplyUnduplicated(s.tracker, s.replied, n, reply, now);
    SettlingMove(s, tr, s.replied + {n}, n);
  }

  /** A timeout of the packet in flight is the next event, and every other timeout emits nothing. */
  lemma TimeoutUnduplicated(tr: Tracker.State, replied: set<nat>, n: nat)
    requires Tracker.EntriesSound(tr) && !tr.closed && Unduplicated(tr, replied)
    requires n in Tracker.UnAcked(tr) ==> n == |tr.emitted| + 1
    ensures var tr' := Tracker.TimedOut(tr, n);
            && Unduplicated(tr', replied)
            && tr'.sent == tr.sent && !tr'.closed
            && (if n in Tracker.UnAcked(tr) then |tr'.emitted| == |tr.emitted| + 1 && tr.emitted <= tr'.emitted
                else tr'.emitted == tr.emitted)
  {
  }

  /** Taking a timeout off the list of due ones changes nothing else. */
  lemma DueDropped(tr: Tracker.State, replied: set<nat>, due: multiset<nat>)
    requires Tracker.EntriesSound(tr) && Unduplicated(tr, replied)
    ensures var prev := tr.(due := due);
            Tracker.UnAcked(prev) == Tracker.UnAcked(tr) && Tracker.EntriesSound(prev) && Unduplicated(prev, replied)
  {
    assert Tracker.UnAcked(tr.(due := due)) == Tracker.UnAcked(tr);
    hide Tracker.UnAcked;
  }

  /** Only the packet in flight waits, and it is the next to be settled. */
  lemma WaitingIsNext(s: State, n: nat)
    requires Inv(s) && n in Tracker.UnAcked(s.tracker)
    ensures n == |s.tracker.emitted| + 1
  {
    hide Tracker.UnAcked, Tracker.Inv, Received, WithinLimit, Unduplicated;
    Counts(s);
  }

  lemma TimeoutIsSettling(s: State, n: nat)
    requires Inv(s) && n in s.tracker.due
    ensures Inv(Apply(s, Timeout(n)))
  {
    hide Received, WithinLimit, Unduplicated, InOrder, Tracker.UnAcked, Tracker.TimedOut, Tracker.EntriesSound, Tracker.SettledOnce;
    var due := s.tracker.due - multiset{n};
    DueDropped(s.tracker, s.replied, due);
    var prev := s.tracker.(due := due);
    if n in Tracker.UnAcked(s.tracker) {
      WaitingIsNext(s, n);
    }
    Tracker.TimedOutUnAcked(prev, n);
    Tracker.ApplyKeepsInv(s.tracker, Tracker.Timeout(n));
    TimeoutUnduplicated(prev, s.replied, n);
    SettlingMove(s, Tracker.TimedOut(prev, n), s.replied, n);
  }

  lemma QuietKeepsInv(s: State, a: Tracker.Action)
    requires Inv(s) && Tracker.Enabled(s.tracker, a) && (a.Fire? || a.Cleanup?)
    ensures Inv(WithTracker(s, Tracker.Apply(s.tracker, a)))
  {
    hide Received, WithinLimit;
    Tracker.ApplyKeepsInv(s.tracker, a);
    var tr := Tracker.Apply(s.tracker, a);
    assert Tracker.UnAcked(tr) == Tracker.UnAcked(s.tracker);
    hide Tracker.UnAcked, Tracker.Inv;
    SettlingMove(s, tr, s.replied, 0);
  }

  lemma ApplyKeepsInv(s: State, a: Action)
    requires Inv(s) && Enabled(s, a)
    ensures Inv(Apply(s, a))
  {
    hide Inv, Tracker.Apply;
    match a
    case SendNext(ttl, dst, now) => SendKeepsInv(s, ttl, dst, now);
    case Reply(n, reply, now) => ReplyIsSettling(s, n, reply, now);
    case Timeout(n) => TimeoutIsSettling(s, n);
    case Fire(timer) => QuietKeepsInv(s, Tracker.Fire(timer));
    case Cleanup(n) => QuietKeepsInv(s, Tracker.Cleanup(n));
    case _ => GeneratorKeepsInv(s, a);
  }

  /** `s` is reached from the start of a ping with this limit by some schedule. */
  ghost predicate Reaches(totalPkts: Option<int>, actions: seq<Action>, s: State) {
    if actions == [] then s == Start(totalPkts)
    else
      var m := |actions| - 1;
      exists prev ::
        Reaches(totalPkts, actions[..m], prev) && Enabled(prev, actions[m]) && s == Apply(prev, actions[m])
  }

  lemma StartInv(totalPkts: Option<int>)
    ensures Inv(Start(totalPkts))
  {
    assert Tracker.UnAcked(Start(totalPkts).tracker) == {};
  }

  lemma LimitFixed(s: State, a: Action)
    requires Enabled(s, a)
    ensures Apply(s, a).totalPkts == s.totalPkts
  {
  }

  lemma {:induction false} ReachableInv(totalPkts: Option<int>, actions: seq<Action>, s: State)
    requires Reaches(totalPkts, actions, s)
    ensures Inv(s) && s.totalPkts == totalPkts
  {
    hide Inv, Apply, Enabled;
    if actions == [] {
      StartInv(totalPkts);
    } else {
      var m := |actions| - 1;
      var prev :| Reaches(totalPkts, actions[..m], prev) && Enabled(prev, actions[m]) && s == Apply(prev, actions[m]);
      LimitFixed(prev, actions[m]);
      ReachableInv(totalPkts, actions[..m], prev);
      ApplyKeepsInv(prev, actions[m]);
    }
  }

  /** Stop and wait: the packets sent are exactly 1, 2, ..., k in that order, at most one of them is outstanding, and
      the events come out in the same order. */
  lemma StopAndWait(totalPkts: Option<int>, actions: seq<Action>, s: State)
    requires Reaches(totalPkts, actions, s)
    ensures forall i :: 0 <= i < |s.sends| ==> s.sends[i] == i + 1
    ensures |Tracker.UnAcked(s.tracker)| <= 1 && |s.ctrl| <= 1
    ensures |s.output| <= |s.sends| <= |s.output| + 1
    ensures forall i :: 0 <= i < |s.output| ==> s.output[i].seqNo == i + 1
  {
    ReachableInv(totalPkts, actions, s);
    Counts(s);
  }

  /** With a limit of n >= 1, no more than n packets are sent, and the stop test succeeds at the n-th event exactly. */
  lemma StopsAtLimit(totalPkts: int, actions: seq<Action>, s: State)
    requires Reaches(Some(totalPkts), actions, s) && totalPkts >= 1
    ensures |s.sends| <= totalPkts
    ensures s.gen == ReadingUnAcked || s.gen == ReadingAcked ==>
              (|Tracker.UnAcked(s.tracker)| == 0 && s.tracker.ackedSeq == totalPkts <==> |s.output| == totalPkts)
    ensures s.gen == Stopped ==> |s.sends| == |s.output| == totalPkts
    ensures s.gen == Stopped || |s.output| < totalPkts || s.gen == ReadingUnAcked || s.gen == ReadingAcked
  {
    ReachableInv(Some(totalPkts), actions, s);
    Counts(s);
  }

  /** The loop stops only when a limit of at least one is set: with none, or with one below 1, it never does. */
  lemma StopsOnlyAtPositiveLimit(totalPkts: Option<int>, actions: seq<Action>, s: State)
    requires Reaches(totalPkts, actions, s) && s.gen == Stopped
    ensures totalPkts.Some? && totalPkts.value >= 1
  {
    ReachableInv(totalPkts, actions, s);
  }

  // ----- a ping never gets stuck -----

  /** The request an action makes to the tracker. */
  function TrackerActionOf(s: State, a: Action): Option<Tracker.Action>
    requires Enabled(s, a)
  {
    match a
    case SendNext(ttl, dst, now) => Some(Tracker.Send(s.ctrl[0], ttl, dst, now))
    case Reply(seqNo, reply, now) => Some(Tracker.Action.Reply(seqNo, reply, now))
    case Fire(timer) => Some(Tracker.Fire(timer))
    case Timeout(seqNo) => Some(Tracker.Timeout(seqNo))
    case Cleanup(seqNo) => Some(Tracker.Cleanup(seqNo))
    case _ => None
  }

  lemma FreshNumber(s: State, a: Action)
    requires Inv(s) && Enabled(s, a)
    ensures var ta := TrackerActionOf(s, a);
            if ta.None? then Apply(s, a).tracker == s.tracker
            else Tracker.Enabled(s.tracker, ta.value) && Apply(s, a).tracker == Tracker.Apply(s.tracker, ta.value)
  {
    hide Unduplicated, Received, Tracker.Inv;
  }

  lemma StepWatches(s: State, a: Action)
    requires Inv(s) && Tracker.Watched(s.tracker) && Enabled(s, a)
    ensures Tracker.Watched(Apply(s, a).tracker)
  {
    hide Unduplicated, Received, InOrder, WithinLimit, Tracker.Watched, Tracker.EntriesSound, Tracker.Apply, Apply;
    FreshNumber(s, a);
    if TrackerActionOf(s, a).Some? {
      Tracker.ApplyKeepsWatched(s.tracker, TrackerActionOf(s, a).value);
    }
  }

  /** The tracker keeps a timer running or due for the waiting packet, all through a ping. */
  lemma {:induction false} PingWatches(totalPkts: Option<int>, actions: seq<Action>, s: State)
    requires Reaches(totalPkts, actions, s)
    ensures Tracker.Watched(s.tracker)
  {
    hide Inv, Apply, Enabled;
    if actions != [] {
      var m := |actions| - 1;
      var prev :| Reaches(totalPkts, actions[..m], prev) && Enabled(prev, actions[m]) && s == Apply(prev, actions[m]);
      ReachableInv(totalPkts, actions[..m], prev);
      PingWatches(totalPkts, actions[..m], prev);
      StepWatches(prev, actions[m]);
    }
  }

  /** A ping never gets stuck: until it stops, some step of its own goroutines or timers can be taken, without any
      reply from the network. */
  lemma NeverStuck(totalPkts: Option<int>, actions: seq<Action>, s: State) returns (a: Action)
    requires Reaches(totalPkts, actions, s) && s.gen != Stopped
    ensures Enabled(s, a) && !a.Reply?
  {
    hide Unduplicated, Reaches, Tracker.Inv, Tracker.UnAcked, WithinLimit, InOrder;
    ReachableInv(totalPkts, actions, s);
    PingWatches(totalPkts, actions, s);
    Counts(s);
    if s.ctrl != [] {
      a := SendNext(0, 0, 0);
    } else if s.gen == Waiting {
      if s.inbox != {} {
        var i :| i in s.inbox;
        a := TakeEvent(i);
      } else {
        var n :| n in Tracker.UnAcked(s.tracker);
        var pending := Tracker.PendingTimer(s.tracker, n);
        a := if pending.Timeout? then Timeout(pending.seqNo) else Fire(pending.timer);
      }
    } else if s.gen.Holding? {
      a := PassOn;
    } else if s.gen == ReadingUnAcked {
      a := ReadUnAcked;
    } else if s.gen == ReadingAcked {
      a := ReadAcked;
    } else {
      a := Signal;
    }
  }

  // ----- what the output tells -----

  /** How many packets the sending loop marked and sent. */
  function SendsIn(actions: seq<Action>): nat {
    if actions == [] then 0 else SendsIn(actions[..|actions| - 1]) + (if actions[|actions| - 1].SendNext? then 1 else 0)
  }

  /** The request that action `a` makes to the tracker after `before`: packets are numbered as they are sent. */
  function Requested(before: seq<Action>, a: Action): seq<Tracker.Action> {
    match a
    case SendNext(ttl, dst, now) => [Tracker.Send(SendsIn(before) + 1, ttl, dst, now)]
    case Reply(seqNo, reply, now) => [Tracker.Action.Reply(seqNo, reply, now)]
    case Fire(timer) => [Tracker.Fire(timer)]
    case Timeout(seqNo) => [Tracker.Timeout(seqNo)]
    case Cleanup(seqNo) => [Tracker.Cleanup(seqNo)]
    case _ => []
  }

  /** The requests that a run makes to the tracker. */
  function Requests(actions: seq<Action>): seq<Tracker.Action> {
    if actions == [] then []
    else
      var m := |actions| - 1;
      Requests(actions[..m]) + Requested(actions[..m], actions[m])
  }

  lemma RequestedIsActionOf(s: State, before: seq<Action>, a: Action)
    requires Inv(s) && Enabled(s, a) && |s.sends| == SendsIn(before)
    ensures Requested(before, a) == if TrackerActionOf(s, a).Some? then [TrackerActionOf(s, a).value] else []
    ensures |Apply(s, a).sends| == SendsIn(before + [a])
  {
    hide Tracker.Inv, Tracker.Apply, Tracker.Sent, Tracker.Received, Unduplicated, Received, InOrder;
    assert (before + [a])[..|before|] == before;
  }

  /** A ping runs the tracker by its requests. */
  lemma {:induction false} PingRunsTracker(totalPkts: Option<int>, actions: seq<Action>, s: State)
    requires Reaches(totalPkts, actions, s)
    ensures Tracker.Reaches(Requests(actions), s.tracker) && |s.sends| == SendsIn(actions)
  {
    hide Inv, Apply, Enabled, Tracker.Reaches, Requested, TrackerActionOf, SendsIn;
    if actions == [] {
      NothingRequested(totalPkts);
    } else {
      var m := |actions| - 1;
      var prev :| Reaches(totalPkts, actions[..m], prev) && Enabled(prev, actions[m]) && s == Apply(prev, actions[m]);
      ReachableInv(totalPkts, actions[..m], prev);
      PingRunsTracker(totalPkts, actions[..m], prev);
      RequestedIsActionOf(prev, actions[..m], actions[m]);
      assert actions == actions[..m] + [actions[m]];
      FreshNumber(prev, actions[m]);
      if TrackerActionOf(prev, actions[m]).Some? {
        Tracker.StepTo(Requests(actions[..m]), prev.tracker, TrackerActionOf(prev, actions[m]).value);
      } else {
        assert Requests(actions[..m]) + [] == Requests(actions[..m]);
      }
    }
  }

  lemma NothingRequested(totalPkts: Option<int>)
    ensures Tracker.Reaches(Requests([]), Start(totalPkts).tracker) && |Start(totalPkts).sends| == SendsIn([])
  {
    assert Requests([]) == [];
  }

  /** Where in the run the k-th request was made. */
  lemma {:induction false} PositionOf(actions: seq<Action>, k: nat) returns (i: nat)
    requires k < |Requests(actions)|
    ensures i < |actions| && |Requests(actions[..i])| == k && Requested(actions[..i], actions[i]) == [Requests(actions)[k]]
  {
    hide Requested;
    var m := |actions| - 1;
    RequestedOnce(actions[..m], actions[m]);
    if k < |Requests(actions[..m])| {
      i := PositionOf(actions[..m], k);
      assert actions[..m][..i] == actions[..i];
    } else {
      i := m;
    }
  }

  lemma RequestedOnce(before: seq<Action>, a: Action)
    ensures |Requested(before, a)| <= 1
  {
  }

  lemma {:induction false} RequestsGrow(actions: seq<Action>, i: nat)
    requires i <= |actions|
    ensures |Requests(actions[..i])| <= |Requests(actions)|
    decreases |actions|
  {
    hide Requested;
    if i < |actions| {
      RequestsGrow(actions[..|actions| - 1], i);
      assert actions[..|actions| - 1][..i] == actions[..i];
    } else {
      assert actions[..i] == actions;
    }
  }

  /** Requests are made in the order of the actions. */
  lemma RequestOrder(actions: seq<Action>, i: nat, k: nat)
    requires i < |actions| && k < |actions| && |Requests(actions[..i])| < |Requests(actions[..k])|
    ensures i < k
  {
    hide Requests;
    if k <= i {
      assert actions[..i][..k] == actions[..k];
      RequestsGrow(actions[..i], k);
    }
  }

  /** The action comes behind position `i`. */
  ghost predicate ComesAfter(actions: seq<Action>, i: nat, a: Action) {
    exists k :: i < k < |actions| && actions[k] == a
  }

  /** Position `i` sends packet `n`, and every reply of its event is one that came behind it at its time; without any the
      packet timed out. */
  ghost predicate Tells(actions: seq<Action>, i: nat, n: nat, e: Tracker.Entry) {
    && i < |actions| && SendsIn(actions[..i]) == n - 1 && actions[i] == SendNext(e.ttl, e.dst, e.sentAt)
    && |e.raw| == |e.receivedAt|
    && (forall r :: 0 <= r < |e.raw| ==> ComesAfter(actions, i, Reply(n, e.raw[r], e.receivedAt[r])))
    && (e.receivedAt == [] ==> ComesAfter(actions, i, Timeout(n)))
  }

  lemma SentBy(before: seq<Action>, a: Action, e: Tracker.Entry)
    requires Requested(before, a) == [Tracker.Send(e.seqNo, e.ttl, e.dst, e.sentAt)]
    ensures a == SendNext(e.ttl, e.dst, e.sentAt) && SendsIn(before) == e.seqNo - 1
  {
  }

  /** The n-th event out tells the outcome of the n-th packet sent. */
  lemma OutputTellsOutcome(totalPkts: Option<int>, actions: seq<Action>, s: State, j: nat) returns (i: nat)
    requires Reaches(totalPkts, actions, s) && j < |s.output|
    ensures Tells(actions, i, j + 1, s.output[j])
  {
    hide Reaches, Requests, Tracker.Events, Tracker.Sources, Tells, Tracker.Inv;
    ReachableInv(totalPkts, actions, s);
    StopAndWait(totalPkts, actions, s);
    PingRunsTracker(totalPkts, actions, s);
    Tracker.StateTellsHistory(Requests(actions), s.tracker);
    assert s.output[j] == s.tracker.emitted[j];
    var x, ys := Tracker.EventHasSources(Requests(actions), j);
    i := EventOutcome(actions, s.output[j], x, ys);
  }

  /** From the tracker's requests back to the actions of the ping. */
  lemma EventOutcome(actions: seq<Action>, e: Tracker.Entry, x: nat, ys: seq<nat>) returns (i: nat)
    requires Tracker.Sources(Requests(actions), e, x, ys)
    requires e.receivedAt == [] ==>
               exists y :: x < y < |Requests(actions)| && Requests(actions)[y] == Tracker.Timeout(e.seqNo)
    ensures Tells(actions, i, e.seqNo, e)
  {
    hide Requests, SendsIn;
    i := PositionOf(actions, x);
    SentBy(actions[..i], actions[i], e);
    forall r | 0 <= r < |e.raw|
      ensures ComesAfter(actions, i, Reply(e.seqNo, e.raw[r], e.receivedAt[r]))
    {
      var k := PositionOf(actions, ys[r]);
      RequestOrder(actions, i, k);
    }
    if e.receivedAt == [] {
      var y :| x < y < |Requests(actions)| && Requests(actions)[y] == Tracker.Timeout(e.seqNo);
      var k := PositionOf(actions, y);
      RequestOrder(actions, i, k);
    }
  }

  /** A reply to the waiting packet can come at any time, and is the next event out. */
  lemma ReplyCanBeTold(totalPkts: Option<int>, actions: seq<Action>, s: State, n: nat, reply: Tracker.Reply, now: int)
    returns (actions': seq<Action>, s': State)
    requires Reaches(totalPkts, actions, s) && n in Tracker.UnAcked(s.tracker) && n !in s.replied
    ensures actions + [Reply(n, reply, now)] <= actions' && Reaches(totalPkts, actions', s')
    ensures s'.output == s.output + [s.tracker.store[n].(timer := None, receivedAt := [now], raw := [reply])]
  {
    hide Reaches, Inv;
    ReachableInv(totalPkts, actions, s);
    WaitingAlone(s, n);
    assert [] + [now] == [now] && [] + [reply] == [reply];
    actions', s' := StepTo(totalPkts, actions, s, Reply(n, reply, now));
    actions', s' := StepTo(totalPkts, actions', s', TakeEvent(|s.output|));
    actions', s' := StepTo(totalPkts, actions', s', PassOn);
  }

  lemma WaitingAlone(s: State, n: nat)
    requires Inv(s) && n in Tracker.UnAcked(s.tracker)
    ensures !s.tracker.closed && n in s.tracker.store && s.tracker.store[n].receivedAt == [] && s.tracker.store[n].raw == []
    ensures s.gen == Waiting && s.inbox == {} && |s.output| == |s.tracker.emitted|
  {
    hide Tracker.SettledOnce, Tracker.Conserved, InOrder, WithinLimit, Unduplicated;
    NonEmpty(Tracker.UnAcked(s.tracker), n);
    NoneLeft(s.inbox);
  }

  lemma NoneLeft(xs: set<nat>)
    ensures |xs| == 0 ==> xs == {}
  {
  }

  lemma NonEmpty(xs: set<nat>, n: nat)
    requires n in xs
    ensures |xs| >= 1
  {
  }

  lemma StepTo(totalPkts: Option<int>, actions: seq<Action>, s: State, a: Action) returns (actions': seq<Action>, s': State)
    requires Reaches(totalPkts, actions, s) && Enabled(s, a)
    ensures actions' == actions + [a] && s' == Apply(s, a) && Reaches(totalPkts, actions', s')
  {
    actions', s' := actions + [a], Apply(s, a);
    assert actions'[..|actions|] == actions;
  }
}
