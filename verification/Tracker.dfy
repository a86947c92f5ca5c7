/** The probe tracker (pkg/raw/tracker.go). Every request to the tracker's actor is one atomic step; timers that
    have fired and clean-ups that are waiting are steps that may be taken at any time. */
module Tracker {
  import opened Wrappers

  /** What the tracker keeps of a reply packet. */
  datatype Reply = Reply(lastHop: bool, setMTUTo: Option<int>)

  datatype Entry = Entry(
    seqNo: nat,
    ttl: int,
    dst: nat,
    sentAt: int,
    receivedAt: seq<int>,
    raw: seq<Reply>,
    timer: Option<nat>)
  {
    /** A copy for readers, without the timer. */
    function ReadonlyClone(): Entry {
      this.(timer := None)
    }

    /** An event that settles its sequence number: a timeout, or the first reply. */
    predicate Settles() {
      |receivedAt| <= 1
    }
  }

  /** `armed` are the running timers and the sequence numbers they were started for; `due` the timeouts that
      have fired and wait for the actor; `cleanups` the clean-ups that wait; `emitted` everything handed to the
      event channel; `sent` the history of accepted sends. */
  datatype State = State(
    store: map<nat, Entry>,
    ackedSeq: int,
    closed: bool,
    timersMade: nat,
    armed: map<nat, nat>,
    due: multiset<nat>,
    cleanups: multiset<nat>,
    emitted: seq<Entry>,
    sent: set<nat>)

  function NewState(): State {
    State(map[], 0, false, 0, map[], multiset{}, multiset{}, [], {})
  }

  /** The sequence numbers still waiting for a first reply or a timeout. */
  function UnAcked(st: State): set<nat> {
    set s | s in st.store && st.store[s].receivedAt == []
  }

  function Sent(st: State, seqNo: nat, ttl: int, dst: nat, now: int): State {
    if st.closed then st
    else st.(store := st.store[seqNo := Entry(seqNo, ttl, dst, now, [], [], Some(st.timersMade))],
             timersMade := st.timersMade + 1,
             armed := st.armed[st.timersMade := seqNo],
             sent := st.sent + {seqNo})
  }

  /** Replies to numbers the store does not hold are ignored. */
  function Received(st: State, seqNo: nat, reply: Reply, now: int): State {
    if st.closed || seqNo !in st.store then st
    else
      var ent := st.store[seqNo];
      var ent' := ent.(timer := None, raw := ent.raw + [reply], receivedAt := ent.receivedAt + [now]);
      st.(store := st.store[seqNo := ent'],
          armed := if ent.timer.Some? then st.armed - {ent.timer.value} else st.armed,
          ackedSeq := if ent.raw == [] then st.ackedSeq + 1 else st.ackedSeq,
          emitted := st.emitted + [ent'.ReadonlyClone()],
          cleanups := st.cleanups + multiset{seqNo})
  }

  /** A timeout settles an entry without replies and forgets the entry either way. */
  function TimedOut(st: State, seqNo: nat): State {
    if st.closed then st
    else
      var unanswered := seqNo in st.store && st.store[seqNo].receivedAt == [];
      st.(ackedSeq := if unanswered then st.ackedSeq + 1 else st.ackedSeq,
          emitted := if unanswered then st.emitted + [st.store[seqNo].ReadonlyClone()] else st.emitted,
          store := st.store - {seqNo})
  }

  function CleanedUp(st: State, seqNo: nat): State {
    st.(store := st.store - {seqNo})
  }

  function Closed(st: State): State {
    st.(closed := true,
        armed := map id | id in st.armed
                          && (forall s :: s in st.store ==> st.store[s].timer != Some(id)) :: st.armed[id])
  }

  class ICMPTracker {
    var store: map<nat, Entry>
    var ackedSeq: int
    var closed: bool
    /** The actor's loop accepts requests. */
    var running: bool
    /** Goroutines, timers and the event channel. */
    var timersMade: nat
    var armed: map<nat, nat>
    var due: multiset<nat>
    var cleanups: multiset<nat>
    var emitted: seq<Entry>
    ghost var sent: set<nat>

    ghost function St(): State
      reads this
    {
      State(store, ackedSeq, closed, timersMade, armed, due, cleanups, emitted, sent)
    }

    /** Everything sent is acknowledged or waits, and each number is settled at most once. */
    ghost predicate Valid()
      reads this
    {
      Inv(St())
    }

    constructor ()
      ensures Valid() && St() == NewState() && running
    {
      store, ackedSeq, closed, running := map[], 0, false, true;
      timersMade, armed, due, cleanups, emitted := 0, map[], multiset{}, multiset{}, [];
      sent := {};
      new;
      NewIsSound();
    }

    /** The loop ends when the tracker has been closed or its context is done; then no request is served any more. */
    method Exit()
      requires Valid()
      modifies `running
      ensures Valid() && !running
    {
      running := false;
    }

    method MarkSent(seqNo: nat, ttl: int, dst: nat, now: int) returns (r: Result<(), string>)
      requires Valid()
      modifies this
      ensures running == old(running)
      ensures St() == if running then Sent(old(St()), seqNo, ttl, dst, now) else old(St())
      ensures r.Failure? <==> old(closed) || !running
      ensures r.Success? ==>
                store == old(store)[seqNo := Entry(seqNo, ttl, dst, now, [], [], Some(old(timersMade)))]
                && armed == old(armed)[old(timersMade) := seqNo]
      ensures seqNo !in old(sent) ==> Valid()
    {
      hide Inv;
      if seqNo !in sent {
        SentKeepsInv(St(), seqNo, ttl, dst, now);
      }
      if !running || closed {
        return Failure("engine is closed");
      }
      var ent := Entry(seqNo, ttl, dst, now, [], [], Some(timersMade));
      store := store[seqNo := ent];
      armed := armed[timersMade := seqNo];
      timersMade := timersMade + 1;
      sent := sent + {seqNo};
      r := Success(());
    }

    method MarkReceived(seqNo: nat, reply: Reply, now: int) returns (r: Result<(), string>)
      requires Valid()
      modifies this
      ensures Valid() && running == old(running)
      ensures St() == if running then Received(old(St()), seqNo, reply, now) else old(St())
      ensures r.Failure? <==> old(closed) || !running
    {
      hide Inv;
      ReceivedKeepsInv(St(), seqNo, reply, now);
      if !running || closed {
        return Failure("engine is closed");
      }
      if seqNo in store {
        var ent := store[seqNo];
        if ent.timer.Some? {
          armed := armed - {ent.timer.value};
          ent := ent.(timer := None);
        }
        if |ent.raw| == 0 {
          ackedSeq := ackedSeq + 1;
        }
        ent := ent.(raw := ent.raw + [reply]);
        ent := ent.(receivedAt := ent.receivedAt + [now]);
        store := store[seqNo := ent];
        emitted := emitted + [ent.ReadonlyClone()];
        cleanups := cleanups + multiset{seqNo};
      }
      r := Success(());
    }

    method HandleTimeout(seqNo: nat) returns (r: Result<(), string>)
      requires Valid()
      modifies this
      ensures Valid() && running == old(running)
      ensures St() == if running then TimedOut(old(St()), seqNo) else old(St())
      ensures r.Failure? <==> old(closed) && running
    {
      hide Inv;
      TimedOutKeepsInv(St(), seqNo);
      if !running {
        return Success(());
      }
      if closed {
        return Failure("engine is closed");
      }
      if seqNo in store && |store[seqNo].receivedAt| == 0 {
        ackedSeq := ackedSeq + 1;
        emitted := emitted + [store[seqNo].ReadonlyClone()];
      }
      store := store - {seqNo};
      r := Success(());
    }

    /** Only a number that was answered is cleaned up; for one that waits this would lose it. */
    method CleanupEntry(seqNo: nat)
      requires Valid()
      modifies this
      ensures running == old(running)
      ensures St() == if running then CleanedUp(old(St()), seqNo) else old(St())
      ensures !running || seqNo !in UnAcked(old(St())) ==> Valid()
    {
      hide Inv, UnAcked;
      if seqNo !in UnAcked(St()) {
        CleanedUpKeepsInv(St(), seqNo);
      }
      if running {
        store := store - {seqNo};
      }
    }

    /** The numbers that wait; 0 once the loop has ended. */
    method GetUnAcked() returns (n: nat)
      ensures n == if running then |UnAcked(St())| else 0
    {
      n := 0;
      if !running {
        return;
      }
      var rest := store.Keys;
      ghost var counted: set<nat> := {};
      while rest != {}
        invariant rest <= store.Keys && n == |counted|
        invariant counted == set s | s in store && s !in rest && store[s].receivedAt == []
        decreases |rest|
      {
        var s :| s in rest;
        if |store[s].receivedAt| == 0 {
          n := n + 1;
          counted := counted + {s};
        }
        rest := rest - {s};
      }
      assert counted == UnAcked(St());
    }

    /** The numbers sent that no longer wait; 0 once the loop has ended. */
    method GetAckedSeq() returns (n: int)
      requires Valid()
      ensures n == if running then |sent| - |UnAcked(St())| else 0
    {
      n := if running then ackedSeq else 0;
    }

    method ForgetAllAndClose() returns (r: Result<(), string>)
      requires Valid()
      modifies this
      ensures Valid() && running == old(running)
      ensures r.Failure? <==> old(closed) || !running
      ensures St() == if r.Failure? then old(St()) else Closed(old(St()))
    {
      hide Inv;
      ClosedKeepsInv(St());
      if closed || !running {
        return Failure("engine is already closed");
      }
      closed := true;
      armed := map id | id in armed && (forall s :: s in store ==> store[s].timer != Some(id)) :: armed[id];
      r := Success(());
    }
  }

  // ----- what every step keeps -----

  /** How many events of the log settle `s`. */
  function Settlings(log: seq<Entry>, s: nat): nat {
    if log == [] then 0
    else
      var ev := log[|log| - 1];
      Settlings(log[..|log| - 1], s) + (if ev.seqNo == s && ev.Settles() then 1 else 0)
  }

  /** Everything sent is either acknowledged or still waiting. */
  ghost predicate Conserved(st: State) {
    |st.sent| == st.ackedSeq + |UnAcked(st)|
  }

  /** A sequence number is settled by exactly one event once it no longer waits, and by none before. */
  ghost predicate SettledOnce(st: State) {
    forall s :: Settlings(st.emitted, s) == if s in st.sent && s !in UnAcked(st) then 1 else 0
  }

  ghost predicate EntriesSound(st: State) {
    && st.store.Keys <= st.sent
    && (forall s :: s in st.store ==> st.store[s].seqNo == s && |st.store[s].raw| == |st.store[s].receivedAt|)
    && (forall s :: s in st.cleanups ==> s in st.sent && s !in UnAcked(st))
  }

  ghost predicate Inv(st: State) {
    Conserved(st) && SettledOnce(st) && EntriesSound(st)
  }

  lemma SettlingsAppend(log: seq<Entry>, ev: Entry, s: nat)
    ensures Settlings(log + [ev], s) == Settlings(log, s) + if ev.seqNo == s && ev.Settles() then 1 else 0
  {
    assert (log + [ev])[..|log|] == log;
  }

  lemma SentKeepsInv(st: State, seqNo: nat, ttl: int, dst: nat, now: int)
    requires Inv(st) && seqNo !in st.sent
    ensures Inv(Sent(st, seqNo, ttl, dst, now))
    ensures !st.closed ==> UnAcked(Sent(st, seqNo, ttl, dst, now)) == UnAcked(st) + {seqNo}
  {
    hide Settlings, UnAcked, SettledOnce, EntriesSound;
    if !st.closed {
      SentUnAcked(st, seqNo, ttl, dst, now);
      SentEntries(st, seqNo, ttl, dst, now);
      SettledWithNew(st, Sent(st, seqNo, ttl, dst, now), seqNo);
    }
  }

  lemma SettledWithNew(st: State, st': State, seqNo: nat)
    requires SettledOnce(st) && seqNo !in st.sent && st'.emitted == st.emitted
    requires st'.sent == st.sent + {seqNo} && UnAcked(st') == UnAcked(st) + {seqNo}
    ensures SettledOnce(st')
  {
    hide Settlings, UnAcked;
    forall s: nat
      ensures Settlings(st'.emitted, s) == if s in st'.sent && s !in UnAcked(st') then 1 else 0
    {
      assert Settlings(st.emitted, s) == if s in st.sent && s !in UnAcked(st) then 1 else 0;
    }
  }

  lemma SentEntries(st: State, seqNo: nat, ttl: int, dst: nat, now: int)
    requires EntriesSound(st) && seqNo !in st.sent && !st.closed
    ensures EntriesSound(Sent(st, seqNo, ttl, dst, now))
  {
    SentUnAcked(st, seqNo, ttl, dst, now);
    hide UnAcked;
  }

  lemma SentUnAcked(st: State, seqNo: nat, ttl: int, dst: nat, now: int)
    requires EntriesSound(st) && seqNo !in st.sent && !st.closed
    ensures UnAcked(Sent(st, seqNo, ttl, dst, now)) == UnAcked(st) + {seqNo} && seqNo !in UnAcked(st)
  {
  }

  /** An event that settles a number exactly when it was waiting keeps settlement single. */
  lemma SettledAfterEvent(st: State, st': State, ev: Entry)
    requires SettledOnce(st) && st'.sent == st.sent && st'.emitted == st.emitted + [ev]
    requires ev.seqNo in st.sent && UnAcked(st') == UnAcked(st) - {ev.seqNo}
    requires ev.Settles() <==> ev.seqNo in UnAcked(st)
    ensures SettledOnce(st')
  {
    hide Settlings, UnAcked;
    forall s: nat
      ensures Settlings(st'.emitted, s) == if s in st'.sent && s !in UnAcked(st') then 1 else 0
    {
      SettlingsAppend(st.emitted, ev, s);
    }
  }

  lemma ReceivedUnAcked(st: State, seqNo: nat, reply: Reply, now: int)
    requires !st.closed
    ensures UnAcked(Received(st, seqNo, reply, now)) == UnAcked(st) - {seqNo}
    ensures seqNo in UnAcked(st) <==> seqNo in st.store && st.store[seqNo].receivedAt == []
  {
  }

  lemma ReceivedEntries(st: State, seqNo: nat, reply: Reply, now: int)
    requires !st.closed && EntriesSound(st)
    ensures EntriesSound(Received(st, seqNo, reply, now))
  {
    hide UnAcked;
    ReceivedUnAcked(st, seqNo, reply, now);
  }

  lemma ReceivedKeepsInv(st: State, seqNo: nat, reply: Reply, now: int)
    requires Inv(st)
    ensures Inv(Received(st, seqNo, reply, now))
    ensures !st.closed ==> UnAcked(Received(st, seqNo, reply, now)) == UnAcked(st) - {seqNo}
  {
    hide Settlings, UnAcked;
    if !st.closed {
      ReceivedUnAcked(st, seqNo, reply, now);
      ReceivedEntries(st, seqNo, reply, now);
      if seqNo in st.store {
        var st' := Received(st, seqNo, reply, now);
        assert st.store[seqNo].raw == [] <==> st.store[seqNo].receivedAt == [];
        SettledAfterEvent(st, st', st'.emitted[|st.emitted|]);
      }
    }
  }

  lemma TimedOutUnAcked(st: State, seqNo: nat)
    requires !st.closed
    ensures UnAcked(TimedOut(st, seqNo)) == UnAcked(st) - {seqNo}
    ensures seqNo in UnAcked(st) <==> seqNo in st.store && st.store[seqNo].receivedAt == []
  {
  }

  lemma TimedOutKeepsInv(st: State, seqNo: nat)
    requires Inv(st)
    ensures Inv(TimedOut(st, seqNo))
    ensures !st.closed ==> UnAcked(TimedOut(st, seqNo)) == UnAcked(st) - {seqNo}
  {
    hide Settlings, UnAcked;
    if !st.closed {
      var st' := TimedOut(st, seqNo);
      TimedOutUnAcked(st, seqNo);
      if seqNo in UnAcked(st) {
        SettledAfterEvent(st, st', st'.emitted[|st.emitted|]);
      }
    }
  }

  lemma CleanedUpKeepsInv(st: State, seqNo: nat)
    requires Inv(st) && seqNo !in UnAcked(st)
    ensures Inv(CleanedUp(st, seqNo)) && UnAcked(CleanedUp(st, seqNo)) == UnAcked(st)
  {
    assert UnAcked(CleanedUp(st, seqNo)) == UnAcked(st);
  }

  lemma NewIsSound()
    ensures Inv(NewState())
  {
    assert UnAcked(NewState()) == {};
  }

  lemma ClosedKeepsInv(st: State)
    requires Inv(st)
    ensures Inv(Closed(st))
  {
    assert UnAcked(Closed(st)) == UnAcked(st);
  }

  // ----- runs -----

  datatype Action =
    | Send(seqNo: nat, ttl: int, dst: nat, now: int)
    | Reply(seqNo: nat, reply: Reply, now: int)
    | Fire(timer: nat)
    | Timeout(seqNo: nat)
    | Cleanup(seqNo: nat)
    | Close

  /** Senders use fresh numbers. Replies may come at any time, for any number, any number of times; a timer fires
      only while armed, but its timeout may run late; clean-ups run at any time after they were scheduled. */
  predicate Enabled(st: State, a: Action) {
    match a
    case Send(seqNo, _, _, _) => seqNo !in st.sent
    case Reply(_, _, _) => true
    case Fire(timer) => timer in st.armed
    case Timeout(seqNo) => seqNo in st.due
    case Cleanup(seqNo) => seqNo in st.cleanups
    case Close => !st.closed
  }

  function Apply(st: State, a: Action): State
    requires Enabled(st, a)
  {
    match a
    case Send(seqNo, ttl, dst, now) => Sent(st, seqNo, ttl, dst, now)
    case Reply(seqNo, reply, now) => Received(st, seqNo, reply, now)
    case Fire(timer) => st.(armed := st.armed - {timer}, due := st.due + multiset{st.armed[timer]})
    case Timeout(seqNo) => TimedOut(st.(due := st.due - multiset{seqNo}), seqNo)
    case Cleanup(seqNo) => CleanedUp(st.(cleanups := st.cleanups - multiset{seqNo}), seqNo)
    case Close => Closed(st)
  }

  lemma ApplyKeepsInv(st: State, a: Action)
    requires Inv(st) && Enabled(st, a)
    ensures Inv(Apply(st, a))
  {
    match a
    case Send(seqNo, ttl, dst, now) => SentKeepsInv(st, seqNo, ttl, dst, now);
    case Reply(seqNo, reply, now) => ReceivedKeepsInv(st, seqNo, reply, now);
    case Fire(timer) => assert UnAcked(Apply(st, a)) == UnAcked(st);
    case Timeout(seqNo) =>
      var st' := st.(due := st.due - multiset{seqNo});
      assert UnAcked(st') == UnAcked(st);
      TimedOutKeepsInv(st', seqNo);
    case Cleanup(seqNo) =>
      var st' := st.(cleanups := st.cleanups - multiset{seqNo});
      assert UnAcked(st') == UnAcked(st);
      CleanedUpKeepsInv(st', seqNo);
    case Close => ClosedKeepsInv(st);
  }

  /** `st` is reached by some schedule of actions. */
  ghost predicate Reaches(actions: seq<Action>, st: State) {
    if actions == [] then st == NewState()
    else
      var m := |actions| - 1;
      exists prev ::
        Reaches(actions[..m], prev) && Enabled(prev, actions[m]) && st == Apply(prev, actions[m])
  }

  lemma StepTo(actions: seq<Action>, st: State, a: Action)
    requires Reaches(actions, st) && Enabled(st, a)
    ensures Reaches(actions + [a], Apply(st, a))
  {
    hide Apply, Enabled;
    assert (actions + [a])[..|actions|] == actions;
  }

  lemma {:induction false} ReachableInv(actions: seq<Action>, st: State)
    requires Reaches(actions, st)
    ensures Inv(st)
  {
    if actions == [] {
      assert UnAcked(st) == {};
    } else {
      var m := |actions| - 1;
      var prev :| Reaches(actions[..m], prev) && Enabled(prev, actions[m]) && st == Apply(prev, actions[m]);
      ReachableInv(actions[..m], prev);
      ApplyKeepsInv(prev, actions[m]);
    }
  }

  /** In every reachable state the number sent is the number acknowledged plus the number waiting, and each number is
      settled at most once, by a timeout or by a first reply, despite stale timers, late clean-ups and duplicates. */
  lemma ConservationAndSettlement(actions: seq<Action>, st: State, s: nat)
    requires Reaches(actions, st)
    ensures |st.sent| == st.ackedSeq + |UnAcked(st)|
    ensures Settlings(st.emitted, s) <= 1
    ensures Settlings(st.emitted, s) == 1 <==> s in st.sent && s !in UnAcked(st)
  {
    ReachableInv(actions, st);
  }

  // ----- no probe is forgotten -----

  /** Every number that waits has its own timer running, or a timeout that is due. */
  ghost predicate Watched(st: State) {
    && (forall id :: id in st.armed ==> id < st.timersMade)
    && (forall s :: s in st.store && st.store[s].timer.Some? ==> st.store[s].timer.value < st.timersMade)
    && (forall s, t :: s in st.store && t in st.store && s != t && st.store[s].timer.Some? ==>
          st.store[s].timer != st.store[t].timer)
    && forall s :: s in st.store && st.store[s].receivedAt == [] ==> Watches(st, s)
  }

  ghost predicate Watches(st: State, s: nat)
    requires s in st.store
  {
    && st.store[s].timer.Some?
    && var id := st.store[s].timer.value;
       (id in st.armed && st.armed[id] == s) || s in st.due
  }

  lemma SentKeepsWatched(st: State, seqNo: nat, ttl: int, dst: nat, now: int)
    requires Watched(st) && seqNo !in st.store && !st.closed
    ensures Watched(Sent(st, seqNo, ttl, dst, now))
  {
    var st' := Sent(st, seqNo, ttl, dst, now);
    forall s | s in st'.store && st'.store[s].receivedAt == []
      ensures Watches(st', s)
    {
      assert s != seqNo ==> Watches(st, s);
    }
  }

  lemma ReceivedKeepsWatched(st: State, seqNo: nat, reply: Reply, now: int)
    requires Watched(st) && !st.closed
    ensures Watched(Received(st, seqNo, reply, now))
  {
    var st' := Received(st, seqNo, reply, now);
    if seqNo in st.store {
      forall s | s in st'.store && st'.store[s].receivedAt == []
        ensures Watches(st', s)
      {
        assert s != seqNo && st'.store[s] == st.store[s];
        assert Watches(st, s);
      }
    }
  }

  lemma ForgettingKeepsWatched(st: State, st': State, seqNo: nat)
    requires Watched(st) && st'.store == st.store - {seqNo} && st'.armed == st.armed && st'.timersMade == st.timersMade
    requires forall s :: s != seqNo && s in st.due ==> s in st'.due
    ensures Watched(st')
  {
    forall s | s in st'.store && st'.store[s].receivedAt == []
      ensures Watches(st', s)
    {
      assert Watches(st, s);
    }
  }

  lemma FireKeepsWatched(st: State, timer: nat)
    requires Watched(st) && timer in st.armed
    ensures Watched(Apply(st, Fire(timer)))
  {
    var st' := Apply(st, Fire(timer));
    forall s | s in st'.store && st'.store[s].receivedAt == []
      ensures Watches(st', s)
    {
      assert Watches(st, s);
    }
  }

  lemma ApplyKeepsWatched(st: State, a: Action)
    requires EntriesSound(st) && Watched(st) && Enabled(st, a) && !a.Close? && !st.closed
    ensures Watched(Apply(st, a))
  {
    hide Watched, UnAcked;
    match a
    case Send(seqNo, ttl, dst, now) => SentKeepsWatched(st, seqNo, ttl, dst, now);
    case Reply(seqNo, reply, now) => ReceivedKeepsWatched(st, seqNo, reply, now);
    case Fire(timer) => FireKeepsWatched(st, timer);
    case Timeout(seqNo) => ForgettingKeepsWatched(st, Apply(st, a), seqNo);
    case Cleanup(seqNo) => ForgettingKeepsWatched(st, Apply(st, a), seqNo);
    case Close =>
  }

  lemma {:induction false} ReachableWatched(actions: seq<Action>, st: State)
    requires Reaches(actions, st) && !st.closed
    ensures Watched(st)
  {
    if actions != [] {
      var m := |actions| - 1;
      var prev :| Reaches(actions[..m], prev) && Enabled(prev, actions[m]) && st == Apply(prev, actions[m]);
      ReachableInv(actions[..m], prev);
      ReachableWatched(actions[..m], prev);
      ApplyKeepsWatched(prev, actions[m]);
    }
  }

  /** For a number that waits some step of its timer can be taken. */
  lemma PendingTimer(tr: State, n: nat) returns (a: Action)
    requires Watched(tr) && n in UnAcked(tr)
    ensures (a.Timeout? || a.Fire?) && Enabled(tr, a)
  {
    assert Watches(tr, n);
    a := if n in tr.due then Timeout(n) else Fire(tr.store[n].timer.value);
  }

  lemma {:induction false} SettlingsOfTwo(log: seq<Entry>, i: nat, j: nat)
    requires i < j < |log| && log[i].seqNo == log[j].seqNo && log[i].Settles() && log[j].Settles()
    ensures Settlings(log, log[i].seqNo) >= 2
    decreases |log|
  {
    var m := |log| - 1;
    if j < m {
      SettlingsOfTwo(log[..m], i, j);
    } else {
      SettlingsOfOne(log[..m], i);
    }
  }

  lemma {:induction false} SettlingsOfOne(log: seq<Entry>, i: nat)
    requires i < |log| && log[i].Settles()
    ensures Settlings(log, log[i].seqNo) >= 1
    decreases |log|
  {
    if i < |log| - 1 {
      SettlingsOfOne(log[..|log| - 1], i);
    }
  }

  /** No number has both a timeout event and a first-reply event, and none has two of either. */
  lemma NeverSettledTwice(actions: seq<Action>, st: State, i: nat, j: nat)
    requires Reaches(actions, st) && i < j < |st.emitted|
    requires st.emitted[i].Settles() && st.emitted[j].Settles()
    ensures st.emitted[i].seqNo != st.emitted[j].seqNo
  {
    ReachableInv(actions, st);
    if st.emitted[i].seqNo == st.emitted[j].seqNo {
      SettlingsOfTwo(st.emitted, i, j);
      assert false;
    }
  }

  // ----- what the actions alone tell -----

  /** What the requests about number `n` say of it: when it was last sent and what has been replied since. Nothing counts
      once the tracker is closed. */
  function Record(actions: seq<Action>, n: nat): Option<Entry> {
    if actions == [] then None
    else
      var front, last := actions[..|actions| - 1], actions[|actions| - 1];
      var before := Record(front, n);
      if Close in front then before
      else if last.Send? && last.seqNo == n then Some(Entry(n, last.ttl, last.dst, last.now, [], [], None))
      else if last.Reply? && last.seqNo == n && before.Some? then
        Some(before.value.(receivedAt := before.value.receivedAt + [last.now], raw := before.value.raw + [last.reply]))
      else before
  }

  /** The number was sent and has neither timed out nor been cleaned up since. */
  predicate Kept(actions: seq<Action>, n: nat) {
    if actions == [] then false
    else
      var front, last := actions[..|actions| - 1], actions[|actions| - 1];
      if last.Send? && last.seqNo == n && Close !in front then true
      else if last.Timeout? && last.seqNo == n && Close !in front then false
      else if last.Cleanup? && last.seqNo == n then false
      else Kept(front, n)
  }

  /** The events: one for each reply to a number that is kept, and one for a timeout of a kept number without replies. */
  function Events(actions: seq<Action>): seq<Entry> {
    if actions == [] then []
    else
      var front, last := actions[..|actions| - 1], actions[|actions| - 1];
      Events(front)
      + (if Close in front then []
         else if last.Reply? && Kept(front, last.seqNo) && Record(actions, last.seqNo).Some? then [Record(actions, last.seqNo).value]
         else if last.Timeout? && Kept(front, last.seqNo) && Record(front, last.seqNo).Some?
                 && Record(front, last.seqNo).value.receivedAt == [] then [Record(front, last.seqNo).value]
         else [])
  }

  /** A number is stored when it is kept, with its record as its entry. */
  ghost predicate EntryTold(st: State, actions: seq<Action>, n: nat) {
    && (n in st.store <==> Kept(actions, n))
    && (n in st.store ==> Record(actions, n) == Some(st.store[n].ReadonlyClone()))
    && (n in st.sent <==> Record(actions, n).Some?)
  }

  ghost predicate Told(st: State, actions: seq<Action>) {
    && (st.closed <==> Close in actions)
    && (forall n :: EntryTold(st, actions, n))
    && st.emitted == Events(actions)
  }

  lemma Snoc(actions: seq<Action>, a: Action)
    ensures var all := actions + [a]; all != [] && all[..|all| - 1] == actions && all[|all| - 1] == a
    ensures Close in actions + [a] <==> Close in actions || a == Close
  {
  }

  lemma EntryToldStep(st: State, actions: seq<Action>, a: Action, n: nat)
    requires EntryTold(st, actions, n) && (st.closed <==> Close in actions) && Enabled(st, a)
    ensures EntryTold(Apply(st, a), actions + [a], n)
  {
    Snoc(actions, a);
  }

  lemma EventsStep(st: State, actions: seq<Action>, a: Action)
    requires Told(st, actions) && Enabled(st, a)
    ensures Apply(st, a).emitted == Events(actions + [a]) && (Apply(st, a).closed <==> Close in actions + [a])
  {
    Snoc(actions, a);
    if a.Reply? || a.Timeout? {
      assert EntryTold(st, actions, a.seqNo);
    }
  }

  /** The state as a function of the history: the tracker stores exactly the numbers that were sent and neither timed out nor
      were cleaned up since, each with the time of its own send and its own replies in order; and the events it has emitted
      are exactly one for each reply to a number then stored and one for each timeout of an unanswered one. */
  lemma {:induction false} StateTellsHistory(actions: seq<Action>, st: State)
    requires Reaches(actions, st)
    ensures Told(st, actions)
  {
    hide Enabled, Apply, EntryTold, Events;
    if actions == [] {
      NothingTold();
    } else {
      var m := |actions| - 1;
      var prev :| Reaches(actions[..m], prev) && Enabled(prev, actions[m]) && st == Apply(prev, actions[m]);
      StateTellsHistory(actions[..m], prev);
      assert actions == actions[..m] + [actions[m]];
      forall n: nat
        ensures EntryTold(st, actions, n)
      {
        EntryToldStep(prev, actions[..m], actions[m], n);
      }
      EventsStep(prev, actions[..m], actions[m]);
    }
  }

  lemma NothingTold()
    ensures Told(NewState(), [])
  {
  }

  /** Position `i` sends the entry's number to its address at its time, and the positions `ks` behind it bring its replies,
      in order, each at its time. */
  ghost predicate Sources(actions: seq<Action>, e: Entry, i: nat, ks: seq<nat>) {
    && i < |actions| && actions[i] == Send(e.seqNo, e.ttl, e.dst, e.sentAt)
    && |ks| == |e.receivedAt| == |e.raw|
    && (forall r :: 0 <= r < |ks| ==> i < ks[r] < |actions| && actions[ks[r]] == Action.Reply(e.seqNo, e.raw[r], e.receivedAt[r]))
    && (forall q, r :: 0 <= q < r < |ks| ==> ks[q] < ks[r])
  }

  lemma {:induction false} RecordHasSources(actions: seq<Action>, n: nat) returns (i: nat, ks: seq<nat>)
    requires Record(actions, n).Some?
    ensures Record(actions, n).value.seqNo == n && Sources(actions, Record(actions, n).value, i, ks)
  {
    var m := |actions| - 1;
    var last := actions[m];
    if Close !in actions[..m] && last.Send? && last.seqNo == n {
      i, ks := m, [];
    } else {
      i, ks := RecordHasSources(actions[..m], n);
      if Close !in actions[..m] && last.Reply? && last.seqNo == n {
        ks := ks + [m];
      }
    }
  }

  lemma SourcesLater(actions: seq<Action>, more: seq<Action>, e: Entry, i: nat, ks: seq<nat>)
    requires Sources(actions, e, i, ks) && actions <= more
    ensures Sources(more, e, i, ks)
  {
  }

  /** Every event tells what happened: its number was sent to its address at its time, each of its replies came at its time and
      in this order after the send, and an event without replies comes from a timeout of its number after the send. */
  lemma {:induction false} EventHasSources(actions: seq<Action>, j: nat) returns (i: nat, ks: seq<nat>)
    requires j < |Events(actions)|
    ensures Sources(actions, Events(actions)[j], i, ks)
    ensures Events(actions)[j].receivedAt == [] ==>
              exists k :: i < k < |actions| && actions[k] == Timeout(Events(actions)[j].seqNo)
  {
    hide Record, Kept, Sources;
    var m := |actions| - 1;
    var e := Events(actions)[j];
    if j < |Events(actions[..m])| {
      i, ks := EventHasSources(actions[..m], j);
      SourcesLater(actions[..m], actions, e, i, ks);
    } else if actions[m].Reply? {
      i, ks := RecordHasSources(actions, actions[m].seqNo);
      ReplyRecorded(actions, actions[m].seqNo);
    } else {
      i, ks := RecordHasSources(actions[..m], actions[m].seqNo);
      SourceBefore(actions[..m], e, i, ks);
      SourcesLater(actions[..m], actions, e, i, ks);
    }
  }

  lemma SourceBefore(actions: seq<Action>, e: Entry, i: nat, ks: seq<nat>)
    requires Sources(actions, e, i, ks)
    ensures i < |actions|
  {
  }

  lemma ReplyRecorded(actions: seq<Action>, n: nat)
    requires actions != [] && Close !in actions[..|actions| - 1] && Record(actions, n).Some?
    requires actions[|actions| - 1].Reply? && actions[|actions| - 1].seqNo == n
    ensures Record(actions, n).value.receivedAt != []
  {
  }

  // ----- timers and clean-ups -----

  /** A timer runs only for a stored number that waits; a due timeout's timer has fired; and none runs once closed. */
  ghost predicate TimersSound(st: State) {
    && (forall id :: id in st.armed ==>
          && st.armed[id] in st.store && st.store[st.armed[id]].timer == Some(id) && st.store[st.armed[id]].receivedAt == []
          && id < st.timersMade)
    && (forall id :: id in st.armed ==> st.armed[id] !in st.due)
    && (forall s :: s in st.due ==> s in st.sent)
    && (st.closed ==> st.armed == map[])
  }

  /** An entry that was answered is scheduled for clean-up. */
  ghost predicate CleanupsSound(st: State) {
    forall s :: s in st.store && st.store[s].receivedAt != [] ==> s in st.cleanups
  }

  lemma SentKeepsTimers(st: State, seqNo: nat, ttl: int, dst: nat, now: int)
    requires TimersSound(st) && EntriesSound(st) && seqNo !in st.sent
    ensures TimersSound(Sent(st, seqNo, ttl, dst, now))
  {
    hide UnAcked;
  }

  lemma ReceivedKeepsTimers(st: State, seqNo: nat, reply: Reply, now: int)
    requires TimersSound(st)
    ensures TimersSound(Received(st, seqNo, reply, now))
  {
    var st' := Received(st, seqNo, reply, now);
    forall id | id in st'.armed
      ensures st'.armed[id] != seqNo
    {
      assert st.armed[id] in st.store;
    }
  }

  lemma FireKeepsTimers(st: State, timer: nat)
    requires TimersSound(st) && EntriesSound(st) && timer in st.armed
    ensures TimersSound(Apply(st, Fire(timer)))
  {
    hide UnAcked;
    var st' := Apply(st, Fire(timer));
    forall id | id in st'.armed
      ensures st'.armed[id] !in st'.due
    {
      assert st.store[st.armed[id]].timer == Some(id) && st.store[st.armed[timer]].timer == Some(timer);
    }
  }

  /** Forgetting a number for which no timer runs. */
  lemma ForgettingKeepsTimers(st: State, st': State, seqNo: nat)
    requires TimersSound(st) && st'.store == st.store - {seqNo} && st'.armed == st.armed && st'.timersMade == st.timersMade
    requires (forall s :: s in st'.due ==> s in st.due) && st'.sent == st.sent && st'.closed == st.closed
    requires forall id :: id in st.armed ==> st.armed[id] != seqNo
    ensures TimersSound(st')
  {
  }

  lemma CloseKeepsTimers(st: State)
    requires TimersSound(st)
    ensures TimersSound(Closed(st)) && Closed(st).armed == map[] && Closed(st).closed
  {
    assert forall id :: id in st.armed ==> st.armed[id] in st.store;
  }

  lemma AnsweredHasNoTimer(st: State, seqNo: nat)
    requires TimersSound(st) && EntriesSound(st) && seqNo in st.cleanups
    ensures forall id :: id in st.armed ==> st.armed[id] != seqNo
  {
  }

  lemma ApplyKeepsTimers(st: State, a: Action)
    requires EntriesSound(st) && TimersSound(st) && Enabled(st, a)
    ensures TimersSound(Apply(st, a))
  {
    hide TimersSound, UnAcked, EntriesSound, Sent, Received;
    match a
    case Send(seqNo, ttl, dst, now) => SentKeepsTimers(st, seqNo, ttl, dst, now);
    case Reply(seqNo, reply, now) => ReceivedKeepsTimers(st, seqNo, reply, now);
    case Fire(timer) => FireKeepsTimers(st, timer);
    case Timeout(seqNo) => TimeoutKeepsTimers(st, seqNo);
    case Cleanup(seqNo) =>
      AnsweredHasNoTimer(st, seqNo);
      ForgettingKeepsTimers(st, Apply(st, a), seqNo);
    case Close => CloseKeepsTimers(st);
  }

  lemma TimeoutKeepsTimers(st: State, seqNo: nat)
    requires TimersSound(st) && seqNo in st.due
    ensures TimersSound(Apply(st, Timeout(seqNo)))
  {
  }

  lemma ApplyKeepsCleanups(st: State, a: Action)
    requires CleanupsSound(st) && Enabled(st, a)
    ensures CleanupsSound(Apply(st, a))
  {
  }

  /** No timer runs for a number that does not wait, closing stops them all for good, and no answered entry is kept without a
      clean-up to come. */
  lemma {:induction false} TimersAndCleanups(actions: seq<Action>, st: State)
    requires Reaches(actions, st)
    ensures TimersSound(st) && CleanupsSound(st)
    ensures !st.closed ==> Enabled(st, Close) && Apply(st, Close).closed && Apply(st, Close).armed == map[]
  {
    CloseStops(st);
    hide Enabled, Apply, TimersSound, CleanupsSound;
    if actions == [] {
      NoTimersYet();
    } else {
      var m := |actions| - 1;
      var prev :| Reaches(actions[..m], prev) && Enabled(prev, actions[m]) && st == Apply(prev, actions[m]);
      ReachableInv(actions[..m], prev);
      TimersAndCleanups(actions[..m], prev);
      ApplyKeepsTimers(prev, actions[m]);
      ApplyKeepsCleanups(prev, actions[m]);
    }
  }

  lemma CloseStops(st: State)
    ensures TimersSound(st) && !st.closed ==> Enabled(st, Close) && Apply(st, Close).closed && Apply(st, Close).armed == map[]
  {
    if TimersSound(st) {
      CloseKeepsTimers(st);
    }
  }

  lemma NoTimersYet()
    ensures TimersSound(NewState()) && CleanupsSound(NewState())
  {
  }
}
