/** The sliding-window rate limiter (pkg/ratelimit/sliding_window_rl.go): the pruned list of timestamps,
    and what the load / compute / compare-and-swap loop guarantees under every interleaving. */
module SlidingWindow {
  import opened Wrappers

  /** The window length and the request limit; the constructor of the pool refuses other values. */
  datatype Config = Config(window: int, limit: int) {
    predicate Valid() {
      window > 0 && limit > 0
    }
  }

  // ----- the pruned list -----

  /** `slices.IndexFunc` for the first timestamp not before `since`; -1 when there is none. */
  function FirstInWindow(ts: seq<int>, since: int): (i: int)
    ensures -1 <= i < |ts|
    ensures i == -1 ==> forall j :: 0 <= j < |ts| ==> ts[j] < since
    ensures i >= 0 ==> ts[i] >= since && forall j :: 0 <= j < i ==> ts[j] < since
  {
    if ts == [] then -1
    else if ts[0] >= since then 0
    else
      var i := FirstInWindow(ts[1..], since);
      if i == -1 then -1 else i + 1
  }

  /** The entry to publish, or `None` when the limit is reached. `ent` is `None` for a nil pointer. */
  function TryAppend(c: Config, ent: Option<seq<int>>, now: int): Option<seq<int>> {
    if ent.None? then Some([now])
    else
      var ts := ent.value;
      var first := FirstInWindow(ts, now - c.window);
      if first == -1 then Some([now])
      else if |ts| - first >= c.limit then None
      else Some(ts[first..] + [now])
  }

  // ----- the admission log it stands for -----

  ghost predicate Sorted(log: seq<int>) {
    forall i, j :: 0 <= i < j < |log| ==> log[i] <= log[j]
  }

  /** How many entries of the log lie in the closed interval from `a` to `b`. */
  function CountIn(log: seq<int>, a: int, b: int): nat {
    if log == [] then 0
    else CountIn(log[..|log| - 1], a, b) + (if a <= log[|log| - 1] <= b then 1 else 0)
  }

  /** Any two admissions `limit` apart in the log are more than a window apart in time. */
  ghost predicate Spaced(c: Config, log: seq<int>) {
    forall i, j :: 0 <= i < j < |log| && i + c.limit <= j ==> log[j] - log[i] > c.window
  }

  /** The entry is the tail of the log, and what it has dropped is older than a window. */
  ghost predicate Refines(c: Config, ent: Option<seq<int>>, log: seq<int>) {
    match ent
    case None => log == []
    case Some(ts) =>
      && 1 <= |ts| <= |log| && |ts| <= c.limit
      && ts == log[|log| - |ts|..]
      && Sorted(log)
      && forall i :: 0 <= i < |log| - |ts| ==> log[i] < log[|log| - 1] - c.window
  }

  /** The entries of an ordered log within an interval are counted by its two boundary positions. */
  lemma {:induction false} CountBetween(log: seq<int>, a: int, b: int, lo: nat, hi: nat)
    requires lo <= hi <= |log|
    requires forall i :: 0 <= i < lo ==> log[i] < a
    requires forall i :: lo <= i < hi ==> a <= log[i] <= b
    requires forall i :: hi <= i < |log| ==> log[i] > b
    ensures CountIn(log, a, b) == hi - lo
  {
    if log != [] {
      var m := |log| - 1;
      CountBetween(log[..m], a, b, if lo <= m then lo else m, if hi <= m then hi else m);
    }
  }

  lemma {:induction false} CountGrows(log: seq<int>, n: nat, a: int, b: int)
    requires n <= |log|
    ensures CountIn(log[..n], a, b) <= CountIn(log, a, b)
    decreases |log|
  {
    if n == |log| {
      assert log[..n] == log;
    } else {
      CountGrows(log[..|log| - 1], n, a, b);
      assert log[..|log| - 1][..n] == log[..n];
    }
  }

  /** The position of the first entry not before `x`. */
  lemma {:induction false} Boundary(log: seq<int>, x: int) returns (k: nat)
    requires Sorted(log)
    ensures k <= |log|
    ensures forall i :: 0 <= i < k ==> log[i] < x
    ensures forall i :: k <= i < |log| ==> log[i] >= x
  {
    k := 0;
    while k < |log| && log[k] < x
      invariant k <= |log| && forall i :: 0 <= i < k ==> log[i] < x
    {
      k := k + 1;
    }
  }

  /** A spaced log has at most `limit` entries in any closed window. */
  lemma SpacedLimitsEveryWindow(c: Config, log: seq<int>, a: int)
    requires c.Valid() && Sorted(log) && Spaced(c, log)
    ensures CountIn(log, a, a + c.window) <= c.limit
  {
    var lo := Boundary(log, a);
    var hi := Boundary(log, a + c.window + 1);
    assert hi < |log| ==> log[hi] > a;
    assert lo + c.limit < |log| ==> log[lo + c.limit] - log[lo] > c.window;
    CountBetween(log, a, a + c.window, lo, hi);
  }

  /** The timestamps of the log from which on the window reaches, given the entry that stands for it. */
  lemma InWindow(c: Config, ent: Option<seq<int>>, log: seq<int>, now: int) returns (j: nat)
    requires c.Valid() && Refines(c, ent, log) && (forall i :: 0 <= i < |log| ==> log[i] <= now)
    ensures j <= |log| && CountIn(log, now - c.window, now) == |log| - j
    ensures forall i :: 0 <= i < j ==> log[i] < now - c.window
    ensures forall i :: j <= i < |log| ==> log[i] >= now - c.window
    ensures TryAppend(c, ent, now) == if |log| - j >= c.limit then None else Some(log[j..] + [now])
  {
    hide CountIn, FirstInWindow;
    if ent.None? {
      j := 0;
      assert log[j..] + [now] == [now];
    } else {
      var ts := ent.value;
      var base := |log| - |ts|;
      var first := FirstInWindow(ts, now - c.window);
      j := if first == -1 then |log| else base + first;
      forall i | 0 <= i < |log|
        ensures i < j ==> log[i] < now - c.window
        ensures i >= j ==> log[i] >= now - c.window
      {
        if i >= base {
          assert log[i] == ts[i - base];
        }
      }
      if first != -1 {
        assert ts[first..] == log[j..];
      } else {
        assert log[j..] + [now] == [now];
      }
    }
    CountBetween(log, now - c.window, now, j, |log|);
  }

  lemma RefinesSorted(c: Config, ent: Option<seq<int>>, log: seq<int>)
    requires Refines(c, ent, log)
    ensures Sorted(log)
  {
  }

  /** The decision on a pruned entry is the decision on the full log: admit exactly when fewer than
      `limit` past admissions lie in the window that ends now. */
  lemma DecisionIsExact(c: Config, ent: Option<seq<int>>, log: seq<int>, now: int)
    requires c.Valid() && Refines(c, ent, log) && (forall i :: 0 <= i < |log| ==> log[i] <= now)
    ensures TryAppend(c, ent, now).Some? <==> CountIn(log, now - c.window, now) < c.limit
  {
    var j := InWindow(c, ent, log, now);
  }

  /** Publishing the appended entry keeps it a faithful tail of the grown log, and the log spaced. */
  lemma AppendRefines(c: Config, ent: Option<seq<int>>, log: seq<int>, now: int)
    requires c.Valid() && Refines(c, ent, log) && Spaced(c, log)
    requires (forall i :: 0 <= i < |log| ==> log[i] <= now) && TryAppend(c, ent, now).Some?
    ensures Refines(c, TryAppend(c, ent, now), log + [now])
    ensures Spaced(c, log + [now])
  {
    RefinesSorted(c, ent, log);
    var j := InWindow(c, ent, log, now);
    hide Refines, Spaced, Sorted, TryAppend, CountIn;
    AppendSorted(log, now);
    TailRefines(c, log, now, j);
    AppendSpaced(c, log, now, j);
  }

  lemma AppendSorted(log: seq<int>, now: int)
    requires Sorted(log) && forall i :: 0 <= i < |log| ==> log[i] <= now
    ensures Sorted(log + [now])
  {
  }

  /** The entries from `j` on, with the new one, stand for the grown log. */
  lemma TailRefines(c: Config, log: seq<int>, now: int, j: nat)
    requires j <= |log| && |log| - j < c.limit && Sorted(log + [now])
    requires forall i :: 0 <= i < j ==> log[i] < now - c.window
    ensures Refines(c, Some(log[j..] + [now]), log + [now])
  {
    hide Sorted;
    assert (log + [now])[j..] == log[j..] + [now];
  }

  /** Of any `limit` admissions before the new one, the first lies before its window. */
  lemma AppendSpaced(c: Config, log: seq<int>, now: int, j: nat)
    requires j <= |log| && |log| - j < c.limit && Spaced(c, log)
    requires forall i :: 0 <= i < j ==> log[i] < now - c.window
    ensures Spaced(c, log + [now])
  {
    var log' := log + [now];
    forall i, k | 0 <= i < k < |log'| && i + c.limit <= k
      ensures log'[k] - log'[i] > c.window
    {
      if k == |log| {
        assert i < j;
      } else {
        assert log'[k] == log[k] && log'[i] == log[i];
      }
    }
  }

  // ----- threads sharing a pool -----

  type Key = string
  type Tid = nat
  /** A pointer into the heap of entries; `None` is nil. Entries are never changed, and never reused while held. */
  type Ptr = Option<nat>

  /** Where a call of Consume stands, or what the last one of a thread answered. `seen` records how many requests the key
      had admitted at the load. */
  datatype Thread =
    | Loading(key: Key)
    | Loaded(key: Key, origin: Ptr, seen: nat)
    | Swapping(key: Key, origin: Ptr, seen: nat, created: nat, now: int)
    | Returned(key: Key, ok: bool)

  /** `admitted` is the history of admission times of each key, in the order of the swaps. */
  datatype State = State(
    clock: int,
    heap: seq<seq<int>>,
    cells: map<Key, Ptr>,
    threads: map<Tid, Thread>,
    admitted: map<Key, seq<int>>)

  ghost predicate InHeap(s: State, p: Ptr) {
    p.Some? ==> p.value < |s.heap|
  }

  ghost function Deref(s: State, p: Ptr): Option<seq<int>>
    requires InHeap(s, p)
  {
    if p.None? then None else Some(s.heap[p.value])
  }

  ghost predicate Init(s: State) {
    s.heap == [] && s.cells == map[] && s.threads == map[] && s.admitted == map[]
  }

  /** The clock is monotone. */
  ghost predicate Tick(s: State, s': State) {
    s'.clock >= s.clock && s' == s.(clock := s'.clock)
  }

  /** LoadOrStore: the key's pointer is created nil on first use. */
  ghost predicate Begin(s: State, s': State, t: Tid, key: Key) {
    && (t !in s.threads || s.threads[t].Returned?)
    && s' == s.(threads := s.threads[t := Loading(key)],
                cells := if key in s.cells then s.cells else s.cells[key := None],
                admitted := if key in s.cells then s.admitted else s.admitted[key := []])
  }

  ghost predicate Load(s: State, s': State, t: Tid) {
    && t in s.threads && s.threads[t].Loading?
    && var key := s.threads[t].key;
       && key in s.cells && key in s.admitted
       && s' == s.(threads := s.threads[t := Loaded(key, s.cells[key], |s.admitted[key]|)])
  }

  /** TryAppend on the loaded entry at the current time. A refusal ends the call without a swap. */
  ghost predicate Compute(c: Config, s: State, s': State, t: Tid, admit: bool) {
    && t in s.threads && s.threads[t].Loaded? && InHeap(s, s.threads[t].origin)
    && var th := s.threads[t];
       var r := TryAppend(c, Deref(s, th.origin), s.clock);
       && admit == r.Some?
       && s' == if admit
                then s.(heap := s.heap + [r.value],
                        threads := s.threads[t := Swapping(th.key, th.origin, th.seen, |s.heap|, s.clock)])
                else s.(threads := s.threads[t := Returned(th.key, false)])
  }

  /** Compare-and-swap; on failure the loop starts over. */
  ghost predicate Swap(s: State, s': State, t: Tid, success: bool) {
    && t in s.threads && s.threads[t].Swapping?
    && var th := s.threads[t];
       && th.key in s.cells && th.key in s.admitted
       && success == (s.cells[th.key] == th.origin)
       && s' == if success
                then s.(cells := s.cells[th.key := Some(th.created)],
                        admitted := s.admitted[th.key := s.admitted[th.key] + [th.now]],
                        threads := s.threads[t := Returned(th.key, true)])
                else s.(threads := s.threads[t := Loading(th.key)])
  }

  /** One step of a run, and what happens in it: when, in which thread, for which key, and how it comes out. */
  datatype Step =
    | Ticks(now: int)
    | Begins(t: Tid, key: Key)
    | Loads(t: Tid, key: Key)
    | Computes(t: Tid, key: Key, now: int, admit: bool)
    | Swaps(t: Tid, key: Key, now: int, success: bool)

  ghost predicate Next(c: Config, s: State, step: Step, s': State) {
    match step
    case Ticks(now) => Tick(s, s') && s'.clock == now
    case Begins(t, key) => Begin(s, s', t, key)
    case Loads(t, key) => Load(s, s', t) && s.threads[t].key == key
    case Computes(t, key, now, admit) => Compute(c, s, s', t, admit) && s.threads[t].key == key && s.clock == now
    case Swaps(t, key, now, success) => Swap(s, s', t, success) && s.threads[t].key == key && s.threads[t].now == now
  }

  ghost predicate AllUpTo(ts: seq<int>, now: int) {
    forall i :: 0 <= i < |ts| ==> ts[i] <= now
  }

  ghost predicate CellInv(c: Config, s: State, key: Key) {
    && key in s.cells && key in s.admitted && InHeap(s, s.cells[key])
    && var log := s.admitted[key];
       AllUpTo(log, s.clock) && Refines(c, Deref(s, s.cells[key]), log) && Spaced(c, log)
  }

  /** What a thread loaded stood for the log as it was then, and still is current if nothing was admitted since. */
  ghost predicate LoadInv(c: Config, s: State, key: Key, origin: Ptr, seen: nat) {
    && CellInv(c, s, key) && InHeap(s, origin)
    && seen <= |s.admitted[key]| && Refines(c, Deref(s, origin), s.admitted[key][..seen])
    && (seen == |s.admitted[key]| ==> s.cells[key] == origin)
  }

  ghost predicate ThreadInv(c: Config, s: State, th: Thread) {
    match th
    case Returned(_, _) => true
    case Loading(key) => CellInv(c, s, key)
    case Loaded(key, origin, seen) => LoadInv(c, s, key, origin, seen)
    case Swapping(key, origin, seen, created, now) =>
      && LoadInv(c, s, key, origin, seen)
      && created < |s.heap| && now <= s.clock
      && AllUpTo(s.admitted[key][..seen], now)
      && Some(s.heap[created]) == TryAppend(c, Deref(s, origin), now)
  }

  ghost predicate Inv(c: Config, s: State) {
    && (forall key :: key in s.cells <==> key in s.admitted)
    && (forall key :: key in s.cells ==> CellInv(c, s, key))
    && (forall t :: t in s.threads ==> ThreadInv(c, s, s.threads[t]))
  }

  /** If the loaded pointer is still current, the loaded entry stands for the whole log. */
  lemma CurrentOrigin(c: Config, s: State, key: Key, origin: Ptr, seen: nat, now: int)
    requires c.Valid() && LoadInv(c, s, key, origin, seen) && s.cells[key] == origin
    requires AllUpTo(s.admitted[key][..seen], now)
    ensures Refines(c, Deref(s, origin), s.admitted[key]) && AllUpTo(s.admitted[key], now)
  {
    hide TryAppend, Spaced;
    var log, ent := s.admitted[key], Deref(s, origin);
    if ent.Some? {
      var ts := ent.value;
      var last := log[|log| - 1];
      assert last == ts[|ts| - 1] == log[..seen][seen - 1];
    }
  }

  lemma EmptyLog(c: Config)
    ensures Refines(c, None, []) && Spaced(c, [])
  {
  }

  lemma TickKeepsInv(c: Config, s: State, s': State)
    requires Inv(c, s) && Tick(s, s')
    ensures Inv(c, s')
  {
    hide Refines, Spaced, TryAppend;
    forall key | key in s'.cells
      ensures CellInv(c, s', key)
    {
      assert CellInv(c, s, key);
    }
    forall t | t in s'.threads
      ensures ThreadInv(c, s', s'.threads[t])
    {
      assert ThreadInv(c, s, s.threads[t]);
    }
  }

  lemma BeginKeepsInv(c: Config, s: State, s': State, t: Tid, key: Key)
    requires Inv(c, s) && Begin(s, s', t, key)
    ensures Inv(c, s')
  {
    hide Refines, Spaced, TryAppend;
    EmptyLog(c);
    forall k | k in s'.cells
      ensures CellInv(c, s', k)
    {
      if k in s.cells {
        assert CellInv(c, s, k);
      }
    }
    forall u | u in s'.threads
      ensures ThreadInv(c, s', s'.threads[u])
    {
      if u != t {
        assert ThreadInv(c, s, s.threads[u]);
      }
    }
  }

  lemma LoadKeepsInv(c: Config, s: State, s': State, t: Tid)
    requires Inv(c, s) && Load(s, s', t)
    ensures Inv(c, s')
  {
    hide Refines, Spaced, TryAppend;
    forall k | k in s'.cells
      ensures CellInv(c, s', k)
    {
      assert CellInv(c, s, k);
    }
    forall u | u in s'.threads
      ensures ThreadInv(c, s', s'.threads[u])
    {
      if u != t {
        assert ThreadInv(c, s, s.threads[u]);
      } else {
        var log := s.admitted[s.threads[t].key];
        assert log[..|log|] == log;
      }
    }
  }

  lemma ComputeKeepsInv(c: Config, s: State, s': State, t: Tid, admit: bool)
    requires Inv(c, s) && Compute(c, s, s', t, admit)
    ensures Inv(c, s')
  {
    hide Refines, Spaced, TryAppend;
    forall k | k in s'.cells
      ensures CellInv(c, s', k)
    {
      assert CellInv(c, s, k);
    }
    forall u | u in s'.threads
      ensures ThreadInv(c, s', s'.threads[u])
    {
      assert ThreadInv(c, s, s.threads[u]);
    }
  }

  lemma SwapKeepsInv(c: Config, s: State, s': State, t: Tid, success: bool)
    requires c.Valid() && Inv(c, s) && Swap(s, s', t, success)
    ensures Inv(c, s')
  {
    hide Refines, Spaced, TryAppend;
    var th := s.threads[t];
    assert ThreadInv(c, s, th);
    if success {
      var log := s.admitted[th.key];
      CurrentOrigin(c, s, th.key, th.origin, th.seen, th.now);
      AppendRefines(c, Deref(s, th.origin), log, th.now);
      assert CellInv(c, s', th.key);
    }
    forall k | k in s'.cells
      ensures CellInv(c, s', k)
    {
      assert CellInv(c, s, k);
    }
    forall u | u in s'.threads && u != t
      ensures ThreadInv(c, s', s'.threads[u])
    {
      var other := s.threads[u];
      assert ThreadInv(c, s, other);
      if success && (other.Loaded? || other.Swapping?) && other.key == th.key {
        assert s'.admitted[th.key][..other.seen] == s.admitted[th.key][..other.seen];
      }
    }
  }

  lemma NextKeepsInv(c: Config, s: State, step: Step, s': State)
    requires c.Valid() && Inv(c, s) && Next(c, s, step, s')
    ensures Inv(c, s')
  {
    hide Inv, Tick, Begin, Load, Compute, Swap;
    match step
    case Ticks(_) => TickKeepsInv(c, s, s');
    case Begins(t, key) => BeginKeepsInv(c, s, s', t, key);
    case Loads(t, _) => LoadKeepsInv(c, s, s', t);
    case Computes(t, _, _, admit) => ComputeKeepsInv(c, s, s', t, admit);
    case Swaps(t, _, _, success) => SwapKeepsInv(c, s, s', t, success);
  }

  /** A finite schedule of steps of any number of threads: `s` is reached from an empty pool by these steps. */
  ghost predicate Reaches(c: Config, steps: seq<Step>, s: State) {
    if steps == [] then Init(s)
    else
      var m := |steps| - 1;
      exists prev :: Reaches(c, steps[..m], prev) && Next(c, prev, steps[m], s)
  }

  lemma {:induction false} ReachableInv(c: Config, steps: seq<Step>, s: State)
    requires c.Valid() && Reaches(c, steps, s)
    ensures Inv(c, s)
  {
    hide Inv, Next;
    if steps == [] {
      InitInv(c, s);
    } else {
      var m := |steps| - 1;
      var prev :| Reaches(c, steps[..m], prev) && Next(c, prev, steps[m], s);
      ReachableInv(c, steps[..m], prev);
      NextKeepsInv(c, prev, steps[m], s);
    }
  }

  lemma InitInv(c: Config, s: State)
    requires Init(s)
    ensures Inv(c, s)
  {
  }

  /** Safety over all interleavings: admission times are in order, the stored list is the log's tail, and no
      closed window of the configured length holds more than the limit for one key. */
  lemma NoWindowExceedsLimit(c: Config, steps: seq<Step>, s: State, key: Key, a: int)
    requires c.Valid() && Reaches(c, steps, s) && key in s.cells
    ensures key in s.admitted && Sorted(s.admitted[key])
    ensures InHeap(s, s.cells[key])
    ensures Refines(c, Deref(s, s.cells[key]), s.admitted[key])
    ensures s.admitted[key] == AdmissionTimes(steps, key)
    ensures CountIn(s.admitted[key], a, a + c.window) <= c.limit
  {
    CallsAreAccounted(c, steps, s, key);
    ReachableInv(c, steps, s);
    assert CellInv(c, s, key);
    SpacedLimitsEveryWindow(c, s.admitted[key], a);
  }

  /** A refusal is justified at the moment it is made, even though the thread may hold a stale entry and
      never swaps: the window that ends then is full. */
  lemma RefusalIsJustified(c: Config, steps: seq<Step>, s: State, t: Tid, s': State)
    requires c.Valid() && Reaches(c, steps, s) && Compute(c, s, s', t, false)
    ensures && s.threads[t].key in s.admitted
            && CountIn(s.admitted[s.threads[t].key], s.clock - c.window, s.clock) == c.limit
  {
    hide Refines, Spaced, Sorted, TryAppend, CountIn;
    ReachableInv(c, steps, s);
    var th := s.threads[t];
    assert ThreadInv(c, s, th);
    var log := s.admitted[th.key];
    RefinesSorted(c, Deref(s, s.cells[th.key]), log);
    DecisionIsExact(c, Deref(s, th.origin), log[..th.seen], s.clock);
    CountGrows(log, th.seen, s.clock - c.window, s.clock);
    SpacedLimitsEveryWindow(c, log, s.clock - c.window);
  }

  /** An admission is justified when it takes effect: at the swap, fewer than the limit of the requests
      admitted so far lie in the window that ends at its timestamp. */
  lemma AdmissionIsJustified(c: Config, steps: seq<Step>, s: State, t: Tid, s': State)
    requires c.Valid() && Reaches(c, steps, s) && Swap(s, s', t, true)
    ensures var th := s.threads[t];
            && AllUpTo(s.admitted[th.key], th.now)
            && CountIn(s.admitted[th.key], th.now - c.window, th.now) < c.limit
  {
    hide Refines, Spaced, TryAppend, CountIn;
    ReachableInv(c, steps, s);
    var th := s.threads[t];
    assert ThreadInv(c, s, th);
    CurrentOrigin(c, s, th.key, th.origin, th.seen, th.now);
    DecisionIsExact(c, Deref(s, th.origin), s.admitted[th.key], th.now);
  }

  // ----- retries -----

  /** A failed swap is always paid for: since this thread loaded, another request of the key was admitted. */
  lemma RetryMeansProgress(c: Config, steps: seq<Step>, s: State, t: Tid, s': State)
    requires c.Valid() && Reaches(c, steps, s) && Swap(s, s', t, false)
    ensures s.threads[t].seen < |s.admitted[s.threads[t].key]|
  {
    ReachableInv(c, steps, s);
    assert ThreadInv(c, s, s.threads[t]);
  }

  /** How many swaps of thread `t` for `key` failed. */
  function FailedSwaps(steps: seq<Step>, t: Tid, key: Key): nat {
    if steps == [] then 0
    else FailedSwaps(steps[..|steps| - 1], t, key) + (if FailsSwap(steps[|steps| - 1], t, key) then 1 else 0)
  }

  predicate FailsSwap(step: Step, t: Tid, key: Key) {
    step.Swaps? && step.t == t && step.key == key && !step.success
  }

  /** The failures so far are at most the requests admitted, and at most those admitted when the thread last loaded. */
  ghost predicate Paid(s: State, t: Tid, key: Key, failures: nat) {
    && (if key in s.admitted then failures <= |s.admitted[key]| else failures == 0)
    && (t in s.threads && (s.threads[t].Loaded? || s.threads[t].Swapping?) && s.threads[t].key == key ==>
          failures <= s.threads[t].seen)
  }

  lemma FailureIsPaid(c: Config, s: State, step: Step, s': State, t: Tid, key: Key, failures: nat)
    requires Inv(c, s) && Next(c, s, step, s') && FailsSwap(step, t, key) && Paid(s, t, key, failures)
    ensures Paid(s', t, key, failures + 1)
  {
    hide Refines, Spaced, TryAppend;
    assert ThreadInv(c, s, s.threads[t]);
  }

  lemma OtherStepsStayPaid(c: Config, s: State, step: Step, s': State, t: Tid, key: Key, failures: nat)
    requires Inv(c, s) && Next(c, s, step, s') && !FailsSwap(step, t, key) && Paid(s, t, key, failures)
    ensures Paid(s', t, key, failures)
  {
    assert forall k :: k in s.cells <==> k in s.admitted;
    hide Inv, Begin, Load, Compute, Swap, Paid;
    match step
    case Ticks(_) => TickStaysPaid(s, s', t, key, failures);
    case Begins(u, k) => BeginStaysPaid(s, s', u, k, t, key, failures);
    case Loads(u, _) => LoadStaysPaid(s, s', u, t, key, failures);
    case Computes(u, _, _, admit) => ComputeStaysPaid(c, s, s', u, admit, t, key, failures);
    case Swaps(u, k, _, success) => SwapStaysPaid(s, s', u, success, t, key, failures);
  }

  lemma TickStaysPaid(s: State, s': State, t: Tid, key: Key, failures: nat)
    requires Tick(s, s') && Paid(s, t, key, failures)
    ensures Paid(s', t, key, failures)
  {
  }

  lemma BeginStaysPaid(s: State, s': State, u: Tid, k: Key, t: Tid, key: Key, failures: nat)
    requires Begin(s, s', u, k) && Paid(s, t, key, failures) && (k in s.cells <==> k in s.admitted)
    ensures Paid(s', t, key, failures)
  {
  }

  lemma LoadStaysPaid(s: State, s': State, u: Tid, t: Tid, key: Key, failures: nat)
    requires Load(s, s', u) && Paid(s, t, key, failures)
    ensures Paid(s', t, key, failures)
  {
  }

  lemma ComputeStaysPaid(c: Config, s: State, s': State, u: Tid, admit: bool, t: Tid, key: Key, failures: nat)
    requires Compute(c, s, s', u, admit) && Paid(s, t, key, failures)
    ensures Paid(s', t, key, failures)
  {
    hide TryAppend;
  }

  lemma SwapStaysPaid(s: State, s': State, u: Tid, success: bool, t: Tid, key: Key, failures: nat)
    requires Swap(s, s', u, success) && Paid(s, t, key, failures)
    ensures Paid(s', t, key, failures)
  {
  }

  /** In every run the failed swaps of a thread for a key are at most the requests of that key admitted so far: the retry
      loop cannot go round without others making progress. */
  lemma {:induction false} FailedSwapsArePaid(c: Config, steps: seq<Step>, s: State, t: Tid, key: Key)
    requires c.Valid() && Reaches(c, steps, s)
    ensures Paid(s, t, key, FailedSwaps(steps, t, key))
    ensures FailedSwaps(steps, t, key) <= if key in s.admitted then |s.admitted[key]| else 0
  {
    hide Inv, Next, Init, FailsSwap, Paid;
    if steps == [] {
      StartPaid(s, t, key);
    } else {
      var m := |steps| - 1;
      var prev :| Reaches(c, steps[..m], prev) && Next(c, prev, steps[m], s);
      ReachableInv(c, steps[..m], prev);
      FailedSwapsArePaid(c, steps[..m], prev, t, key);
      if FailsSwap(steps[m], t, key) {
        FailureIsPaid(c, prev, steps[m], s, t, key, FailedSwaps(steps[..m], t, key));
      } else {
        OtherStepsStayPaid(c, prev, steps[m], s, t, key, FailedSwaps(steps[..m], t, key));
      }
    }
    PaidBounds(s, t, key, FailedSwaps(steps, t, key));
  }

  lemma StartPaid(s: State, t: Tid, key: Key)
    requires Init(s)
    ensures Paid(s, t, key, 0)
  {
  }

  lemma PaidBounds(s: State, t: Tid, key: Key, failures: nat)
    requires Paid(s, t, key, failures)
    ensures failures <= if key in s.admitted then |s.admitted[key]| else 0
  {
  }

  // ----- calls -----

  predicate OfThread(step: Step, t: Tid) {
    !step.Ticks? && step.t == t
  }

  /** The last step that thread `t` took. */
  function LastOf(steps: seq<Step>, t: Tid): Option<Step> {
    if steps == [] then None
    else if OfThread(steps[|steps| - 1], t) then Some(steps[|steps| - 1])
    else LastOf(steps[..|steps| - 1], t)
  }

  /** The step ends a call: a refusal, or a swap that succeeds. */
  predicate Ends(step: Step) {
    (step.Computes? && !step.admit) || (step.Swaps? && step.success)
  }

  /** The step starts the loop, or starts it over. */
  predicate StartsLoop(step: Step) {
    step.Begins? || (step.Swaps? && !step.success)
  }

  /** What a thread may do after its last step: begin a call when it is in none; load, compute and, unless refused, swap
      what it computed at the time it computed it; load again when the swap failed; and nothing more when it succeeded. */
  predicate Follows(last: Option<Step>, step: Step) {
    match step
    case Ticks(_) => true
    case Begins(_, _) => last.None? || Ends(last.value)
    case Loads(_, key) => last.Some? && StartsLoop(last.value) && last.value.key == key
    case Computes(t, key, _, _) => last == Some(Loads(t, key))
    case Swaps(t, key, now, _) => last == Some(Computes(t, key, now, true))
  }

  /** Where a thread stands tells its last step, and what it returned how the call ended. */
  ghost predicate StandsAt(s: State, t: Tid, last: Option<Step>) {
    if t !in s.threads then last.None?
    else
      && last.Some?
      && match s.threads[t]
         case Loading(key) => StartsLoop(last.value) && last.value.key == key
         case Loaded(key, _, _) => last.value == Loads(t, key)
         case Swapping(key, _, _, _, now) => last.value == Computes(t, key, now, true)
         case Returned(key, ok) => Ends(last.value) && last.value.key == key && (ok <==> last.value.Swaps?)
  }

  lemma StandsStep(c: Config, s: State, step: Step, s': State, t: Tid, last: Option<Step>)
    requires Next(c, s, step, s') && StandsAt(s, t, last)
    ensures StandsAt(s', t, if OfThread(step, t) then Some(step) else last)
    ensures OfThread(step, t) ==> Follows(last, step)
  {
    hide TryAppend;
  }

  /** In every run every thread goes through its calls as the code does, one step after the other, and a thread that has
      returned true ended its call with a successful swap, one that has returned false with a refusal. */
  lemma {:induction false} ThreadsFollowTheCode(c: Config, steps: seq<Step>, s: State, t: Tid)
    requires Reaches(c, steps, s)
    ensures StandsAt(s, t, LastOf(steps, t))
    ensures forall k :: 0 <= k < |steps| && OfThread(steps[k], t) ==> Follows(LastOf(steps[..k], t), steps[k])
  {
    hide Next, StandsAt, OfThread, Follows;
    if steps == [] {
      NowhereYet(s, t);
    } else {
      var m := |steps| - 1;
      var prev :| Reaches(c, steps[..m], prev) && Next(c, prev, steps[m], s);
      ThreadsFollowTheCode(c, steps[..m], prev, t);
      StandsStep(c, prev, steps[m], s, t, LastOf(steps[..m], t));
      assert forall k :: 0 <= k < m ==> steps[..m][k] == steps[k] && steps[..m][..k] == steps[..k];
    }
  }

  lemma NowhereYet(s: State, t: Tid)
    requires Init(s)
    ensures StandsAt(s, t, None)
  {
  }

  /** The calls begun for a key, those refused, and the times of those admitted. */
  function Begun(steps: seq<Step>, key: Key): nat {
    if steps == [] then 0
    else
      var last := steps[|steps| - 1];
      Begun(steps[..|steps| - 1], key) + (if last.Begins? && last.key == key then 1 else 0)
  }

  function Refused(steps: seq<Step>, key: Key): nat {
    if steps == [] then 0
    else
      var last := steps[|steps| - 1];
      Refused(steps[..|steps| - 1], key) + (if last.Computes? && last.key == key && !last.admit then 1 else 0)
  }

  function AdmissionTimes(steps: seq<Step>, key: Key): seq<int> {
    if steps == [] then []
    else
      var last := steps[|steps| - 1];
      AdmissionTimes(steps[..|steps| - 1], key) + (if last.Swaps? && last.key == key && last.success then [last.now] else [])
  }

  /** The threads with a call for the key under way. */
  ghost function Open(s: State, key: Key): set<Tid> {
    set t | t in s.threads && !s.threads[t].Returned? && s.threads[t].key == key
  }

  ghost predicate Accounted(s: State, key: Key, begun: nat, refused: nat, admissions: seq<int>) {
    && (key in s.cells <==> key in s.admitted)
    && begun == |admissions| + refused + |Open(s, key)|
    && (if key in s.admitted then s.admitted[key] == admissions else begun == 0)
  }

  lemma ThreadsStep(c: Config, s: State, step: Step, s': State)
    requires Next(c, s, step, s')
    ensures if step.Begins? then
              (step.t !in s.threads || s.threads[step.t].Returned?) && s'.threads == s.threads[step.t := Loading(step.key)]
            else if Ends(step) then
              && step.t in s.threads && !s.threads[step.t].Returned? && s.threads[step.t].key == step.key
              && s'.threads == s.threads[step.t := Returned(step.key, step.Swaps?)]
            else
              && s'.threads.Keys == s.threads.Keys
              && forall t :: t in s.threads ==> s'.threads[t].Returned? == s.threads[t].Returned? && s'.threads[t].key == s.threads[t].key
  {
    hide TryAppend;
  }

  lemma OpenStep(c: Config, s: State, step: Step, s': State, key: Key)
    requires Next(c, s, step, s')
    ensures |Open(s', key)| == |Open(s, key)|
                               + (if step.Begins? && step.key == key then 1 else 0)
                               - (if Ends(step) && step.key == key then 1 else 0)
  {
    ThreadsStep(c, s, step, s');
    hide Next, Ends, Open;
    if step.Begins? {
      OneBegun(s, s', step.t, step.key, key);
    } else if Ends(step) {
      OneEnded(s, s', step.t, step.key, step.Swaps?, key);
    } else {
      NoneEnded(s, s', key);
    }
  }

  lemma OneBegun(s: State, s': State, t: Tid, begun: Key, key: Key)
    requires (t !in s.threads || s.threads[t].Returned?) && s'.threads == s.threads[t := Loading(begun)]
    ensures |Open(s', key)| == |Open(s, key)| + (if begun == key then 1 else 0)
  {
    assert Open(s', key) == Open(s, key) + (if begun == key then {t} else {});
  }

  lemma OneEnded(s: State, s': State, t: Tid, ended: Key, ok: bool, key: Key)
    requires t in s.threads && !s.threads[t].Returned? && s.threads[t].key == ended
    requires s'.threads == s.threads[t := Returned(ended, ok)]
    ensures |Open(s', key)| == |Open(s, key)| - (if ended == key then 1 else 0)
  {
    assert Open(s', key) == Open(s, key) - (if ended == key then {t} else {});
  }

  lemma NoneEnded(s: State, s': State, key: Key)
    requires s'.threads.Keys == s.threads.Keys
    requires forall t :: t in s.threads ==> s'.threads[t].Returned? == s.threads[t].Returned? && s'.threads[t].key == s.threads[t].key
    ensures |Open(s', key)| == |Open(s, key)|
  {
    assert Open(s', key) == Open(s, key);
  }

  lemma AccountStep(c: Config, s: State, step: Step, s': State, key: Key, begun: nat, refused: nat, admissions: seq<int>)
    requires Next(c, s, step, s') && Accounted(s, key, begun, refused, admissions)
    ensures Accounted(s', key,
              begun + (if step.Begins? && step.key == key then 1 else 0),
              refused + (if step.Computes? && step.key == key && !step.admit then 1 else 0),
              admissions + (if step.Swaps? && step.key == key && step.success then [step.now] else []))
  {
    OpenStep(c, s, step, s', key);
    hide TryAppend, Open;
  }

  /** In every run, for every key: the calls begun are those admitted, those refused and those still under way, so every
      call that has ended was either admitted once or refused once; and the history of admissions is that of the swaps
      that succeeded, each at the time its call computed it. */
  lemma {:induction false} CallsAreAccounted(c: Config, steps: seq<Step>, s: State, key: Key)
    requires Reaches(c, steps, s)
    ensures Begun(steps, key) == |AdmissionTimes(steps, key)| + Refused(steps, key) + |Open(s, key)|
    ensures if key in s.admitted then s.admitted[key] == AdmissionTimes(steps, key) else Begun(steps, key) == 0
    ensures key in s.cells <==> key in s.admitted
  {
    hide Next, Open, Accounted;
    if steps == [] {
      NothingAccounted(s, key);
    } else {
      var m := |steps| - 1;
      var prev :| Reaches(c, steps[..m], prev) && Next(c, prev, steps[m], s);
      CallsAreAccounted(c, steps[..m], prev, key);
      Account(prev, key, steps[..m]);
      AccountStep(c, prev, steps[m], s, key,
                  Begun(steps[..m], key), Refused(steps[..m], key), AdmissionTimes(steps[..m], key));
      OfAccount(s, key, Begun(steps, key), Refused(steps, key), AdmissionTimes(steps, key));
    }
  }

  lemma NothingAccounted(s: State, key: Key)
    requires Init(s)
    ensures Open(s, key) == {} && key !in s.admitted && key !in s.cells
  {
  }

  lemma Account(s: State, key: Key, steps: seq<Step>)
    requires Begun(steps, key) == |AdmissionTimes(steps, key)| + Refused(steps, key) + |Open(s, key)|
    requires if key in s.admitted then s.admitted[key] == AdmissionTimes(steps, key) else Begun(steps, key) == 0
    requires key in s.cells <==> key in s.admitted
    ensures Accounted(s, key, Begun(steps, key), Refused(steps, key), AdmissionTimes(steps, key))
  {
    hide Begun, Refused, AdmissionTimes, Open;
  }

  lemma OfAccount(s: State, key: Key, begun: nat, refused: nat, admissions: seq<int>)
    requires Accounted(s, key, begun, refused, admissions)
    ensures begun == |admissions| + refused + |Open(s, key)|
    ensures if key in s.admitted then s.admitted[key] == admissions else begun == 0
    ensures key in s.cells <==> key in s.admitted
  {
  }

  // ----- a call that runs alone -----

  /** The requests of the key admitted so far. */
  ghost function LogOf(s: State, key: Key): seq<int> {
    if key in s.admitted then s.admitted[key] else []
  }

  lemma StepTo(c: Config, steps: seq<Step>, s: State, step: Step, s': State) returns (steps': seq<Step>)
    requires Reaches(c, steps, s) && Next(c, s, step, s')
    ensures steps' == steps + [step] && Reaches(c, steps', s')
  {
    steps' := steps + [step];
    assert steps'[..|steps|] == steps;
  }

  /** The steps that were added are all of thread `t`. */
  ghost predicate OnlyBy(steps: seq<Step>, steps': seq<Step>, t: Tid) {
    steps <= steps' && forall k :: |steps| <= k < |steps'| ==> OfThread(steps'[k], t)
  }

  /** The call has returned what the full log says at this time, and was logged exactly when it was admitted. */
  ghost predicate Decided(c: Config, s: State, s': State, t: Tid, key: Key) {
    var now, log := s.clock, LogOf(s, key);
    var ok := CountIn(log, now - c.window, now) < c.limit;
    && t in s'.threads && s'.threads[t] == Returned(key, ok)
    && LogOf(s', key) == log + (if ok then [now] else [])
    && (forall k :: k != key ==> LogOf(s', k) == LogOf(s, k))
    && forall u :: u != t ==> (u in s'.threads <==> u in s.threads) && (u in s.threads ==> s'.threads[u] == s.threads[u])
  }

  /** From the start of the loop a call that is not disturbed ends within three steps. */
  lemma LoopAlone(c: Config, steps: seq<Step>, s: State, t: Tid) returns (steps': seq<Step>, s': State)
    requires c.Valid() && Reaches(c, steps, s) && t in s.threads && s.threads[t].Loading?
    ensures Reaches(c, steps', s') && OnlyBy(steps, steps', t) && |steps'| <= |steps| + 3
    ensures Decided(c, s, s', t, s.threads[t].key)
  {
    hide Reaches, TryAppend, CountIn, Refines, Spaced;
    ReachableInv(c, steps, s);
    var key := s.threads[t].key;
    assert ThreadInv(c, s, s.threads[t]);
    var s1 := s.(threads := s.threads[t := Loaded(key, s.cells[key], |s.admitted[key]|)]);
    var steps1 := StepTo(c, steps, s, Loads(t, key), s1);
    DecisionIsExact(c, Deref(s, s.cells[key]), s.admitted[key], s.clock);
    var r := TryAppend(c, Deref(s1, s1.cells[key]), s1.clock);
    if r.None? {
      s' := s1.(threads := s1.threads[t := Returned(key, false)]);
      steps' := StepTo(c, steps1, s1, Computes(t, key, s1.clock, false), s');
    } else {
      var s2 := s1.(heap := s1.heap + [r.value],
                    threads := s1.threads[t := Swapping(key, s1.cells[key], |s.admitted[key]|, |s1.heap|, s1.clock)]);
      var steps2 := StepTo(c, steps1, s1, Computes(t, key, s1.clock, true), s2);
      s' := s2.(cells := s2.cells[key := Some(|s1.heap|)],
                admitted := s2.admitted[key := s2.admitted[key] + [s1.clock]],
                threads := s2.threads[t := Returned(key, true)]);
      steps' := StepTo(c, steps2, s2, Swaps(t, key, s1.clock, true), s');
    }
  }

  /** A thread in no call can at any later time make one, and undisturbed it is admitted exactly when fewer than the limit of
      the key's requests lie in the window that ends then. */
  lemma CallAlone(c: Config, steps: seq<Step>, s: State, t: Tid, key: Key, now: int) returns (steps': seq<Step>, s': State)
    requires c.Valid() && Reaches(c, steps, s) && (t in s.threads ==> s.threads[t].Returned?) && now >= s.clock
    ensures Reaches(c, steps', s') && steps <= steps' && |steps'| <= |steps| + 5
    ensures Decided(c, s.(clock := now), s', t, key)
  {
    hide Reaches, CountIn;
    var s1 := s.(clock := now);
    var steps1 := StepTo(c, steps, s, Ticks(now), s1);
    var s2 := s1.(threads := s1.threads[t := Loading(key)],
                  cells := if key in s1.cells then s1.cells else s1.cells[key := None],
                  admitted := if key in s1.cells then s1.admitted else s1.admitted[key := []]);
    CallsAreAccounted(c, steps, s, key);
    var steps2 := StepTo(c, steps1, s1, Begins(t, key), s2);
    steps', s' := LoopAlone(c, steps2, s2, t);
  }

  /** Whatever the others are doing, every call under way can end within five steps of its own: no thread can block another. */
  lemma CallCanEnd(c: Config, steps: seq<Step>, s: State, t: Tid) returns (steps': seq<Step>, s': State)
    requires c.Valid() && Reaches(c, steps, s) && t in s.threads && !s.threads[t].Returned?
    ensures Reaches(c, steps', s') && OnlyBy(steps, steps', t) && |steps'| <= |steps| + 5
    ensures t in s'.threads && s'.threads[t].Returned? && s'.threads[t].key == s.threads[t].key
  {
    hide Reaches, TryAppend, Decided;
    if s.threads[t].Loading? {
      steps', s' := LoopAlone(c, steps, s, t);
      DecidedReturns(c, s, s', t, s.threads[t].key);
    } else if s.threads[t].Swapping? {
      steps', s' := SwapAlone(c, steps, s, t);
    } else {
      ReachableInv(c, steps, s);
      var th := s.threads[t];
      assert ThreadInv(c, s, th);
      var r := TryAppend(c, Deref(s, th.origin), s.clock);
      if r.None? {
        s' := s.(threads := s.threads[t := Returned(th.key, false)]);
        steps' := StepTo(c, steps, s, Computes(t, th.key, s.clock, false), s');
      } else {
        var s1 := s.(heap := s.heap + [r.value],
                     threads := s.threads[t := Swapping(th.key, th.origin, th.seen, |s.heap|, s.clock)]);
        var steps1 := StepTo(c, steps, s, Computes(t, th.key, s.clock, true), s1);
        steps', s' := SwapAlone(c, steps1, s1, t);
      }
    }
  }

  lemma DecidedReturns(c: Config, s: State, s': State, t: Tid, key: Key)
    requires Decided(c, s, s', t, key)
    ensures t in s'.threads && s'.threads[t].Returned? && s'.threads[t].key == key
  {
  }

  lemma SwapAlone(c: Config, steps: seq<Step>, s: State, t: Tid) returns (steps': seq<Step>, s': State)
    requires c.Valid() && Reaches(c, steps, s) && t in s.threads && s.threads[t].Swapping?
    ensures Reaches(c, steps', s') && OnlyBy(steps, steps', t) && |steps'| <= |steps| + 4
    ensures t in s'.threads && s'.threads[t].Returned? && s'.threads[t].key == s.threads[t].key
  {
    hide Reaches, TryAppend, Decided;
    ReachableInv(c, steps, s);
    var th := s.threads[t];
    assert ThreadInv(c, s, th);
    if s.cells[th.key] == th.origin {
      s' := s.(cells := s.cells[th.key := Some(th.created)],
               admitted := s.admitted[th.key := s.admitted[th.key] + [th.now]],
               threads := s.threads[t := Returned(th.key, true)]);
      steps' := StepTo(c, steps, s, Swaps(t, th.key, th.now, true), s');
    } else {
      var s1 := s.(threads := s.threads[t := Loading(th.key)]);
      var steps1 := StepTo(c, steps, s, Swaps(t, th.key, th.now, false), s1);
      steps', s' := LoopAlone(c, steps1, s1, t);
      DecidedReturns(c, s1, s', t, th.key);
    }
  }
}
