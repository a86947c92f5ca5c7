/** The cache in front of an IP information provider (pkg/ipinfo/cache.go). An update clones the store in one request
    to the actor, inserts into the clone, and publishes it in another, so overlapping updates can lose each other's
    entries; what a hit may return is safe all the same. */
module IpInfoCache {
  import opened Wrappers

  /** What the provider tells about an address; never looked into. */
  type Info = string

  datatype CacheEntry = CacheEntry(value: Info, expiresAt: int)

  type Store = map<string, CacheEntry>

  /** The cached value of `ip`, unless there is none or it has expired. */
  function Cached(store: Store, ip: string, now: int): Option<Info> {
    if ip in store && store[ip].expiresAt > now then Some(store[ip].value) else None
  }

  function Inserted(store: Store, ip: string, result: Info, now: int, maxExpireTime: int): Store {
    store[ip := CacheEntry(result, now + maxExpireTime)]
  }

  /** An entry is found from its insertion until its lifetime is over, and an insertion touches no other address. */
  lemma CachedAfterInsert(store: Store, ip: string, result: Info, at: int, maxExpireTime: int, ip': string, now: int)
    ensures Cached(map[], ip', now) == None
    ensures Cached(Inserted(store, ip, result, at, maxExpireTime), ip', now)
            == if ip' != ip then Cached(store, ip', now) else if now < at + maxExpireTime then Some(result) else None
  {
  }

  class CacheIPInfoProvider {
    const maxExpireTime: int
    var store: Store

    constructor (maxExpireTime: int)
      ensures store == map[] && this.maxExpireTime == maxExpireTime
    {
      this.maxExpireTime := maxExpireTime;
      store := map[];
    }

    method GetCache(ip: string, now: int) returns (r: Option<Info>)
      ensures r == Cached(store, ip, now)
      ensures r.Some? <==> ip in store && now < store[ip].expiresAt
      ensures r.Some? ==> r.value == store[ip].value
    {
      if ip in store {
        var cacheEntry := store[ip];
        if cacheEntry.expiresAt > now {
          return Some(cacheEntry.value);
        }
        return None;
      }
      r := None;
    }

    /** The first request of an update. */
    method CloneStore() returns (clonedStore: Store)
      ensures clonedStore == store
    {
      clonedStore := store;
    }

    /** The second request of an update. */
    method Publish(clonedStore: Store)
      modifies `store
      ensures store == clonedStore
    {
      store := clonedStore;
    }

    /** An update that no other update overlaps. */
    method UpdateCache(ip: string, result: Info, now: int)
      modifies `store
      ensures store == Inserted(old(store), ip, result, now, maxExpireTime)
    {
      var clonedStore := CloneStore();
      clonedStore := clonedStore[ip := CacheEntry(result, now + maxExpireTime)];
      Publish(clonedStore);
    }

    /** A call that nothing overlaps: a fresh value comes from the cache and the provider is not asked; otherwise its
        answer is passed on and, unless it failed or had nothing to say, cached. */
    method GetIPInfo(upstream: string -> Result<Option<Info>, string>, ip: string, now: int)
      returns (r: Result<Option<Info>, string>, cacheHit: bool)
      modifies `store
      ensures cacheHit <==> Cached(old(store), ip, now).Some?
      ensures r == if cacheHit then Success(Cached(old(store), ip, now)) else upstream(ip)
      ensures store == if !cacheHit && r.Success? && r.value.Some?
                       then Inserted(old(store), ip, r.value.value, now, maxExpireTime) else old(store)
    {
      cacheHit := false;
      var cached := GetCache(ip, now);
      if cached.Some? {
        cacheHit := true;
        return Success(cached), cacheHit;
      }
      r := upstream(ip);
      if r.Failure? || r.value.None? {
        return;
      }
      UpdateCache(ip, r.value.value, now);
    }
  }

  // ----- overlapping calls -----

  /** A call of GetIPInfo: asking the provider; answered and about to clone; holding a clone of the version it was
      taken from; holding the clone with its own entry inserted. */
  datatype Call =
    | Fetching(ip: string)
    | Answered(ip: string, result: Info)
    | Cloned(ip: string, result: Info, clone: Store, base: nat)
    | Ready(ip: string, clone: Store, base: nat, entry: CacheEntry)

  /** What the provider answered and when. */
  datatype Answer = Answer(ip: string, result: Info, at: int)

  /** What a call returned and when: a value or nothing, from the cache or not. */
  datatype Return = Return(ip: string, result: Option<Info>, hit: bool, at: int)

  /** One published store: the version it was cloned from, and the entry inserted into the clone. */
  datatype Version = Version(base: nat, ip: string, entry: CacheEntry)

  /** `given`, `returned` and `versions` are histories. */
  datatype State = State(
    clock: int,
    store: Store,
    calls: map<nat, Call>,
    given: set<Answer>,
    returned: seq<Return>,
    versions: seq<Version>)

  function Start(clock: int): State {
    State(clock, map[], map[], {}, [], [])
  }

  datatype Action =
    | Advance(d: nat)
    | LookUp(t: nat, ip: string)
    | Ask(t: nat, answer: Option<Info>)
    | Clone(t: nat)
    | Insert(t: nat)
    | Publish(t: nat)

  predicate Enabled(s: State, a: Action) {
    match a
    case Advance(_) => true
    case LookUp(t, _) => t !in s.calls
    case Ask(t, _) => t in s.calls && s.calls[t].Fetching?
    case Clone(t) => t in s.calls && s.calls[t].Answered?
    case Insert(t) => t in s.calls && s.calls[t].Cloned?
    case Publish(t) => t in s.calls && s.calls[t].Ready?
  }

  /** `maxAge` is the configured lifetime of an entry. An upstream error or an empty answer ends the call. */
  function Apply(maxAge: int, s: State, a: Action): State
    requires Enabled(s, a)
  {
    match a
    case Advance(d) => s.(clock := s.clock + d)
    case LookUp(t, ip) =>
      var cached := Cached(s.store, ip, s.clock);
      if cached.Some? then s.(returned := s.returned + [Return(ip, cached, true, s.clock)])
      else s.(calls := s.calls[t := Fetching(ip)])
    case Ask(t, answer) =>
      if answer.None? then s.(calls := s.calls - {t}, returned := s.returned + [Return(s.calls[t].ip, None, false, s.clock)])
      else s.(calls := s.calls[t := Answered(s.calls[t].ip, answer.value)],
              given := s.given + {Answer(s.calls[t].ip, answer.value, s.clock)})
    case Clone(t) =>
      s.(calls := s.calls[t := Cloned(s.calls[t].ip, s.calls[t].result, s.store, |s.versions|)])
    case Insert(t) =>
      var c := s.calls[t];
      s.(calls := s.calls[t := Ready(c.ip, Inserted(c.clone, c.ip, c.result, s.clock, maxAge), c.base,
                                     CacheEntry(c.result, s.clock + maxAge))])
    case Publish(t) =>
      var c := s.calls[t];
      s.(store := c.clone, calls := s.calls - {t}, versions := s.versions + [Version(c.base, c.ip, c.entry)],
         returned := s.returned + [Return(c.ip, Some(c.entry.value), false, s.clock)])
  }

  /** The provider gave this value for this address, no later than it was cached. */
  ghost predicate FromUpstream(given: set<Answer>, ip: string, value: Info, cachedAt: int) {
    exists a :: a in given && a.ip == ip && a.result == value && a.at <= cachedAt
  }

  ghost predicate EntrySound(maxAge: int, given: set<Answer>, clock: int, ip: string, e: CacheEntry) {
    e.expiresAt - maxAge <= clock && FromUpstream(given, ip, e.value, e.expiresAt - maxAge)
  }

  ghost predicate StoreSound(maxAge: int, given: set<Answer>, clock: int, store: Store) {
    forall ip :: ip in store ==> EntrySound(maxAge, given, clock, ip, store[ip])
  }

  ghost predicate CallSound(maxAge: int, given: set<Answer>, clock: int, c: Call) {
    match c
    case Fetching(_) => true
    case Answered(ip, result) => FromUpstream(given, ip, result, clock)
    case Cloned(ip, result, clone, _) => FromUpstream(given, ip, result, clock) && StoreSound(maxAge, given, clock, clone)
    case Ready(ip, clone, _, entry) => FromUpstream(given, ip, entry.value, clock) && StoreSound(maxAge, given, clock, clone)
  }

  /** A hit returned what the provider gave for the same address, and cached less than `maxAge` before; a miss what it gave
      for the address by then, if anything. */
  ghost predicate ReturnSound(maxAge: int, given: set<Answer>, r: Return) {
    if r.hit then
      && r.result.Some?
      && exists cachedAt :: FromUpstream(given, r.ip, r.result.value, cachedAt) && cachedAt <= r.at < cachedAt + maxAge
    else r.result.Some? ==> FromUpstream(given, r.ip, r.result.value, r.at)
  }

  ghost predicate Fresh(maxAge: int, s: State) {
    && StoreSound(maxAge, s.given, s.clock, s.store)
    && (forall t :: t in s.calls ==> CallSound(maxAge, s.given, s.clock, s.calls[t]))
    && (forall i :: 0 <= i < |s.returned| ==> ReturnSound(maxAge, s.given, s.returned[i]))
  }

  lemma CallSoundLater(maxAge: int, given: set<Answer>, clock: int, given': set<Answer>, clock': int, c: Call)
    requires CallSound(maxAge, given, clock, c) && given <= given' && clock <= clock'
    ensures CallSound(maxAge, given', clock', c)
  {
    if c.Cloned? || c.Ready? {
      StoreSoundLater(maxAge, given, clock, given', clock', c.clone);
    }
  }

  lemma StoreSoundLater(maxAge: int, given: set<Answer>, clock: int, given': set<Answer>, clock': int, store: Store)
    requires StoreSound(maxAge, given, clock, store) && given <= given' && clock <= clock'
    ensures StoreSound(maxAge, given', clock', store)
  {
    forall ip | ip in store
      ensures EntrySound(maxAge, given', clock', ip, store[ip])
    {
      assert EntrySound(maxAge, given, clock, ip, store[ip]);
    }
  }

  /** Facts already established stay so as time passes and the provider answers more. */
  lemma FreshLater(maxAge: int, s: State, given': set<Answer>, clock': int)
    requires Fresh(maxAge, s) && s.given <= given' && s.clock <= clock'
    ensures Fresh(maxAge, s.(given := given', clock := clock'))
  {
    hide EntrySound, CallSound, StoreSound;
    var s' := s.(given := given', clock := clock');
    StoreSoundLater(maxAge, s.given, s.clock, given', clock', s.store);
    forall t | t in s'.calls
      ensures CallSound(maxAge, given', clock', s'.calls[t])
    {
      CallSoundLater(maxAge, s.given, s.clock, given', clock', s.calls[t]);
    }
    forall i | 0 <= i < |s'.returned|
      ensures ReturnSound(maxAge, given', s'.returned[i])
    {
      ReturnSoundLater(maxAge, s.given, given', s.returned[i]);
    }
  }

  lemma ReturnSoundLater(maxAge: int, given: set<Answer>, given': set<Answer>, r: Return)
    requires ReturnSound(maxAge, given, r) && given <= given'
    ensures ReturnSound(maxAge, given', r)
  {
    if r.hit {
      var cachedAt :| FromUpstream(given, r.ip, r.result.value, cachedAt) && cachedAt <= r.at < cachedAt + maxAge;
      assert FromUpstream(given', r.ip, r.result.value, cachedAt);
    }
  }

  lemma ApplyKeepsFresh(maxAge: int, s: State, a: Action)
    requires Fresh(maxAge, s) && Enabled(s, a)
    ensures Fresh(maxAge, Apply(maxAge, s, a))
  {
    match a
    case Advance(d) => FreshLater(maxAge, s, s.given, s.clock + d);
    case LookUp(t, ip) => LookUpKeepsFresh(maxAge, s, t, ip);
    case Ask(t, answer) => AskKeepsFresh(maxAge, s, t, answer);
    case Clone(t) => assert CallSound(maxAge, s.given, s.clock, s.calls[t]);
    case Insert(t) => InsertKeepsFresh(maxAge, s, t);
    case Publish(t) => PublishKeepsFresh(maxAge, s, t);
  }

  lemma AskKeepsFresh(maxAge: int, s: State, t: nat, answer: Option<Info>)
    requires Fresh(maxAge, s) && Enabled(s, Ask(t, answer))
    ensures Fresh(maxAge, Apply(maxAge, s, Ask(t, answer)))
  {
    if answer.Some? {
      var given' := s.given + {Answer(s.calls[t].ip, answer.value, s.clock)};
      FreshLater(maxAge, s, given', s.clock);
      assert Answer(s.calls[t].ip, answer.value, s.clock) in given';
    }
    hide StoreSound, FromUpstream;
  }

  lemma PublishKeepsFresh(maxAge: int, s: State, t: nat)
    requires Fresh(maxAge, s) && Enabled(s, Publish(t))
    ensures Fresh(maxAge, Apply(maxAge, s, Publish(t)))
  {
    hide StoreSound, FromUpstream;
    assert CallSound(maxAge, s.given, s.clock, s.calls[t]);
  }

  lemma LookUpKeepsFresh(maxAge: int, s: State, t: nat, ip: string)
    requires Fresh(maxAge, s) && Enabled(s, LookUp(t, ip))
    ensures Fresh(maxAge, Apply(maxAge, s, LookUp(t, ip)))
  {
    assert CallSound(maxAge, s.given, s.clock, Fetching(ip));
    hide FromUpstream, CallSound;
    if Cached(s.store, ip, s.clock).Some? {
      var e := s.store[ip];
      assert EntrySound(maxAge, s.given, s.clock, ip, e);
      assert ReturnSound(maxAge, s.given, Return(ip, Some(e.value), true, s.clock));
    }
  }

  lemma InsertKeepsFresh(maxAge: int, s: State, t: nat)
    requires Fresh(maxAge, s) && Enabled(s, Insert(t))
    ensures Fresh(maxAge, Apply(maxAge, s, Insert(t)))
  {
    hide FromUpstream, ReturnSound;
    var c := s.calls[t];
    assert CallSound(maxAge, s.given, s.clock, c);
    var e := CacheEntry(c.result, s.clock + maxAge);
    assert e.expiresAt - maxAge == s.clock;
    assert EntrySound(maxAge, s.given, s.clock, c.ip, e);
    assert StoreSound(maxAge, s.given, s.clock, Inserted(c.clone, c.ip, c.result, s.clock, maxAge)) by {
      hide EntrySound;
    }
  }

  // ----- which updates survive -----

  /** The store that version `v` published; version 0 is the empty store. */
  function Content(versions: seq<Version>, v: nat): Store
    requires v <= |versions| && WellBased(versions)
    decreases v
  {
    if v == 0 then map[]
    else Content(versions, versions[v - 1].base)[versions[v - 1].ip := versions[v - 1].entry]
  }

  /** Clones are taken from earlier versions. */
  predicate WellBased(versions: seq<Version>) {
    forall i :: 0 <= i < |versions| ==> versions[i].base <= i
  }

  lemma {:induction false} ContentOfPrefix(versions: seq<Version>, more: Version, v: nat)
    requires WellBased(versions) && more.base <= |versions| && v <= |versions|
    ensures WellBased(versions + [more]) && Content(versions + [more], v) == Content(versions, v)
    decreases v
  {
    if v > 0 {
      ContentOfPrefix(versions, more, versions[v - 1].base);
    }
  }

  ghost predicate CallBased(versions: seq<Version>, c: Call)
    requires WellBased(versions)
  {
    match c
    case Cloned(_, _, clone, base) => base <= |versions| && clone == Content(versions, base)
    case Ready(ip, clone, base, entry) => base <= |versions| && clone == Content(versions, base)[ip := entry]
    case _ => true
  }

  ghost predicate Chained(s: State) {
    && WellBased(s.versions)
    && s.store == Content(s.versions, |s.versions|)
    && (forall t :: t in s.calls ==> CallBased(s.versions, s.calls[t]))
  }

  lemma ApplyKeepsChained(maxAge: int, s: State, a: Action)
    requires Chained(s) && Enabled(s, a)
    ensures Chained(Apply(maxAge, s, a))
  {
    if a.Publish? {
      PublishKeepsChained(maxAge, s, a.t);
    } else {
      hide Content, WellBased;
      var s' := Apply(maxAge, s, a);
      assert forall t :: t in s'.calls ==> CallBased(s'.versions, s'.calls[t]);
    }
  }

  lemma PublishKeepsChained(maxAge: int, s: State, t: nat)
    requires Chained(s) && Enabled(s, Publish(t))
    ensures Chained(Apply(maxAge, s, Publish(t)))
  {
    hide WellBased;
    var c := s.calls[t];
    assert CallBased(s.versions, c);
    var s' := Apply(maxAge, s, Publish(t));
    var more := Version(c.base, c.ip, c.entry);
    ContentOfPrefix(s.versions, more, c.base);
    assert s'.store == Content(s'.versions, |s'.versions|);
    forall u | u in s'.calls
      ensures CallBased(s'.versions, s'.calls[u])
    {
      var d := s.calls[u];
      assert CallBased(s.versions, d);
      if d.Cloned? || d.Ready? {
        ContentOfPrefix(s.versions, more, d.base);
      }
    }
  }

  /** `s` is reached from an empty cache by some schedule. */
  ghost predicate Reaches(maxAge: int, clock: int, actions: seq<Action>, s: State) {
    if actions == [] then s == Start(clock)
    else
      var m := |actions| - 1;
      exists prev ::
        Reaches(maxAge, clock, actions[..m], prev) && Enabled(prev, actions[m]) && s == Apply(maxAge, prev, actions[m])
  }

  lemma {:induction false} ReachableInv(maxAge: int, clock: int, actions: seq<Action>, s: State)
    requires Reaches(maxAge, clock, actions, s)
    ensures Fresh(maxAge, s) && Chained(s)
  {
    if actions != [] {
      hide Fresh, Chained, Enabled, Apply;
      var m := |actions| - 1;
      var prev :| Reaches(maxAge, clock, actions[..m], prev) && Enabled(prev, actions[m])
                  && s == Apply(maxAge, prev, actions[m]);
      ReachableInv(maxAge, clock, actions[..m], prev);
      ApplyKeepsFresh(maxAge, prev, actions[m]);
      ApplyKeepsChained(maxAge, prev, actions[m]);
    }
  }

  // ----- the history of a run -----

  /** The time, the address that call `t` is for, and the answers of the provider, by the actions alone. */
  function TimeAfter(clock: int, actions: seq<Action>): int {
    if actions == [] then clock
    else
      var last := actions[|actions| - 1];
      TimeAfter(clock, actions[..|actions| - 1]) + (if last.Advance? then last.d else 0)
  }

  function AddressOf(actions: seq<Action>, t: nat): string {
    if actions == [] then ""
    else
      var last := actions[|actions| - 1];
      if last.LookUp? && last.t == t then last.ip else AddressOf(actions[..|actions| - 1], t)
  }

  function LookUps(actions: seq<Action>, ip: string): nat {
    if actions == [] then 0
    else
      var last := actions[|actions| - 1];
      LookUps(actions[..|actions| - 1], ip) + (if last.LookUp? && last.ip == ip then 1 else 0)
  }

  /** Position `k` is the provider's answer to a call for this address at this time. */
  ghost predicate AnsweredAt(clock: int, actions: seq<Action>, k: nat, a: Answer) {
    && k < |actions| && actions[k].Ask? && actions[k].answer == Some(a.result)
    && AddressOf(actions[..k], actions[k].t) == a.ip && TimeAfter(clock, actions[..k]) == a.at
  }

  ghost predicate Recorded(clock: int, actions: seq<Action>, s: State) {
    && s.clock == TimeAfter(clock, actions)
    && (forall t :: t in s.calls ==> s.calls[t].ip == AddressOf(actions, t))
    && forall a :: a in s.given ==> exists k :: AnsweredAt(clock, actions, k, a)
  }

  lemma AnsweredLater(clock: int, actions: seq<Action>, more: Action, k: nat, a: Answer)
    requires AnsweredAt(clock, actions, k, a)
    ensures AnsweredAt(clock, actions + [more], k, a)
  {
    assert (actions + [more])[..k] == actions[..k];
  }

  lemma RecordedStep(maxAge: int, clock: int, actions: seq<Action>, s: State, a: Action)
    requires Recorded(clock, actions, s) && Enabled(s, a)
    ensures Recorded(clock, actions + [a], Apply(maxAge, s, a))
  {
    var all, s' := actions + [a], Apply(maxAge, s, a);
    assert all[..|actions|] == actions && all[|actions|] == a;
    forall x | x in s'.given
      ensures exists k :: AnsweredAt(clock, all, k, x)
    {
      if x in s.given {
        var k :| AnsweredAt(clock, actions, k, x);
        AnsweredLater(clock, actions, a, k, x);
      } else {
        assert AnsweredAt(clock, all, |actions|, x);
      }
    }
  }

  /** The calls for the address under way. */
  ghost function Open(s: State, ip: string): set<nat> {
    set t | t in s.calls && s.calls[t].ip == ip
  }

  /** What was returned for the address. */
  function ReturnsFor(returned: seq<Return>, ip: string): nat {
    if returned == [] then 0
    else ReturnsFor(returned[..|returned| - 1], ip) + (if returned[|returned| - 1].ip == ip then 1 else 0)
  }

  lemma ReturnsForAppend(returned: seq<Return>, r: Return, ip: string)
    ensures ReturnsFor(returned + [r], ip) == ReturnsFor(returned, ip) + if r.ip == ip then 1 else 0
  {
    assert (returned + [r])[..|returned|] == returned;
  }

  /** The call that an action opens, and the one it ends. */
  predicate Opens(s: State, a: Action) {
    a.LookUp? && Cached(s.store, a.ip, s.clock).None?
  }

  predicate Ends(a: Action) {
    (a.Ask? && a.answer.None?) || a.Publish?
  }

  lemma CallsStep(maxAge: int, s: State, a: Action)
    requires Enabled(s, a)
    ensures var s' := Apply(maxAge, s, a);
            if Opens(s, a) then s'.calls == s.calls[a.t := Fetching(a.ip)]
            else if Ends(a) then s'.calls == s.calls - {a.t}
            else s'.calls.Keys == s.calls.Keys && forall t :: t in s.calls ==> s'.calls[t].ip == s.calls[t].ip
  {
    hide Cached, Inserted;
    if a.Ask? || a.Clone? || a.Insert? {
      assert a.t in s.calls;
    }
  }

  lemma ReturnedStep(maxAge: int, s: State, a: Action)
    requires Enabled(s, a)
    ensures var s' := Apply(maxAge, s, a);
            if Ends(a) || (a.LookUp? && !Opens(s, a))
            then |s'.returned| == |s.returned| + 1 && s.returned <= s'.returned
                 && s'.returned[|s.returned|].ip == if a.LookUp? then a.ip else s.calls[a.t].ip
            else s'.returned == s.returned
  {
    hide Cached, Inserted;
  }

  lemma OpenStep(maxAge: int, s: State, a: Action, ip: string)
    requires Enabled(s, a)
    ensures |Open(Apply(maxAge, s, a), ip)| == |Open(s, ip)|
              + (if Opens(s, a) && a.ip == ip then 1 else 0) - (if Ends(a) && s.calls[a.t].ip == ip then 1 else 0)
  {
    CallsStep(maxAge, s, a);
    assert Opens(s, a) ==> a.t !in s.calls;
    assert Ends(a) ==> a.t in s.calls;
    hide Apply, Opens, Ends, Enabled, Open;
    var s' := Apply(maxAge, s, a);
    if Opens(s, a) {
      OneOpened(s, s', a.t, a.ip, ip);
    } else if Ends(a) {
      OneEnded(s, s', a.t, ip);
    } else {
      NoneEnded(s, s', ip);
    }
  }

  lemma OneOpened(s: State, s': State, t: nat, asked: string, ip: string)
    requires t !in s.calls && s'.calls == s.calls[t := Fetching(asked)]
    ensures |Open(s', ip)| == |Open(s, ip)| + (if asked == ip then 1 else 0)
  {
    assert Open(s', ip) == Open(s, ip) + (if asked == ip then {t} else {});
  }

  lemma OneEnded(s: State, s': State, t: nat, ip: string)
    requires t in s.calls && s'.calls == s.calls - {t}
    ensures |Open(s', ip)| == |Open(s, ip)| - (if s.calls[t].ip == ip then 1 else 0)
  {
    assert Open(s', ip) == Open(s, ip) - (if s.calls[t].ip == ip then {t} else {});
  }

  lemma NoneEnded(s: State, s': State, ip: string)
    requires s'.calls.Keys == s.calls.Keys && forall t :: t in s.calls ==> s'.calls[t].ip == s.calls[t].ip
    ensures |Open(s', ip)| == |Open(s, ip)|
  {
    assert Open(s', ip) == Open(s, ip);
  }

  lemma ReturnStep(maxAge: int, s: State, a: Action, ip: string)
    requires Enabled(s, a)
    ensures ReturnsFor(Apply(maxAge, s, a).returned, ip) == ReturnsFor(s.returned, ip)
              + (if a.LookUp? && !Opens(s, a) && a.ip == ip then 1 else 0)
              + (if Ends(a) && s.calls[a.t].ip == ip then 1 else 0)
  {
    ReturnedStep(maxAge, s, a);
    assert Ends(a) ==> !a.LookUp? && a.t in s.calls;
    hide Apply, Opens, Ends, Enabled;
    var s' := Apply(maxAge, s, a);
    if |s'.returned| > |s.returned| {
      ReturnsForAppend(s.returned, s'.returned[|s.returned|], ip);
      assert s'.returned == s.returned + [s'.returned[|s.returned|]];
    }
    hide ReturnsFor;
  }

  /** A step opens a call, or returns from one, or from a look-up that hits; or it does neither. */
  lemma AccountStep(maxAge: int, s: State, a: Action, ip: string)
    requires Enabled(s, a)
    ensures var s' := Apply(maxAge, s, a);
            ReturnsFor(s'.returned, ip) + |Open(s', ip)|
            == ReturnsFor(s.returned, ip) + |Open(s, ip)| + if a.LookUp? && a.ip == ip then 1 else 0
  {
    OpenStep(maxAge, s, a, ip);
    ReturnStep(maxAge, s, a, ip);
    assert Opens(s, a) ==> a.LookUp?;
    hide ReturnsFor, Open, Apply, Opens, Ends;
  }

  /** In every run: the clock, the addresses of the calls and the answers of the provider are those of the actions; and for
      every address the look-ups are the calls that have returned, once each, and those still under way. */
  lemma {:induction false} CallsAreAccounted(maxAge: int, clock: int, actions: seq<Action>, s: State, ip: string)
    requires Reaches(maxAge, clock, actions, s)
    ensures Recorded(clock, actions, s)
    ensures LookUps(actions, ip) == ReturnsFor(s.returned, ip) + |Open(s, ip)|
  {
    hide Enabled, Apply, Recorded, ReturnsFor, Open;
    if actions == [] {
      NothingRecorded(clock, ip);
    } else {
      var m := |actions| - 1;
      var prev :| Reaches(maxAge, clock, actions[..m], prev) && Enabled(prev, actions[m])
                  && s == Apply(maxAge, prev, actions[m]);
      CallsAreAccounted(maxAge, clock, actions[..m], prev, ip);
      RecordedStep(maxAge, clock, actions[..m], prev, actions[m]);
      AccountStep(maxAge, prev, actions[m], ip);
      assert actions == actions[..m] + [actions[m]];
    }
  }

  lemma NothingRecorded(clock: int, ip: string)
    ensures Recorded(clock, [], Start(clock)) && ReturnsFor(Start(clock).returned, ip) == 0 && Open(Start(clock), ip) == {}
  {
  }

  /** Whatever calls overlap: a hit for an address returns a value that the provider gave for that same address, cached
      less than `maxAge` before the hit. In particular a lifetime that is not positive never gives a hit. */
  lemma HitsAreFresh(maxAge: int, clock: int, actions: seq<Action>, s: State, i: nat) returns (given: Answer, k: nat, cachedAt: int)
    requires Reaches(maxAge, clock, actions, s) && i < |s.returned| && s.returned[i].hit
    ensures AnsweredAt(clock, actions, k, given)
    ensures given.ip == s.returned[i].ip && Some(given.result) == s.returned[i].result
    ensures given.at <= cachedAt <= s.returned[i].at < cachedAt + maxAge
  {
    hide Reaches, AnsweredAt;
    ReachableInv(maxAge, clock, actions, s);
    var hit := s.returned[i];
    CallsAreAccounted(maxAge, clock, actions, s, hit.ip);
    assert ReturnSound(maxAge, s.given, hit);
    cachedAt :| FromUpstream(s.given, hit.ip, hit.result.value, cachedAt) && cachedAt <= hit.at < cachedAt + maxAge;
    given :| given in s.given && given.ip == hit.ip && given.result == hit.result.value && given.at <= cachedAt;
    k :| AnsweredAt(clock, actions, k, given);
  }

  /** And a call that misses returns nothing, or what the provider answered for that address before it returned. */
  lemma MissesAreAnswered(maxAge: int, clock: int, actions: seq<Action>, s: State, i: nat) returns (given: Answer, k: nat)
    requires Reaches(maxAge, clock, actions, s) && i < |s.returned| && !s.returned[i].hit && s.returned[i].result.Some?
    ensures AnsweredAt(clock, actions, k, given)
    ensures given.ip == s.returned[i].ip && Some(given.result) == s.returned[i].result && given.at <= s.returned[i].at
  {
    hide Reaches, AnsweredAt;
    ReachableInv(maxAge, clock, actions, s);
    var miss := s.returned[i];
    CallsAreAccounted(maxAge, clock, actions, s, miss.ip);
    assert ReturnSound(maxAge, s.given, miss);
    given :| given in s.given && given.ip == miss.ip && given.result == miss.result.value && given.at <= miss.at;
    k :| AnsweredAt(clock, actions, k, given);
  }

  /** What one call returns and leaves in the cache when nothing overlaps it: a hit exactly when an unexpired entry is there;
      otherwise the provider's answer, which is cached unless it is empty. */
  lemma CallAlone(maxAge: int, clock: int, actions: seq<Action>, s: State, t: nat, ip: string, answer: Option<Info>)
    returns (actions': seq<Action>, s': State)
    requires Reaches(maxAge, clock, actions, s) && t !in s.calls
    ensures actions <= actions' && Reaches(maxAge, clock, actions', s') && s'.calls == s.calls && s'.clock == s.clock
    ensures var hit := ip in s.store && s.clock < s.store[ip].expiresAt;
            && s'.returned == s.returned + [Return(ip, if hit then Some(s.store[ip].value) else answer, hit, s.clock)]
            && s'.store == if !hit && answer.Some? then s.store[ip := CacheEntry(answer.value, s.clock + maxAge)] else s.store
  {
    hide Reaches;
    actions', s' := Take(maxAge, clock, actions, s, LookUp(t, ip));
    if t in s'.calls {
      actions', s' := Take(maxAge, clock, actions', s', Ask(t, answer));
      if answer.Some? {
        actions', s' := OneUpdate(maxAge, clock, actions', s', t);
      }
      assert s'.calls == s.calls;
    }
  }

  /** The latest version at or before `v`, going back through the versions each was cloned from, that inserted `ip`;
      0 when there is none. */
  function Origin(versions: seq<Version>, v: nat, ip: string): (w: nat)
    requires v <= |versions| && WellBased(versions)
    ensures w <= v && (w > 0 ==> versions[w - 1].ip == ip)
    decreases v
  {
    if v == 0 then 0 else if versions[v - 1].ip == ip then v else Origin(versions, versions[v - 1].base, ip)
  }

  lemma {:induction false} ContentByOrigin(versions: seq<Version>, v: nat, ip: string)
    requires v <= |versions| && WellBased(versions)
    ensures var w := Origin(versions, v, ip);
            && (ip in Content(versions, v) <==> w > 0)
            && (w > 0 ==> Content(versions, v)[ip] == versions[w - 1].entry)
    decreases v
  {
    if v > 0 {
      ContentByOrigin(versions, versions[v - 1].base, ip);
    }
  }

  /** An update is lost if and only if the current version does not descend from it through the clones: the cache shows
      for an address the entry of the nearest ancestor that inserted it, and nothing when there is none. */
  lemma CacheShowsOrigin(maxAge: int, clock: int, actions: seq<Action>, s: State, ip: string)
    requires Reaches(maxAge, clock, actions, s)
    ensures WellBased(s.versions)
    ensures var w := Origin(s.versions, |s.versions|, ip);
            && (ip in s.store <==> w > 0)
            && (w > 0 ==> s.store[ip] == s.versions[w - 1].entry)
  {
    ReachableInv(maxAge, clock, actions, s);
    ContentByOrigin(s.versions, |s.versions|, ip);
  }

  lemma {:induction false} SerialOrigin(versions: seq<Version>, v: nat, ip: string)
    requires v <= |versions| && forall i :: 0 <= i < |versions| ==> versions[i].base == i
    ensures WellBased(versions)
    ensures forall i :: Origin(versions, v, ip) <= i < v ==> versions[i].ip != ip
    decreases v
  {
    if v > 0 && versions[v - 1].ip != ip {
      SerialOrigin(versions, v - 1, ip);
    }
  }

  /** Version `i` is the last to have inserted `ip`. */
  ghost predicate LastFor(versions: seq<Version>, ip: string, i: int) {
    0 <= i < |versions| && versions[i].ip == ip && forall j :: i < j < |versions| ==> versions[j].ip != ip
  }

  /** When no two updates overlap, that is when every clone was taken from the version just before its own, none is lost:
      the cache holds every address ever published, with the entry published for it last, and no other address. */
  lemma SerialUpdatesLoseNothing(maxAge: int, clock: int, actions: seq<Action>, s: State, ip: string)
    requires Reaches(maxAge, clock, actions, s)
    requires forall i :: 0 <= i < |s.versions| ==> s.versions[i].base == i
    ensures ip in s.store <==> exists i :: LastFor(s.versions, ip, i)
    ensures forall i :: LastFor(s.versions, ip, i) ==> ip in s.store && s.store[ip] == s.versions[i].entry
    ensures ip !in s.store ==> forall i :: 0 <= i < |s.versions| ==> s.versions[i].ip != ip
  {
    hide Reaches, Origin, WellBased;
    CacheShowsOrigin(maxAge, clock, actions, s, ip);
    SerialOrigin(s.versions, |s.versions|, ip);
    var w := Origin(s.versions, |s.versions|, ip);
    assert w > 0 ==> LastFor(s.versions, ip, w - 1);
    forall i | LastFor(s.versions, ip, i)
      ensures i == w - 1
    {
    }
  }

  /** Overlapping updates do lose entries: whenever two calls hold answers for different addresses, a schedule exists
      in which the one publishes an entry that the other then drops although it has not expired. For that address the
      store is then what it was before either update, so an expired entry it was to replace is back. */
  lemma OverlapLosesUpdate(maxAge: int, clock: int, actions: seq<Action>, s: State, t: nat, u: nat)
    returns (actions': seq<Action>, s': State)
    requires Reaches(maxAge, clock, actions, s) && maxAge > 0
    requires t in s.calls && s.calls[t].Answered? && u in s.calls && s.calls[u].Answered?
    requires s.calls[t].ip != s.calls[u].ip
    ensures actions <= actions' && Reaches(maxAge, clock, actions', s')
    ensures |s'.versions| == |s.versions| + 2 && s.versions <= s'.versions
    ensures var lost := s'.versions[|s.versions|];
            && lost.ip == s.calls[t].ip && lost.entry == CacheEntry(s.calls[t].result, s.clock + maxAge)
            && lost.entry.expiresAt > s'.clock
            && (lost.ip in s'.store <==> lost.ip in s.store)
            && (lost.ip in s.store ==> s'.store[lost.ip] == s.store[lost.ip])
  {
    hide Reaches;
    var actions1, s1 := Take(maxAge, clock, actions, s, Clone(u));
    assert s1.calls[u].Cloned? && s1.calls[u].clone == s.store && s1.calls[t] == s.calls[t];
    var actions2, s2 := OneUpdate(maxAge, clock, actions1, s1, t);
    assert s2.calls[u] == s1.calls[u];
    var actions3, s3 := Take(maxAge, clock, actions2, s2, Insert(u));
    actions', s' := Take(maxAge, clock, actions3, s3, Publish(u));
  }

  /** One call takes its update through, with nothing in between. */
  lemma OneUpdate(maxAge: int, clock: int, actions: seq<Action>, s: State, t: nat)
    returns (actions': seq<Action>, s': State)
    requires Reaches(maxAge, clock, actions, s) && t in s.calls && s.calls[t].Answered?
    ensures actions <= actions' && Reaches(maxAge, clock, actions', s')
    ensures s'.calls == s.calls - {t} && s'.clock == s.clock
    ensures s'.store == Inserted(s.store, s.calls[t].ip, s.calls[t].result, s.clock, maxAge)
    ensures s'.versions == s.versions + [Version(|s.versions|, s.calls[t].ip, CacheEntry(s.calls[t].result, s.clock + maxAge))]
    ensures s'.returned == s.returned + [Return(s.calls[t].ip, Some(s.calls[t].result), false, s.clock)]
  {
    hide Reaches;
    var actions1, s1 := Take(maxAge, clock, actions, s, Clone(t));
    var actions2, s2 := Take(maxAge, clock, actions1, s1, Insert(t));
    actions', s' := Take(maxAge, clock, actions2, s2, Publish(t));
    assert s'.calls == s.calls - {t};
  }

  lemma Take(maxAge: int, clock: int, actions: seq<Action>, s: State, a: Action) returns (actions': seq<Action>, s': State)
    requires Reaches(maxAge, clock, actions, s) && Enabled(s, a)
    ensures actions' == actions + [a] && Reaches(maxAge, clock, actions', s') && s' == Apply(maxAge, s, a)
  {
    actions', s' := actions + [a], Apply(maxAge, s, a);
    assert actions'[..|actions|] == actions;
  }
}
