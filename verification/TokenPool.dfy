/** The token pool of the throttle (pkg/ratelimit/pool.go): every key has a number of tokens that a periodic refresh
    restores, and listeners that the refresh wakes. Each request to the pool's actor is one atomic step. */
module TokenPool {

  /** What the actor did: served a Consume, or refreshed. */
  datatype Event = Consumed(key: string, granted: bool) | Refreshed

  /** Calls of Consume for `key` since the last refresh. */
  function CallsSince(log: seq<Event>, key: string): nat {
    if log == [] || log[|log| - 1].Refreshed? then 0
    else CallsSince(log[..|log| - 1], key) + (if log[|log| - 1].key == key then 1 else 0)
  }

  /** How many of them were granted. */
  function GrantsSince(log: seq<Event>, key: string): nat {
    if log == [] || log[|log| - 1].Refreshed? then 0
    else GrantsSince(log[..|log| - 1], key) + (if log[|log| - 1] == Consumed(key, true) then 1 else 0)
  }

  /** The pool's state: tokens left per key (absent until first use), the listeners waiting for the next refresh, and
      the listeners made and closed so far. */
  datatype Pool = Pool(tokensMap: map<string, int>, listeners: seq<nat>, listenersMade: nat, woken: set<nat>)

  function NewPool(): Pool {
    Pool(map[], [], 0, {})
  }

  /** The tokens left after one more Consume; negative when there was none left. */
  function TokensAfter(perKey: int, pool: Pool, key: string): int {
    (if key in pool.tokensMap then pool.tokensMap[key] else perKey) - 1
  }

  function AfterConsume(perKey: int, pool: Pool, key: string): Pool {
    pool.(tokensMap := pool.tokensMap[key := TokensAfter(perKey, pool, key)])
  }

  function AfterListen(pool: Pool): Pool {
    pool.(listeners := pool.listeners + [pool.listenersMade], listenersMade := pool.listenersMade + 1)
  }

  function AfterTick(pool: Pool): Pool {
    pool.(tokensMap := map[], listeners := [], woken := pool.woken + (set l | l in pool.listeners))
  }

  /** The map counts the calls since the last refresh. */
  ghost predicate Counts(perKey: int, tokens: map<string, int>, log: seq<Event>) {
    forall key ::
      && (key in tokens <==> CallsSince(log, key) > 0)
      && (key in tokens ==> tokens[key] == perKey - CallsSince(log, key))
  }

  /** The k-th Consume of a key after a refresh was granted if and only if k <= perKey. */
  ghost predicate Exact(perKey: int, log: seq<Event>) {
    forall i :: 0 <= i < |log| && log[i].Consumed? ==>
      (log[i].granted <==> CallsSince(log[..i], log[i].key) + 1 <= perKey)
  }

  lemma ConsumeKeeps(perKey: int, pool: Pool, log: seq<Event>, key: string)
    requires Counts(perKey, pool.tokensMap, log) && Exact(perKey, log)
    ensures var log' := log + [Consumed(key, TokensAfter(perKey, pool, key) >= 0)];
            && Counts(perKey, AfterConsume(perKey, pool, key).tokensMap, log')
            && Exact(perKey, log')
            && CallsSince(log', key) == CallsSince(log, key) + 1
            && TokensAfter(perKey, pool, key) == perKey - CallsSince(log', key)
  {
    var log' := log + [Consumed(key, TokensAfter(perKey, pool, key) >= 0)];
    assert log'[..|log|] == log;
    forall i | 0 <= i < |log'| && log'[i].Consumed?
      ensures log'[i].granted <==> CallsSince(log'[..i], log'[i].key) + 1 <= perKey
    {
      if i < |log| {
        assert log'[..i] == log[..i];
      }
    }
  }

  lemma TickKeeps(perKey: int, pool: Pool, log: seq<Event>)
    requires Exact(perKey, log)
    ensures Counts(perKey, AfterTick(pool).tokensMap, log + [Refreshed]) && Exact(perKey, log + [Refreshed])
  {
    var log' := log + [Refreshed];
    forall i | 0 <= i < |log'| && log'[i].Consumed?
      ensures log'[i].granted <==> CallsSince(log'[..i], log'[i].key) + 1 <= perKey
    {
      assert log'[..i] == log[..i];
    }
  }

  class MemoryBasedRateLimitPool {
    const NumTokensPerKey: int
    var tokensMap: map<string, int>
    var listeners: seq<nat>
    /** The channels made, by number, and those closed. */
    var listenersMade: nat
    var woken: set<nat>
    ghost var log: seq<Event>

    ghost function St(): Pool
      reads this
    {
      Pool(tokensMap, listeners, listenersMade, woken)
    }

    ghost predicate Valid()
      reads this
    {
      Counts(NumTokensPerKey, tokensMap, log) && Exact(NumTokensPerKey, log)
    }

    constructor (numTokensPerKey: int)
      ensures Valid() && St() == NewPool() && log == [] && NumTokensPerKey == numTokensPerKey
    {
      NumTokensPerKey := numTokensPerKey;
      tokensMap, listeners, listenersMade, woken, log := map[], [], 0, {}, [];
    }

    method Refresh()
      modifies `tokensMap
      ensures tokensMap == map[]
    {
      tokensMap := map[];
    }

    method DoConsume(key: string) returns (numTokens: int)
      requires Valid()
      modifies `tokensMap, `log
      ensures Valid() && St() == AfterConsume(NumTokensPerKey, old(St()), key)
      ensures log == old(log) + [Consumed(key, numTokens >= 0)]
      ensures numTokens == NumTokensPerKey - CallsSince(log, key)
      ensures numTokens >= 0 <==> CallsSince(old(log), key) < NumTokensPerKey
    {
      hide Counts, Exact, CallsSince;
      ConsumeKeeps(NumTokensPerKey, St(), log, key);
      if key !in tokensMap {
        tokensMap := tokensMap[key := NumTokensPerKey];
      }
      numTokens := tokensMap[key];
      numTokens := numTokens - 1;
      tokensMap := tokensMap[key := numTokens];
      assert tokensMap == old(tokensMap)[key := numTokens];
      log := log + [Consumed(key, numTokens >= 0)];
    }

    /** A call of WaitForRefresh registers a listener and then blocks until it is closed. */
    method Listen() returns (listener: nat)
      modifies `listeners, `listenersMade
      ensures St() == AfterListen(old(St())) && listener == old(listenersMade)
    {
      listener := listenersMade;
      listenersMade := listenersMade + 1;
      listeners := listeners + [listener];
    }

    /** The ticker: refresh, close every listener, start a new list. */
    method Tick()
      requires Valid()
      modifies this
      ensures Valid() && St() == AfterTick(old(St())) && log == old(log) + [Refreshed]
    {
      TickKeeps(NumTokensPerKey, St(), log);
      Refresh();
      var i := 0;
      while i < |listeners|
        invariant 0 <= i <= |listeners|
        invariant woken == old(woken) + (set l | l in listeners[..i])
        invariant tokensMap == map[] && listeners == old(listeners) && listenersMade == old(listenersMade) && log == old(log)
      {
        woken := woken + {listeners[i]};
        assert listeners[..i + 1] == listeners[..i] + [listeners[i]];
        i := i + 1;
      }
      assert listeners[..i] == listeners;
      listeners := [];
      log := log + [Refreshed];
    }
  }

  // ----- what the pool guarantees over any history -----

  function Max(a: int, b: int): int {
    if a >= b then a else b
  }

  function Min(a: int, b: int): int {
    if a <= b then a else b
  }

  /** In every epoch a key is granted its first `perKey` calls, and no other. */
  lemma {:induction false} EpochGrants(perKey: int, log: seq<Event>, key: string)
    requires Exact(perKey, log)
    ensures GrantsSince(log, key) == Min(CallsSince(log, key), Max(perKey, 0))
  {
    if log != [] && log[|log| - 1].Consumed? {
      var m := |log| - 1;
      assert forall i :: 0 <= i < m ==> log[..m][..i] == log[..i];
      EpochGrants(perKey, log[..m], key);
    }
  }

  /** Grants of `key` among the events from `i` up to `j`. */
  function GrantsIn(log: seq<Event>, i: nat, j: nat, key: string): nat
    requires i <= j <= |log|
  {
    if i == j then 0 else GrantsIn(log, i, j - 1, key) + (if log[j - 1] == Consumed(key, true) then 1 else 0)
  }

  /** The most that the refreshes among the events from `i` up to `j` can let through. */
  function Allowance(perKey: int, log: seq<Event>, i: nat, j: nat): nat
    requires i <= j <= |log|
  {
    if i == j then Max(perKey, 0) else Allowance(perKey, log, i, j - 1) + (if log[j - 1].Refreshed? then Max(perKey, 0) else 0)
  }

  lemma {:induction false} GrantsCarry(perKey: int, log: seq<Event>, i: nat, j: nat, key: string)
    requires Exact(perKey, log) && i <= j <= |log|
    ensures GrantsIn(log, i, j, key) + Max(perKey, 0) <= Allowance(perKey, log, i, j) + GrantsSince(log[..j], key)
  {
    if i < j {
      GrantsCarry(perKey, log, i, j - 1, key);
      assert log[..j][..j - 1] == log[..j - 1];
      if log[j - 1].Refreshed? {
        EpochGrantsBefore(perKey, log, j - 1, key);
      }
    }
  }

  lemma EpochGrantsBefore(perKey: int, log: seq<Event>, j: nat, key: string)
    requires Exact(perKey, log) && j <= |log|
    ensures GrantsSince(log[..j], key) <= Max(perKey, 0)
  {
    assert forall i :: 0 <= i < j ==> log[..j][..i] == log[..i];
    EpochGrants(perKey, log[..j], key);
  }

  /** Over any stretch of history, a key is granted at most `perKey` calls for each refresh in it, and `perKey` more. */
  lemma RateBound(perKey: int, log: seq<Event>, i: nat, j: nat, key: string)
    requires Exact(perKey, log) && i <= j <= |log|
    ensures GrantsIn(log, i, j, key) <= Allowance(perKey, log, i, j)
  {
    GrantsCarry(perKey, log, i, j, key);
    EpochGrantsBefore(perKey, log, j, key);
  }
}
