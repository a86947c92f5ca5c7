/** The throttling pipelines (pkg/ratelimit/ratelimit.go): any number of goroutines that pass items on in order, each
    item paid for with a token of its key, over one shared pool. The goroutines, the pool's actor and its ticker are
    interleaved step by step. Runs are uncancelled. */
module Throttle {
  import opened Wrappers
  import TokenPool

  /** What flows through a pipeline; never looked into. */
  type Item = nat

  /** The tokens of a key per refresh, and the key of an item. */
  datatype Config = Config(perKey: int, getKey: Item -> string)

  /** Where a pipeline stands: waiting for input; about to ask for a token; refused and about to register for the next
      refresh; listening for it; granted and about to pass the item on; and done. */
  datatype Pc =
    | Ready
    | Asking(item: Item)
    | Refused(item: Item)
    | Listening(item: Item, listener: nat)
    | Granted(item: Item)
    | Done

  /** A pipeline with the history of what went in and what came out. */
  datatype Pipe = Pipe(input: seq<Item>, pc: Pc, output: seq<Item>)

  /** What the pool's actor did, and for which pipeline. */
  datatype Served = Asked(pipe: nat, item: Item, granted: bool) | Ticked

  datatype State = State(pipes: seq<Pipe>, pool: TokenPool.Pool, log: seq<Served>)

  function Start(n: nat): State {
    State(seq(n, _ => Pipe([], Ready, [])), TokenPool.NewPool(), [])
  }

  datatype Action =
    | Take(p: nat, item: Item)
    | EndInput(p: nat)
    | Ask(p: nat)
    | Listen(p: nat)
    | Wake(p: nat)
    | Forward(p: nat)
    | Tick

  predicate Enabled(s: State, a: Action) {
    if a.Tick? then true
    else
      && a.p < |s.pipes|
      && var pc := s.pipes[a.p].pc;
         match a
         case Take(_, _) => pc == Ready
         case EndInput(_) => pc == Ready
         case Ask(_) => pc.Asking?
         case Listen(_) => pc.Refused?
         case Wake(_) => pc.Listening? && pc.listener in s.pool.woken
         case Forward(_) => pc.Granted?
  }

  function Apply(c: Config, s: State, a: Action): State
    requires Enabled(s, a)
  {
    match a
    case Take(p, item) =>
      s.(pipes := s.pipes[p := Pipe(s.pipes[p].input + [item], Asking(item), s.pipes[p].output)])
    case EndInput(p) => s.(pipes := s.pipes[p := s.pipes[p].(pc := Done)])
    case Ask(p) =>
      var item := s.pipes[p].pc.item;
      var granted := TokenPool.TokensAfter(c.perKey, s.pool, c.getKey(item)) >= 0;
      s.(pool := TokenPool.AfterConsume(c.perKey, s.pool, c.getKey(item)),
         log := s.log + [Asked(p, item, granted)],
         pipes := s.pipes[p := s.pipes[p].(pc := if granted then Granted(item) else Refused(item))])
    case Listen(p) =>
      s.(pool := TokenPool.AfterListen(s.pool),
         pipes := s.pipes[p := s.pipes[p].(pc := Listening(s.pipes[p].pc.item, s.pool.listenersMade))])
    case Wake(p) => s.(pipes := s.pipes[p := s.pipes[p].(pc := Asking(s.pipes[p].pc.item))])
    case Forward(p) =>
      s.(pipes := s.pipes[p := Pipe(s.pipes[p].input, Ready, s.pipes[p].output + [s.pipes[p].pc.item])])
    case Tick => s.(pool := TokenPool.AfterTick(s.pool), log := s.log + [Ticked])
  }

  // ----- histories -----

  /** The pool's own view of the log. */
  function PoolLog(c: Config, log: seq<Served>): (r: seq<TokenPool.Event>)
    ensures |r| == |log|
  {
    seq(|log|, i requires 0 <= i < |log| => match log[i]
        case Asked(_, item, granted) => TokenPool.Consumed(c.getKey(item), granted)
        case Ticked => TokenPool.Refreshed)
  }

  /** The items pipeline `p` was granted a token for, in order. */
  function GrantedTo(log: seq<Served>, p: nat): seq<Item> {
    if log == [] then []
    else
      var last := log[|log| - 1];
      GrantedTo(log[..|log| - 1], p) + (if last.Asked? && last.pipe == p && last.granted then [last.item] else [])
  }

  /** The item a pipeline has taken in and not passed on yet. */
  function InHand(pc: Pc): seq<Item> {
    if pc.Ready? || pc.Done? then [] else [pc.item]
  }

  /** The item a pipeline has paid for and not passed on yet. */
  function PaidFor(pc: Pc): seq<Item> {
    if pc.Granted? then [pc.item] else []
  }

  ghost predicate PipeSound(pipe: Pipe, granted: seq<Item>) {
    && pipe.input == pipe.output + InHand(pipe.pc)
    && granted == pipe.output + PaidFor(pipe.pc)
  }

  /** A pipeline that waits will be woken: its listener is closed already or the next refresh closes it. */
  ghost predicate Heard(pool: TokenPool.Pool, pc: Pc) {
    pc.Listening? ==> pc.listener in pool.woken || pc.listener in pool.listeners
  }

  ghost predicate PoolSound(c: Config, pool: TokenPool.Pool, log: seq<TokenPool.Event>) {
    TokenPool.Counts(c.perKey, pool.tokensMap, log) && TokenPool.Exact(c.perKey, log)
  }

  ghost predicate Inv(c: Config, s: State) {
    && PoolSound(c, s.pool, PoolLog(c, s.log))
    && (forall p :: 0 <= p < |s.pipes| ==> PipeSound(s.pipes[p], GrantedTo(s.log, p)))
    && (forall p :: 0 <= p < |s.pipes| ==> Heard(s.pool, s.pipes[p].pc))
  }

  lemma GrantedToAppend(log: seq<Served>, e: Served, p: nat)
    ensures GrantedTo(log + [e], p)
            == GrantedTo(log, p) + (if e.Asked? && e.pipe == p && e.granted then [e.item] else [])
  {
    assert (log + [e])[..|log|] == log;
  }

  lemma PoolLogAppend(c: Config, log: seq<Served>, e: Served)
    ensures PoolLog(c, log + [e]) == PoolLog(c, log) + PoolLog(c, [e])
  {
  }

  lemma AskKeepsPool(c: Config, s: State, p: nat)
    requires PoolSound(c, s.pool, PoolLog(c, s.log)) && Enabled(s, Ask(p))
    ensures var s' := Apply(c, s, Ask(p));
            PoolSound(c, s'.pool, PoolLog(c, s'.log))
  {
    hide TokenPool.Counts, TokenPool.Exact;
    var s' := Apply(c, s, Ask(p));
    var key := c.getKey(s.pipes[p].pc.item);
    TokenPool.ConsumeKeeps(c.perKey, s.pool, PoolLog(c, s.log), key);
    PoolLogAppend(c, s.log, s'.log[|s.log|]);
    assert PoolLog(c, s'.log) == PoolLog(c, s.log) + [TokenPool.Consumed(key, TokenPool.TokensAfter(c.perKey, s.pool, key) >= 0)];
  }

  lemma TickKeepsPool(c: Config, s: State)
    requires PoolSound(c, s.pool, PoolLog(c, s.log))
    ensures var s' := Apply(c, s, Tick);
            PoolSound(c, s'.pool, PoolLog(c, s'.log))
  {
    hide TokenPool.Counts, TokenPool.Exact;
    TokenPool.TickKeeps(c.perKey, s.pool, PoolLog(c, s.log));
    PoolLogAppend(c, s.log, Ticked);
    assert PoolLog(c, s.log + [Ticked]) == PoolLog(c, s.log) + [TokenPool.Refreshed];
  }

  lemma PipesSound(c: Config, s: State, a: Action, q: nat)
    requires Enabled(s, a) && q < |s.pipes| && PipeSound(s.pipes[q], GrantedTo(s.log, q))
    ensures var s' := Apply(c, s, a);
            |s'.pipes| == |s.pipes| && PipeSound(s'.pipes[q], GrantedTo(s'.log, q))
  {
    hide GrantedTo, TokenPool.TokensAfter, TokenPool.AfterConsume;
    var s' := Apply(c, s, a);
    if a.Ask? || a.Tick? {
      GrantedToAppend(s.log, s'.log[|s.log|], q);
    }
  }

  lemma PipesHeard(c: Config, s: State, a: Action, q: nat)
    requires Enabled(s, a) && q < |s.pipes| && Heard(s.pool, s.pipes[q].pc)
    ensures var s' := Apply(c, s, a);
            |s'.pipes| == |s.pipes| && Heard(s'.pool, s'.pipes[q].pc)
  {
  }

  lemma ApplyKeepsInv(c: Config, s: State, a: Action)
    requires Inv(c, s) && Enabled(s, a)
    ensures Inv(c, Apply(c, s, a)) && |Apply(c, s, a).pipes| == |s.pipes|
  {
    hide PoolSound, PipeSound, Heard, PoolLog, GrantedTo;
    var s' := Apply(c, s, a);
    forall q | 0 <= q < |s'.pipes|
      ensures PipeSound(s'.pipes[q], GrantedTo(s'.log, q)) && Heard(s'.pool, s'.pipes[q].pc)
    {
      PipesSound(c, s, a, q);
      PipesHeard(c, s, a, q);
    }
    PoolKept(c, s, a);
  }

  lemma PoolKept(c: Config, s: State, a: Action)
    requires PoolSound(c, s.pool, PoolLog(c, s.log)) && Enabled(s, a)
    ensures PoolSound(c, Apply(c, s, a).pool, PoolLog(c, Apply(c, s, a).log))
  {
    hide PoolLog, TokenPool.Counts, TokenPool.Exact;
    if a.Ask? {
      AskKeepsPool(c, s, a.p);
    } else if a.Tick? {
      TickKeepsPool(c, s);
    }
  }

  /** `s` is reached by `n` pipelines over a fresh pool by some schedule. */
  ghost predicate Reaches(c: Config, n: nat, actions: seq<Action>, s: State) {
    if actions == [] then s == Start(n)
    else
      var m := |actions| - 1;
      exists prev :: Reaches(c, n, actions[..m], prev) && Enabled(prev, actions[m]) && s == Apply(c, prev, actions[m])
  }

  lemma StartInv(c: Config, n: nat)
    ensures Inv(c, Start(n))
  {
    assert PoolLog(c, []) == [];
  }

  lemma {:induction false} ReachableInv(c: Config, n: nat, actions: seq<Action>, s: State)
    requires Reaches(c, n, actions, s)
    ensures Inv(c, s) && |s.pipes| == n
  {
    hide Inv, Enabled, TokenPool.AfterConsume, TokenPool.TokensAfter;
    if actions == [] {
      StartInv(c, n);
    } else {
      var m := |actions| - 1;
      var prev :| Reaches(c, n, actions[..m], prev) && Enabled(prev, actions[m]) && s == Apply(c, prev, actions[m]);
      ReachableInv(c, n, actions[..m], prev);
      ApplyKeepsInv(c, prev, actions[m]);
    }
  }

  // ----- the history of a run -----

  /** The items that pipeline `p` took in. */
  function Taken(actions: seq<Action>, p: nat): seq<Item> {
    if actions == [] then []
    else
      var last := actions[|actions| - 1];
      Taken(actions[..|actions| - 1], p) + (if last.Take? && last.p == p then [last.item] else [])
  }

  /** What the pool was asked, by which pipeline and for the item it took in last; `None` for a refresh. */
  function Requested(actions: seq<Action>): seq<Option<(nat, Item)>> {
    if actions == [] then []
    else
      var front, last := actions[..|actions| - 1], actions[|actions| - 1];
      Requested(front)
      + (if last.Tick? then [None]
         else if last.Ask? && Taken(front, last.p) != [] then [Some((last.p, Taken(front, last.p)[|Taken(front, last.p)| - 1]))]
         else [])
  }

  function Unanswered(log: seq<Served>): (r: seq<Option<(nat, Item)>>)
    ensures |r| == |log|
  {
    seq(|log|, i requires 0 <= i < |log| => match log[i]
        case Asked(pipe, item, _) => Some((pipe, item))
        case Ticked => None)
  }

  ghost predicate PipeHistory(pipe: Pipe, actions: seq<Action>, p: nat) {
    pipe.input == Taken(actions, p) && (pipe.pc == Done <==> EndInput(p) in actions)
  }

  lemma ActionsAppend(actions: seq<Action>, a: Action, p: nat)
    ensures Taken(actions + [a], p) == Taken(actions, p) + (if a.Take? && a.p == p then [a.item] else [])
    ensures EndInput(p) in actions + [a] <==> EndInput(p) in actions || a == EndInput(p)
  {
    assert (actions + [a])[..|actions|] == actions;
  }

  lemma PipeHistoryKept(c: Config, s: State, actions: seq<Action>, a: Action, q: nat)
    requires Enabled(s, a) && q < |s.pipes| && PipeHistory(s.pipes[q], actions, q)
    ensures var s' := Apply(c, s, a); |s'.pipes| == |s.pipes| && PipeHistory(s'.pipes[q], actions + [a], q)
  {
    hide Taken, TokenPool.TokensAfter, TokenPool.AfterConsume;
    ActionsAppend(actions, a, q);
  }

  /** A request is for the item in hand, which is the one taken in last. */
  lemma RequestKept(c: Config, s: State, actions: seq<Action>, a: Action)
    requires Enabled(s, a) && Unanswered(s.log) == Requested(actions)
    requires forall q :: 0 <= q < |s.pipes| ==> PipeSound(s.pipes[q], GrantedTo(s.log, q)) && PipeHistory(s.pipes[q], actions, q)
    ensures Unanswered(Apply(c, s, a).log) == Requested(actions + [a])
  {
    hide Taken, GrantedTo, TokenPool.TokensAfter, TokenPool.AfterConsume;
    assert (actions + [a])[..|actions|] == actions;
    if a.Ask? {
      assert PipeSound(s.pipes[a.p], GrantedTo(s.log, a.p));
    }
  }

  /** What a pipeline took in are the items of its Take steps, in order; it is done exactly when its input was ended; and the
      pool's log answers, in order, every request of the pipelines, each for the item taken in last, and every refresh. */
  lemma {:induction false} HistoryOfActions(c: Config, n: nat, actions: seq<Action>, s: State, p: nat)
    requires Reaches(c, n, actions, s) && p < n
    ensures |s.pipes| == n
    ensures s.pipes[p].input == Taken(actions, p)
    ensures s.pipes[p].pc == Done <==> EndInput(p) in actions
    ensures Unanswered(s.log) == Requested(actions)
  {
    hide Taken, Requested, PoolSound, Enabled, Apply, PipeSound, Heard, GrantedTo, Unanswered;
    ReachableInv(c, n, actions, s);
    if actions == [] {
      StartHistory(n, p);
    } else {
      var m := |actions| - 1;
      var prev :| Reaches(c, n, actions[..m], prev) && Enabled(prev, actions[m]) && s == Apply(c, prev, actions[m]);
      ReachableInv(c, n, actions[..m], prev);
      forall q | 0 <= q < n
        ensures PipeHistory(prev.pipes[q], actions[..m], q)
      {
        HistoryOfActions(c, n, actions[..m], prev, q);
      }
      HistoryOfActions(c, n, actions[..m], prev, p);
      assert actions == actions[..m] + [actions[m]];
      PipeHistoryKept(c, prev, actions[..m], actions[m], p);
      RequestKept(c, prev, actions[..m], actions[m]);
    }
  }

  lemma StartHistory(n: nat, p: nat)
    requires p < n
    ensures PipeHistory(Start(n).pipes[p], [], p) && Unanswered(Start(n).log) == Requested([])
  {
  }

  /** For any number of pipelines under any interleaving: what has come out of a pipeline is what went in, in order,
      less the item it holds; and its items out are exactly those it was granted a token for, one grant each, less
      the one it is about to pass on. */
  lemma OutputIsPrefixOfInput(c: Config, n: nat, actions: seq<Action>, s: State, p: nat)
    requires Reaches(c, n, actions, s) && p < n
    ensures |s.pipes| == n
    ensures s.pipes[p].output <= s.pipes[p].input && |s.pipes[p].input| <= |s.pipes[p].output| + 1
    ensures s.pipes[p].output <= GrantedTo(s.log, p) <= s.pipes[p].input
    ensures s.pipes[p].pc == Ready || s.pipes[p].pc == Done ==>
              s.pipes[p].output == s.pipes[p].input == GrantedTo(s.log, p)
  {
    hide GrantedTo, PoolSound, Heard;
    ReachableInv(c, n, actions, s);
    assert PipeSound(s.pipes[p], GrantedTo(s.log, p));
  }

  /** Sharing the pool, all pipelines together are granted a key's first `perKey` requests after each refresh and no
      other; so over any stretch of a run they get at most `perKey` for each refresh in it, and `perKey` more. */
  lemma SharedRate(c: Config, n: nat, actions: seq<Action>, s: State, i: nat, j: nat, key: string)
    requires Reaches(c, n, actions, s) && i <= j <= |s.log|
    ensures var log := PoolLog(c, s.log);
            && TokenPool.Exact(c.perKey, log)
            && TokenPool.GrantsIn(log, i, j, key) <= TokenPool.Allowance(c.perKey, log, i, j)
  {
    hide GrantedTo, PipeSound, Heard, PoolLog, TokenPool.Exact;
    ReachableInv(c, n, actions, s);
    TokenPool.RateBound(c.perKey, PoolLog(c, s.log), i, j, key);
  }

  /** No wake-up is lost: one tick after a pipeline has started to wait it can go on, whatever happened in between. */
  lemma NoLostWakeup(c: Config, n: nat, actions: seq<Action>, s: State, p: nat)
    requires Reaches(c, n, actions, s) && p < n && |s.pipes| == n && s.pipes[p].pc.Listening?
    ensures Enabled(Apply(c, s, Tick), Wake(p))
  {
    hide GrantedTo, PipeSound, PoolSound;
    ReachableInv(c, n, actions, s);
    assert Heard(s.pool, s.pipes[p].pc);
  }

  ghost predicate ListenersMade(pool: TokenPool.Pool) {
    forall l :: l in pool.woken || l in pool.listeners ==> l < pool.listenersMade
  }

  lemma ListenersStep(c: Config, s: State, a: Action)
    requires Enabled(s, a) && ListenersMade(s.pool)
    ensures ListenersMade(Apply(c, s, a).pool)
  {
    hide TokenPool.TokensAfter;
  }

  lemma {:induction false} WokenWereMade(c: Config, n: nat, actions: seq<Action>, s: State)
    requires Reaches(c, n, actions, s)
    ensures ListenersMade(s.pool)
  {
    hide Enabled, Apply;
    if actions != [] {
      var m := |actions| - 1;
      var prev :| Reaches(c, n, actions[..m], prev) && Enabled(prev, actions[m]) && s == Apply(c, prev, actions[m]);
      WokenWereMade(c, n, actions[..m], prev);
      ListenersStep(c, prev, actions[m]);
    }
  }

  /** Nor does a pipeline wake early: when it begins to wait it cannot go on, and only a tick changes that. */
  lemma NoEarlyWakeup(c: Config, n: nat, actions: seq<Action>, s: State, p: nat, a: Action)
    requires Reaches(c, n, actions, s) && p < |s.pipes| && Enabled(s, a) && a != Tick
    requires a == Listen(p) || (s.pipes[p].pc.Listening? && !Enabled(s, Wake(p)))
    ensures Apply(c, s, a).pipes[p].pc.Listening? && !Enabled(Apply(c, s, a), Wake(p))
  {
    hide Reaches, TokenPool.TokensAfter;
    WokenWereMade(c, n, actions, s);
  }

  /** With no tokens to give, nothing ever comes out. */
  lemma NothingWithoutTokens(c: Config, n: nat, actions: seq<Action>, s: State, p: nat)
    requires Reaches(c, n, actions, s) && p < n && c.perKey < 1
    ensures |s.pipes| == n && s.pipes[p].output == []
  {
    hide GrantedTo, Heard, PoolLog, TokenPool.Counts, TokenPool.Exact;
    ReachableInv(c, n, actions, s);
    assert PipeSound(s.pipes[p], GrantedTo(s.log, p));
    assert forall i :: 0 <= i < |s.log| && s.log[i].Asked? ==> !s.log[i].granted by {
      NeverGranted(c, s.log);
    }
    NoGrants(s.log, p);
  }

  lemma NeverGranted(c: Config, log: seq<Served>)
    requires TokenPool.Exact(c.perKey, PoolLog(c, log)) && c.perKey < 1
    ensures forall i :: 0 <= i < |log| && log[i].Asked? ==> !log[i].granted
  {
    hide TokenPool.CallsSince;
    forall i | 0 <= i < |log| && log[i].Asked?
      ensures !log[i].granted
    {
      assert PoolLog(c, log)[i].Consumed?;
    }
  }

  lemma {:induction false} NoGrants(log: seq<Served>, p: nat)
    requires forall i :: 0 <= i < |log| && log[i].Asked? ==> !log[i].granted
    ensures GrantedTo(log, p) == []
  {
    if log != [] {
      NoGrants(log[..|log| - 1], p);
    }
  }

  /** With a token to give, no item is ever stuck: whatever happened so far, a pipeline that holds an item can still
      pass it on, and is then ready for any other. */
  lemma ItemCanPass(c: Config, n: nat, actions: seq<Action>, s: State, p: nat) returns (actions': seq<Action>, s': State)
    requires Reaches(c, n, actions, s) && p < n && c.perKey >= 1
    requires |s.pipes| == n && InHand(s.pipes[p].pc) != []
    ensures actions <= actions' && Reaches(c, n, actions', s') && |s'.pipes| == n
    ensures s'.pipes[p].output == s.pipes[p].output + InHand(s.pipes[p].pc)
    ensures s'.pipes[p].pc == Ready && forall item :: Enabled(s', Take(p, item))
  {
    hide Reaches;
    var pc := s.pipes[p].pc;
    if pc.Granted? {
      actions', s' := Step(c, n, actions, s, Forward(p));
    } else if pc.Refused? {
      var actions1, s1 := Step(c, n, actions, s, Listen(p));
      actions', s' := ListenerCanPass(c, n, actions1, s1, p);
    } else if pc.Listening? {
      actions', s' := ListenerCanPass(c, n, actions, s, p);
    } else {
      var actions1, s1 := Step(c, n, actions, s, Tick);
      actions', s' := FirstAskPasses(c, n, actions1, s1, p);
    }
  }

  /** With a token to give, a pipeline that is ready can pass on any items that may come, and is ready again. */
  lemma {:induction false} ItemsCanPass(c: Config, n: nat, actions: seq<Action>, s: State, p: nat, items: seq<Item>)
    returns (actions': seq<Action>, s': State)
    requires Reaches(c, n, actions, s) && p < n && c.perKey >= 1 && |s.pipes| == n && s.pipes[p].pc == Ready
    ensures actions <= actions' && Reaches(c, n, actions', s') && |s'.pipes| == n
    ensures s'.pipes[p].pc == Ready && s'.pipes[p].output == s.pipes[p].output + items
    decreases |items|
  {
    hide Reaches;
    actions', s' := actions, s;
    if items != [] {
      var actions1, s1 := Step(c, n, actions, s, Take(p, items[0]));
      var actions2, s2 := ItemCanPass(c, n, actions1, s1, p);
      actions', s' := ItemsCanPass(c, n, actions2, s2, p, items[1..]);
      assert s.pipes[p].output + items == s.pipes[p].output + [items[0]] + items[1..];
    }
  }

  /** So with at least one token per refresh there is for every list of items a schedule that takes in and gives out exactly
      that list, and then ends. */
  lemma EveryListPasses(c: Config, n: nat, p: nat, items: seq<Item>) returns (actions: seq<Action>, s: State)
    requires p < n && c.perKey >= 1
    ensures Reaches(c, n, actions, s) && |s.pipes| == n
    ensures s.pipes[p].output == Taken(actions, p) == items && s.pipes[p].pc == Done
  {
    hide Reaches, Taken;
    NothingYet(c, n);
    actions, s := ItemsCanPass(c, n, [], Start(n), p, items);
    actions, s := Step(c, n, actions, s, EndInput(p));
    HistoryOfActions(c, n, actions, s, p);
    OutputIsPrefixOfInput(c, n, actions, s, p);
  }

  lemma NothingYet(c: Config, n: nat)
    ensures Reaches(c, n, [], Start(n))
  {
  }

  lemma ListenerCanPass(c: Config, n: nat, actions: seq<Action>, s: State, p: nat) returns (actions': seq<Action>, s': State)
    requires Reaches(c, n, actions, s) && p < n && c.perKey >= 1
    requires |s.pipes| == n && s.pipes[p].pc.Listening?
    ensures actions <= actions' && Reaches(c, n, actions', s') && |s'.pipes| == n
    ensures s'.pipes[p].output == s.pipes[p].output + [s.pipes[p].pc.item]
    ensures s'.pipes[p].pc == Ready
  {
    hide Reaches;
    NoLostWakeup(c, n, actions, s, p);
    var actions1, s1 := Step(c, n, actions, s, Tick);
    var actions2, s2 := Step(c, n, actions1, s1, Wake(p));
    actions', s' := FirstAskPasses(c, n, actions2, s2, p);
  }

  /** The first to ask after a refresh is granted. */
  lemma FirstAskPasses(c: Config, n: nat, actions: seq<Action>, s: State, p: nat) returns (actions': seq<Action>, s': State)
    requires Reaches(c, n, actions, s) && p < n && c.perKey >= 1
    requires |s.pipes| == n && s.pipes[p].pc.Asking? && s.pool.tokensMap == map[]
    ensures actions <= actions' && Reaches(c, n, actions', s') && |s'.pipes| == n
    ensures s'.pipes[p].output == s.pipes[p].output + [s.pipes[p].pc.item]
    ensures s'.pipes[p].pc == Ready
  {
    hide Reaches;
    var actions1, s1 := Step(c, n, actions, s, Ask(p));
    assert s1.pipes[p].pc == Granted(s.pipes[p].pc.item);
    actions', s' := Step(c, n, actions1, s1, Forward(p));
  }

  lemma Step(c: Config, n: nat, actions: seq<Action>, s: State, a: Action) returns (actions': seq<Action>, s': State)
    requires Reaches(c, n, actions, s) && Enabled(s, a)
    ensures actions' == actions + [a] && s' == Apply(c, s, a) && Reaches(c, n, actions', s')
  {
    actions', s' := actions + [a], Apply(c, s, a);
    assert actions'[..|actions|] == actions;
  }
}
