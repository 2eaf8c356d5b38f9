// The rate limiter of handled-error reports (crash.py, `record_exception`): a table that forgets old entries, shared
// by many threads that read the clock before they take the lock.
module CrashLimiter {
  import opened Prelude

  type Key = string

  const HANDLED_EVERY := 10.0
  const FORGET_AFTER := 600.0

  type Table = map<Key, real>

  /** `_handled_at.get(key, -HANDLED_EVERY)`. */
  function LastHandled(table: Table, key: Key): real
  {
    if key in table then table[key] else -HANDLED_EVERY
  }

  predicate Allowed(table: Table, key: Key, now: real)
  {
    !(now - LastHandled(table, key) < HANDLED_EVERY)
  }

  function Evict(table: Table, now: real): Table
  {
    map key | key in table && !(now - table[key] > FORGET_AFTER) :: table[key]
  }

  /** The two locked sections of `record_exception`. */
  class Limiter {
    var handledAt: Table

    constructor ()
      ensures handledAt == map[]
    {
      handledAt := map[];
    }

    /** Check and claim: false means the report is dropped. */
    method Claim(key: Key, now: real) returns (claimed: bool)
      modifies this
      ensures claimed == Allowed(old(handledAt), key, now)
      ensures handledAt == if claimed then Evict(old(handledAt)[key := now], now) else old(handledAt)
    {
      if now - LastHandled(handledAt, key) < HANDLED_EVERY {
        return false;
      }
      handledAt := handledAt[key := now];
      ghost var claimedTable := handledAt;
      var delOld := set k | k in handledAt && now - handledAt[k] > FORGET_AFTER;
      while delOld != {}
        invariant delOld <= handledAt.Keys
        invariant handledAt.Keys <= claimedTable.Keys
        invariant forall k :: k in handledAt ==> handledAt[k] == claimedTable[k]
        invariant forall k :: k in delOld ==> now - claimedTable[k] > FORGET_AFTER
        invariant forall k :: k in claimedTable && !(now - claimedTable[k] > FORGET_AFTER) ==> k in handledAt
        invariant forall k :: k in handledAt && now - claimedTable[k] > FORGET_AFTER ==> k in delOld
        decreases delOld
      {
        var k :| k in delOld;
        handledAt := handledAt - {k};
        delOld := delOld - {k};
      }
      return true;
    }

    /** The window runs from when the report was filed. */
    method Complete(key: Key, now: real)
      modifies this
      ensures handledAt == old(handledAt)[key := now]
    {
      handledAt := handledAt[key := now];
    }
  }

  // ----- Threads -----

  type Thread = nat

  datatype Phase = Waiting(key: Key, now: real) | Reporting(key: Key)

  datatype Mark = Claimed(key: Key, at: real) | Refused(key: Key, at: real) | Completed(key: Key, at: real)

  datatype State = State(clock: real, table: Table, threads: map<Thread, Phase>, log: seq<Mark>)

  /** The clock moves on; a thread reads it, gets the lock and claims, files its report, or fails while filing. */
  datatype Action = Tick(to: real) | Read(id: Thread, key: Key) | Lock(id: Thread) | Finish(id: Thread) | Fail(id: Thread)

  predicate IsWaiting(s: State, id: Thread) { id in s.threads && s.threads[id].Waiting? }
  predicate IsReporting(s: State, id: Thread) { id in s.threads && s.threads[id].Reporting? }

  /** One step of the threads around a table that evicts, or around one that never does. */
  function Next(evicting: bool, s: State, a: Action): State
  {
    match a
    case Tick(to) => s.(clock := if to >= s.clock then to else s.clock)
    case Read(id, key) => if id in s.threads then s else s.(threads := s.threads[id := Waiting(key, s.clock)])
    case Lock(id) =>
      if !IsWaiting(s, id) then s
      else
        var key, now := s.threads[id].key, s.threads[id].now;
        if Allowed(s.table, key, now) then
          var table := s.table[key := now];
          s.(table := if evicting then Evict(table, now) else table,
             threads := s.threads[id := Reporting(key)],
             log := s.log + [Claimed(key, now)])
        else
          s.(threads := s.threads - {id}, log := s.log + [Refused(key, now)])
    case Finish(id) =>
      if !IsReporting(s, id) then s
      else
        var key := s.threads[id].key;
        s.(table := s.table[key := s.clock], threads := s.threads - {id}, log := s.log + [Completed(key, s.clock)])
    case Fail(id) => if !IsReporting(s, id) then s else s.(threads := s.threads - {id})
  }

  function Run(evicting: bool, s: State, actions: seq<Action>): State
  {
    if actions == [] then s
    else Next(evicting, Run(evicting, s, actions[..|actions| - 1]), actions[|actions| - 1])
  }

  const START := State(0.0, map[], map[], [])

  /** How long a thread may wait between reading the clock and getting the lock. */
  const MAX_WAIT := 590.0

  predicate PromptStep(s: State, a: Action, bound: real)
  {
    a.Lock? && IsWaiting(s, a.id) ==> s.clock - s.threads[a.id].now <= bound
  }

  /** No thread of the schedule waits longer than the bound. */
  ghost predicate Prompt(actions: seq<Action>, bound: real)
  {
    forall n :: 0 <= n < |actions| ==> PromptStep(Run(true, START, actions[..n]), actions[n], bound)
  }

  // ----- The evicting table decides like the full one -----

  ghost predicate Sound(s: State)
  {
    && s.clock >= 0.0
    && (forall id :: IsWaiting(s, id) ==> 0.0 <= s.threads[id].now <= s.clock)
    && (forall key :: key in s.table ==> s.table[key] <= s.clock)
  }

  /** Everything but the table agrees, and what the evicting table forgot is more than 600 s old. */
  ghost predicate Forgets(e: State, f: State)
  {
    && e.clock == f.clock && e.threads == f.threads && e.log == f.log
    && (forall key :: key in e.table ==> key in f.table && e.table[key] == f.table[key])
    && (forall key :: key in f.table && key !in e.table ==> f.clock - f.table[key] > FORGET_AFTER)
  }

  lemma SameDecision(e: State, f: State, id: Thread)
    requires Forgets(e, f) && Sound(f) && IsWaiting(e, id) && PromptStep(e, Lock(id), MAX_WAIT)
    ensures Allowed(e.table, e.threads[id].key, e.threads[id].now) == Allowed(f.table, e.threads[id].key, e.threads[id].now)
  {
    var key := e.threads[id].key;
    if key in f.table && key !in e.table {
      assert f.clock - f.table[key] > FORGET_AFTER;
    }
  }

  lemma ForgetsStep(e: State, f: State, a: Action)
    requires Forgets(e, f) && Sound(f) && PromptStep(e, a, MAX_WAIT)
    ensures Forgets(Next(true, e, a), Next(false, f, a)) && Sound(Next(false, f, a))
  {
    if a.Lock? && IsWaiting(e, a.id) {
      SameDecision(e, f, a.id);
    }
  }

  /** On every prompt schedule the evicting table claims, refuses and reports exactly like one that never evicts. */
  lemma {:induction false} EvictionInvisible(actions: seq<Action>)
    requires Prompt(actions, MAX_WAIT)
    ensures Forgets(Run(true, START, actions), Run(false, START, actions)) && Sound(Run(false, START, actions))
  {
    if actions == [] {
    } else {
      var n := |actions| - 1;
      assert Prompt(actions[..n], MAX_WAIT) by {
        forall k | 0 <= k < n ensures PromptStep(Run(true, START, actions[..n][..k]), actions[..n][k], MAX_WAIT) {
          assert actions[..n][..k] == actions[..k];
        }
      }
      EvictionInvisible(actions[..n]);
      ForgetsStep(Run(true, START, actions[..n]), Run(false, START, actions[..n]), actions[n]);
    }
  }

  // ----- Ten seconds apart -----

  predicate Handled(mark: Mark) { mark.Claimed? || mark.Completed? }

  ghost predicate Spaced(log: seq<Mark>)
  {
    forall i, j :: 0 <= i < j < |log| && Handled(log[i]) && log[j].Claimed? && log[i].key == log[j].key ==>
      log[j].at - log[i].at >= HANDLED_EVERY
  }

  ghost predicate TableIsLatest(s: State)
  {
    forall i :: 0 <= i < |s.log| && Handled(s.log[i]) ==>
      s.log[i].key in s.table && s.log[i].at <= s.table[s.log[i].key]
  }

  lemma {:induction false} FullTableSpaced(actions: seq<Action>)
    ensures var s := Run(false, START, actions); Sound(s) && TableIsLatest(s) && Spaced(s.log)
  {
    if actions == [] {
    } else {
      FullTableSpaced(actions[..|actions| - 1]);
    }
  }

  /** With many threads and a forward clock, every claim is at least ten seconds after every earlier claim and every
      earlier completed report of the same key, as long as no thread waits over 590 s for the lock. */
  lemma ReportsSpaced(actions: seq<Action>)
    requires Prompt(actions, MAX_WAIT)
    ensures Spaced(Run(true, START, actions).log)
  {
    EvictionInvisible(actions);
    FullTableSpaced(actions);
  }

  lemma Extend(actions: seq<Action>, s: State, a: Action, bound: real) returns (longer: seq<Action>)
    requires Prompt(actions, bound) && Run(true, START, actions) == s && PromptStep(s, a, bound)
    ensures longer == actions + [a] && Prompt(longer, bound) && Run(true, START, longer) == Next(true, s, a)
  {
    longer := actions + [a];
    forall n | 0 <= n < |longer| ensures PromptStep(Run(true, START, longer[..n]), longer[n], bound) {
      assert longer[..n] == actions[..n];
      assert actions[..|actions|] == actions;
    }
    assert longer[..|longer| - 1] == actions;
  }

  lemma ClaimThenWait(key: Key, d: real) returns (actions: seq<Action>)
    requires 0.0 < d <= 10.0
    ensures Prompt(actions, MAX_WAIT + 2.0 * d)
    ensures Run(true, START, actions) ==
            State(600.0 + d, map[key := 0.0], map[2 := Waiting(key, 10.0 - d)], [Claimed(key, 0.0)])
  {
    var bound := MAX_WAIT + 2.0 * d;
    actions := Extend([], START, Read(1, key), bound);
    actions := Extend(actions, State(0.0, map[], map[1 := Waiting(key, 0.0)], []), Lock(1), bound);
    assert Evict(map[key := 0.0], 0.0) == map[key := 0.0];
    var claimed := State(0.0, map[key := 0.0], map[1 := Reporting(key)], [Claimed(key, 0.0)]);
    actions := Extend(actions, claimed, Fail(1), bound);
    actions := Extend(actions, claimed.(threads := map[]), Tick(10.0 - d), bound);
    actions := Extend(actions, claimed.(clock := 10.0 - d, threads := map[]), Read(2, key), bound);
    var waiting := claimed.(clock := 10.0 - d, threads := map[2 := Waiting(key, 10.0 - d)]);
    actions := Extend(actions, waiting, Tick(600.0 + d), bound);
  }

  /** The claim of another key forgets the first one while thread 2 still waits. */
  lemma ClaimForgets(key: Key, other: Key, d: real) returns (s: State)
    requires key != other && 0.0 < d <= 10.0
    ensures var at, early := 600.0 + d, Waiting(key, 10.0 - d);
            && s == State(at, map[key := 0.0], map[2 := early, 3 := Waiting(other, at)], [Claimed(key, 0.0)])
            && Next(true, s, Lock(3)) ==
               State(at, map[other := at], map[2 := early, 3 := Reporting(other)], [Claimed(key, 0.0), Claimed(other, at)])
  {
    var at := 600.0 + d;
    s := State(at, map[key := 0.0], map[2 := Waiting(key, 10.0 - d), 3 := Waiting(other, at)], [Claimed(key, 0.0)]);
    assert Evict(map[key := 0.0][other := at], at) == map[other := at];
  }

  lemma LateClaim(s: State, key: Key, d: real)
    requires IsWaiting(s, 2) && s.threads[2] == Waiting(key, 10.0 - d) && key !in s.table && 0.0 < d <= 10.0
    requires s.log != [] && s.log[0] == Claimed(key, 0.0)
    ensures !Spaced(Next(true, s, Lock(2)).log)
  {
    var log := Next(true, s, Lock(2)).log;
    assert log == s.log + [Claimed(key, 10.0 - d)];
    assert log[0] == Claimed(key, 0.0) && log[|log| - 1] == Claimed(key, 10.0 - d);
  }

  /** 590 s is sharp: with any longer wait two claims of one key can be closer than ten seconds. */
  lemma LongWaitBreaksSpacing(key: Key, other: Key, d: real) returns (actions: seq<Action>)
    requires key != other && 0.0 < d <= 10.0
    ensures Prompt(actions, MAX_WAIT + 2.0 * d) && !Spaced(Run(true, START, actions).log)
  {
    var bound := MAX_WAIT + 2.0 * d;
    actions := ClaimThenWait(key, d);
    actions := Extend(actions, Run(true, START, actions), Read(3, other), bound);
    var s := ClaimForgets(key, other, d);
    assert Run(true, START, actions) == s;
    actions := Extend(actions, s, Lock(3), bound);
    LateClaim(Next(true, s, Lock(3)), key, d);
    actions := Extend(actions, Next(true, s, Lock(3)), Lock(2), bound);
  }
}
