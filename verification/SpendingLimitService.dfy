/**
 The spending limit service as it runs: each call reads the limit, takes the payer's lock, sums and
 inserts, while other calls move at every `await`. What a script makes of a state is the function Played
 of the machine in SpendingLimit, and WithinLimit is shown to compute it.
 */
module SpendingLimitService {
  import opened Base
  import opened Hex
  import opened SpendingLimit

  /** What others do before the limit is read, while the lock is awaited, before the sum and the insert. */
  datatype Script = Script(
    reading: seq<Event>, waiting: seq<seq<Event>>, summing: seq<Event>, inserting: seq<Event>)

  datatype Outcome = Inserted | LimitExceeded(remaining: nat) | StillWaiting

  predicate Foreign(e: Event, c: nat) {
    match e
    case Begin(d, _, _) => d != c
    case Advance(d, _) => d != c
    case _ => true
  }

  predicate AllForeign(es: seq<Event>, c: nat) {
    forall i | 0 <= i < |es| :: Foreign(es[i], c)
  }

  predicate AllRoundsForeign(rounds: seq<seq<Event>>, c: nat) {
    forall i | 0 <= i < |rounds| :: AllForeign(rounds[i], c)
  }

  predicate ForeignScript(script: Script, c: nat) {
    && AllForeign(script.reading, c) && AllForeign(script.summing, c) && AllForeign(script.inserting, c)
    && AllRoundsForeign(script.waiting, c)
  }

  lemma ForeignStepKeeps(cfg: Config, s: State, e: Event, c: nat)
    requires c in s.calls && Foreign(e, c)
    ensures c in Step(cfg, s, e).calls && Step(cfg, s, e).calls[c] == s.calls[c]
    ensures Step(cfg, s, e).clock >= s.clock
  {
  }

  /** The last session is the call's, stamped no earlier than the call. */
  predicate IsLast(sessions: seq<Session>, call: Call) {
    |sessions| > 0 && var last := sessions[|sessions| - 1];
    last == NewSession(call, last.createdAt) && last.createdAt >= call.now
  }

  // ---------------------------------------------------------------------------------------------
  // A script played on the machine
  // ---------------------------------------------------------------------------------------------

  function Others(cfg: Config, s: State, es: seq<Event>): State
    decreases |es|
  {
    if |es| == 0 then s else Step(cfg, Others(cfg, s, es[..|es| - 1]), es[|es| - 1])
  }

  lemma OthersSnoc(cfg: Config, s: State, es: seq<Event>, k: nat)
    requires k < |es|
    ensures Others(cfg, s, es[..k + 1]) == Step(cfg, Others(cfg, s, es[..k]), es[k])
  {
    assert es[..k + 1][..k] == es[..k];
  }

  lemma {:induction false} OthersKeep(cfg: Config, s: State, es: seq<Event>, c: nat)
    requires c in s.calls && AllForeign(es, c)
    ensures c in Others(cfg, s, es).calls && Others(cfg, s, es).calls[c] == s.calls[c]
    ensures Others(cfg, s, es).clock >= s.clock
    decreases |es|
  {
    if |es| > 0 {
      OthersKeep(cfg, s, es[..|es| - 1], c);
      ForeignStepKeeps(cfg, Others(cfg, s, es[..|es| - 1]), es[|es| - 1], c);
    }
  }

  /** The others act, then the call moves at the time it is then. */
  function Next(cfg: Config, s: State, c: nat, es: seq<Event>): State {
    var o := Others(cfg, s, es);
    Step(cfg, o, Advance(c, o.clock))
  }

  /** The lock is looked at once after each round; when no round is left the call still waits. */
  function AfterWaiting(cfg: Config, s: State, c: nat, rounds: seq<seq<Event>>): (t: State)
    requires c in s.calls && s.calls[c].phase.Waiting? && AllRoundsForeign(rounds, c)
    ensures c in t.calls && (t.calls[c].phase.Waiting? || t.calls[c].phase.Locked?)
    decreases |rounds|
  {
    if |rounds| == 0 then s
    else
      OthersKeep(cfg, s, rounds[0], c);
      var t := Next(cfg, s, c, rounds[0]);
      if t.calls[c].phase.Waiting? then AfterWaiting(cfg, t, c, rounds[1..]) else t
  }

  /** Check and insert under the lock, in a transaction that began at `createdAt`. */
  function AfterCheck(cfg: Config, s: State, c: nat, createdAt: int, script: Script): (t: State)
    requires c in s.calls && s.calls[c].phase.Locked? && ForeignScript(script, c)
  {
    OthersKeep(cfg, s, script.summing, c);
    var t := Next(cfg, s, c, script.summing);
    if t.calls[c].phase.Fits? then Step(cfg, Others(cfg, t, script.inserting), Advance(c, createdAt)) else t
  }

  function AfterLock(cfg: Config, s: State, c: nat, createdAt: int, script: Script): State
    requires c in s.calls && s.calls[c].phase.Waiting? && ForeignScript(script, c)
  {
    var t := AfterWaiting(cfg, s, c, script.waiting);
    if t.calls[c].phase.Waiting? then t else AfterCheck(cfg, t, c, createdAt, script)
  }

  /** withinLimit: without a limit the row is inserted at once, else check and insert share the lock. */
  function Played(cfg: Config, s: State, c: nat, script: Script): State
    requires c in s.calls && s.calls[c].phase.ReadingLimit? && ForeignScript(script, c)
  {
    OthersKeep(cfg, s, script.reading, c);
    var t := Next(cfg, s, c, script.reading);
    if t.calls[c].phase.Unlimited? then Next(cfg, t, c, script.inserting)
    else AfterLock(cfg, t, c, t.clock, script)
  }

  /** What the caller is told in the phase its call ended in. */
  function OutcomeOf(phase: Phase): Outcome {
    match phase
    case Opened => Inserted
    case Refused(remaining) => LimitExceeded(remaining)
    case _ => StillWaiting
  }

  class SpendingLimitService {
    const cfg: Config
    var clock: int
    var limits: map<string, int>
    var sessions: seq<Session>
    var calls: map<nat, Call>
    ghost var history: seq<Event>

    function Machine(): State
      reads this
    {
      State(clock, limits, sessions, calls)
    }

    ghost predicate Valid()
      reads this
    {
      Machine() == Run(cfg, history)
    }

    constructor (cfg: Config)
      ensures Valid() && this.cfg == cfg && Machine() == START && history == []
    {
      this.cfg := cfg;
      clock, limits, sessions, calls, history := 0, map[], [], map[], [];
    }

    /** Records the event that led from `before` to what the fields now show. */
    ghost method Log(e: Event, before: State)
      requires before == Run(cfg, history) && Machine() == Step(cfg, before, e)
      modifies this`history
      ensures Valid() && history == old(history) + [e]
    {
      RunSnoc(cfg, history, e);
      history := history + [e];
    }

    /** The others act. */
    method Meanwhile(es: seq<Event>, c: nat)
      requires Valid() && c in calls && AllForeign(es, c)
      modifies this
      ensures Valid() && old(history) <= history && Machine() == Others(cfg, old(Machine()), es)
      ensures c in calls && calls[c] == old(calls[c]) && clock >= old(clock)
    {
      for k := 0 to |es|
        invariant Valid() && old(history) <= history && Machine() == Others(cfg, old(Machine()), es[..k])
      {
        ghost var before := Machine();
        OthersSnoc(cfg, old(Machine()), es, k);
        var t := Step(cfg, Machine(), es[k]);
        clock, limits, sessions, calls := t.clock, t.limits, t.sessions, t.calls;
        Log(es[k], before);
      }
      assert es[..|es|] == es;
      OthersKeep(cfg, old(Machine()), es, c);
    }

    /** setLimit: "0" lifts the limit for this payer only. */
    method SetLimit(payer: string, wei: int)
      requires Valid()
      modifies this
      ensures Valid() && Machine() == old(Machine()).(limits := old(limits)[Lower(payer) := wei])
      ensures LimitFor(cfg, limits, Lower(payer)) == if wei > 0 then Some(wei) else None
      ensures forall p | p != Lower(payer) :: LimitFor(cfg, limits, p) == LimitFor(cfg, old(limits), p)
    {
      ghost var before := Machine();
      limits := limits[Lower(payer) := wei];
      Log(LimitSet(payer, wei), before);
    }

    /** clearLimit: the default applies again. */
    method ClearLimit(payer: string)
      requires Valid()
      modifies this
      ensures Valid() && Machine() == old(Machine()).(limits := old(limits) - {Lower(payer)})
      ensures forall p | p != Lower(payer) :: LimitFor(cfg, limits, p) == LimitFor(cfg, old(limits), p)
      ensures LimitFor(cfg, limits, Lower(payer))
           == if cfg.defaultLimit.Some? && cfg.defaultLimit.value > 0 then cfg.defaultLimit else None
    {
      ghost var before := Machine();
      limits := limits - {Lower(payer)};
      Log(LimitCleared(payer), before);
    }

    /** spentInWindow. */
    method Spent(address: string, now: int) returns (spent: nat)
      ensures spent == SpentInWindow(cfg, sessions, address, now)
    {
      var since := now - cfg.windowMs;
      ghost var keep: Filter := s => CountsAsSpent(address, since, s);
      spent := 0;
      for i := 0 to |sessions|
        invariant spent == Sum(sessions[..i], keep)
      {
        SumSnoc(sessions[..i], sessions[i], keep);
        assert sessions[..i + 1] == sessions[..i] + [sessions[i]];
        if CountsAsSpent(address, since, sessions[i]) {
          spent := spent + sessions[i].deposit;
        }
      }
      assert sessions[..|sessions|] == sessions;
    }

    /** status: the limit in force, what the window holds, and what is left of the limit. */
    method Status(payer: string, now: int) returns (limit: Option<nat>, spent: nat, remaining: Option<nat>)
      ensures limit == LimitFor(cfg, limits, Lower(payer))
      ensures spent == SpentInWindow(cfg, sessions, Lower(payer), now)
      ensures remaining.Some? <==> limit.Some?
      ensures limit.Some? ==> remaining.value == Max(limit.value - spent, 0)
    {
      limit := LimitFor(cfg, limits, Lower(payer));
      spent := Spent(Lower(payer), now);
      remaining := if limit.None? then None else Some(if limit.value > spent then limit.value - spent else 0);
    }

    /** limitFor. */
    method ReadLimit(c: nat, reading: seq<Event>)
      requires Valid() && c in calls && calls[c].phase.ReadingLimit? && AllForeign(reading, c)
      modifies this
      ensures Valid() && c in calls && old(history) <= history && clock >= old(clock)
      ensures Machine() == Next(cfg, old(Machine()), c, reading)
      ensures var limit := LimitFor(cfg, limits, Lower(calls[c].agentA));
              calls[c] == old(calls[c]).(phase := if limit.None? then Unlimited else Waiting(limit.value))
    {
      Meanwhile(reading, c);
      ghost var before := Machine();
      var limit := LimitFor(cfg, limits, Lower(calls[c].agentA));
      calls := calls[c := calls[c].(phase := if limit.None? then Unlimited else Waiting(limit.value))];
      Log(Advance(c, clock), before);
    }

    /** Waits for the payer's lock. */
    method TakeLock(c: nat, waiting: seq<seq<Event>>) returns (locked: bool)
      requires Valid() && c in calls && calls[c].phase.Waiting? && AllRoundsForeign(waiting, c)
      modifies this
      ensures Valid() && c in calls && old(history) <= history && clock >= old(clock)
      ensures Machine() == AfterWaiting(cfg, old(Machine()), c, waiting)
      ensures calls[c] == if locked then old(calls[c]).(phase := Locked(old(calls[c].phase.limit))) else old(calls[c])
    {
      locked := false;
      var i := 0;
      while i < |waiting| && !locked
        invariant 0 <= i <= |waiting| && Valid() && old(history) <= history && clock >= old(clock)
        invariant c in calls
        invariant calls[c]
               == if locked then old(calls[c]).(phase := Locked(old(calls[c].phase.limit))) else old(calls[c])
        invariant locked ==> Machine() == AfterWaiting(cfg, old(Machine()), c, waiting)
        invariant !locked ==>
                    AfterWaiting(cfg, Machine(), c, waiting[i..]) == AfterWaiting(cfg, old(Machine()), c, waiting)
      {
        assert waiting[i..][0] == waiting[i] && waiting[i..][1..] == waiting[i + 1..];
        locked := LookAtLock(c, waiting[i]);
        i := i + 1;
      }
    }

    /** One look at the lock. */
    method LookAtLock(c: nat, meanwhile: seq<Event>) returns (locked: bool)
      requires Valid() && c in calls && calls[c].phase.Waiting? && AllForeign(meanwhile, c)
      modifies this
      ensures Valid() && c in calls && old(history) <= history && clock >= old(clock)
      ensures Machine() == Next(cfg, old(Machine()), c, meanwhile)
      ensures calls[c] == if locked then old(calls[c]).(phase := Locked(old(calls[c].phase.limit))) else old(calls[c])
    {
      Meanwhile(meanwhile, c);
      ghost var before := Machine();
      locked := LockIsFree(Machine(), Lower(calls[c].agentA));
      if locked {
        calls := calls[c := calls[c].(phase := Locked(calls[c].phase.limit))];
      }
      Log(Advance(c, clock), before);
    }

    /** The check under the lock. */
    method Check(c: nat) returns (refused: Option<nat>)
      requires Valid() && c in calls && calls[c].phase.Locked?
      modifies this
      ensures Valid() && c in calls && old(history) <= history
      ensures Machine() == Step(cfg, old(Machine()), Advance(c, old(clock)))
      ensures var call := old(calls[c]); var limit := call.phase.limit;
              var spent := SpentInWindow(cfg, sessions, Lower(call.agentA), call.now);
              && calls[c] == call.(phase := if refused.Some? then Refused(refused.value) else Fits(limit))
              && (refused.Some? <==> spent + call.amount > limit)
              && (refused.Some? ==>
                    refused.value == Max(limit - spent, 0) && (call.amount > 0 ==> refused.value < call.amount))
    {
      ghost var before := Machine();
      var call := calls[c];
      var limit := call.phase.limit;
      var spent := Spent(Lower(call.agentA), call.now);
      refused := if spent + call.amount > limit then Some(if limit > spent then limit - spent else 0) else None;
      calls := calls[c := call.(phase := if refused.Some? then Refused(refused.value) else Fits(limit))];
      Log(Advance(c, clock), before);
    }

    /** The insert; the row is stamped with the time its transaction began. */
    method Insert(c: nat, createdAt: int)
      requires Valid() && c in calls && (calls[c].phase.Fits? || calls[c].phase.Unlimited?)
      requires calls[c].now <= createdAt <= clock
      modifies this
      ensures Valid() && c in calls && old(history) <= history
      ensures Machine() == Step(cfg, old(Machine()), Advance(c, createdAt))
      ensures calls[c] == old(calls[c]).(phase := Opened)
      ensures sessions == old(sessions) + [Session(calls[c].agentA, calls[c].amount, createdAt, Open, false)]
    {
      ghost var before := Machine();
      sessions := sessions + [Session(calls[c].agentA, calls[c].amount, createdAt, Open, false)];
      calls := calls[c := calls[c].(phase := Opened)];
      Log(Advance(c, createdAt), before);
    }

    /** The transaction under the payer's lock; it began at `createdAt`. */
    method Limited(c: nat, createdAt: int, script: Script) returns (outcome: Outcome)
      requires Valid() && c in calls && calls[c].phase.Waiting? && ForeignScript(script, c)
      requires calls[c].now <= createdAt <= clock
      modifies this
      ensures Valid() && c in calls && old(history) <= history
      ensures Machine() == AfterLock(cfg, old(Machine()), c, createdAt, script)
      ensures outcome == OutcomeOf(calls[c].phase) && calls[c] == old(calls[c]).(phase := calls[c].phase)
      ensures outcome.Inserted? ==> IsLast(sessions, calls[c])
      ensures outcome.LimitExceeded? && calls[c].amount > 0 ==> outcome.remaining < calls[c].amount
    {
      var locked := TakeLock(c, script.waiting);
      if !locked {
        return StillWaiting;
      }
      outcome := CheckAndInsert(c, createdAt, script);
    }

    method CheckAndInsert(c: nat, createdAt: int, script: Script) returns (outcome: Outcome)
      requires Valid() && c in calls && calls[c].phase.Locked? && ForeignScript(script, c)
      requires calls[c].now <= createdAt <= clock
      modifies this
      ensures Valid() && c in calls && old(history) <= history
      ensures Machine() == AfterCheck(cfg, old(Machine()), c, createdAt, script)
      ensures outcome == OutcomeOf(calls[c].phase) && calls[c] == old(calls[c]).(phase := calls[c].phase)
      ensures outcome.Inserted? ==> IsLast(sessions, calls[c])
      ensures outcome.LimitExceeded? && calls[c].amount > 0 ==> outcome.remaining < calls[c].amount
    {
      Meanwhile(script.summing, c);
      var refused := Check(c);
      if refused.Some? {
        return LimitExceeded(refused.value);
      }
      Meanwhile(script.inserting, c);
      Insert(c, createdAt);
      return Inserted;
    }

    /** A call from its read of the limit on. */
    method Proceed(c: nat, script: Script) returns (outcome: Outcome)
      requires Valid() && c in calls && calls[c].phase.ReadingLimit? && ForeignScript(script, c)
              && calls[c].now <= clock
      modifies this
      ensures Valid() && c in calls && old(history) <= history
      ensures Machine() == Played(cfg, old(Machine()), c, script)
      ensures outcome == OutcomeOf(calls[c].phase) && calls[c] == old(calls[c]).(phase := calls[c].phase)
      ensures outcome.Inserted? ==> IsLast(sessions, calls[c])
      ensures outcome.LimitExceeded? && calls[c].amount > 0 ==> outcome.remaining < calls[c].amount
    {
      ReadLimit(c, script.reading);
      if calls[c].phase.Unlimited? {
        Meanwhile(script.inserting, c);
        Insert(c, clock);
        outcome := Inserted;
      } else {
        outcome := Limited(c, clock, script);
      }
    }

    /** withinLimit, with the insert of the session: the state and the answer are those the script gives. */
    method WithinLimit(c: nat, agentA: string, amount: nat, script: Script) returns (outcome: Outcome)
      requires Valid() && c !in calls && ForeignScript(script, c)
      modifies this
      ensures Valid() && c in calls && old(history) <= history
      ensures Machine() == Played(cfg, Step(cfg, old(Machine()), Begin(c, agentA, amount)), c, script)
      ensures (outcome.Inserted? <==> calls[c].phase.Opened?)
              && forall left :: outcome == LimitExceeded(left) <==> calls[c].phase == Refused(left)
      ensures calls[c] == Call(agentA, amount, old(clock), calls[c].phase)
      ensures outcome.Inserted? ==> IsLast(sessions, calls[c])
      ensures outcome.LimitExceeded? && amount > 0 ==> outcome.remaining < amount
    {
      ghost var before := Machine();
      calls := calls[c := Call(agentA, amount, clock, ReadingLimit)];
      Log(Begin(c, agentA, amount), before);
      outcome := Proceed(c, script);
    }
  }
}
