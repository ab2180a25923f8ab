/**
 What withinLimit makes of a call, await by await: the limit it reads, when it gets the payer's lock,
 the sum it sees, and the row it inserts. The machine's own steps appear here only as what the other
 calls do in between.
 */
module SpendingAnswer {
  import opened Base
  import opened Hex
  import opened SpendingLimit
  import opened SpendingLimitService

  /** The deposits of a payer's sessions that are younger than the window and not cancelled now. */
  function SpentBy(cfg: Config, sessions: seq<Session>, payer: string, now: int): nat {
    if |sessions| == 0 then 0
    else
      var front, s := sessions[..|sessions| - 1], sessions[|sessions| - 1];
      SpentBy(cfg, front, payer, now)
      + if Lower(s.agentA) == Lower(payer) && s.createdAt > now - cfg.windowMs && s.status != Cancelled
        then s.deposit else 0
  }

  /** Another call of the payer is past the lock and has not inserted or been refused. */
  predicate IsBusy(s: State, payer: string) {
    exists d :: d in s.calls && Lower(s.calls[d].agentA) == Lower(payer)
                && (s.calls[d].phase.Locked? || s.calls[d].phase.Fits?)
  }

  function Put(s: State, c: nat, q: Call, phase: Phase): State {
    s.(calls := s.calls[c := q.(phase := phase)])
  }

  /** The row of the call, stamped with this time. */
  function WithRow(s: State, c: nat, q: Call, createdAt: int): State {
    Put(s, c, q, Opened).(sessions := s.sessions + [Session(q.agentA, q.amount, createdAt, Open, false)])
  }

  /** After each round of the others the lock is looked at; without it the call waits on. */
  function Locking(cfg: Config, s: State, c: nat, q: Call, limit: nat, rounds: seq<seq<Event>>): State
    decreases |rounds|
  {
    if |rounds| == 0 then s
    else
      var o := Others(cfg, s, rounds[0]);
      if IsBusy(o, q.agentA) then Locking(cfg, o, c, q, limit, rounds[1..]) else Put(o, c, q, Locked(limit))
  }

  /** Under the lock: refused when the window would overflow, else inserted. */
  function Deciding(cfg: Config, s: State, c: nat, q: Call, limit: nat, createdAt: int, script: Script): State {
    var o := Others(cfg, s, script.summing);
    var spent := SpentBy(cfg, o.sessions, q.agentA, q.now);
    if spent + q.amount > limit then Put(o, c, q, Refused(Max(limit - spent, 0)))
    else WithRow(Others(cfg, Put(o, c, q, Fits(limit)), script.inserting), c, q, createdAt)
  }

  /** A limited call: its transaction begins when the limit has been read. */
  function Limited(cfg: Config, s: State, c: nat, q: Call, limit: nat, script: Script): State {
    var t := Locking(cfg, Put(s, c, q, Waiting(limit)), c, q, limit, script.waiting);
    if c in t.calls && t.calls[c].phase.Locked? then Deciding(cfg, t, c, q, limit, s.clock, script) else t
  }

  /** A whole call: a payer's own limit counts before the default, and zero means none. */
  function Answered(cfg: Config, s: State, c: nat, agentA: string, amount: nat, script: Script): State {
    var q := Call(agentA, amount, s.clock, ReadingLimit);
    var o := Others(cfg, Put(s, c, q, ReadingLimit), script.reading);
    var own := Lower(agentA) in o.limits;
    var limit: int := if own then o.limits[Lower(agentA)]
                      else if cfg.defaultLimit.Some? then cfg.defaultLimit.value else 0;
    if limit > 0 then Limited(cfg, o, c, q, limit, script)
    else
      var t := Others(cfg, Put(o, c, q, Unlimited), script.inserting);
      WithRow(t, c, q, t.clock)
  }

  // ---------------------------------------------------------------------------------------------
  // The machine does exactly this
  // ---------------------------------------------------------------------------------------------

  predicate StandsAt(s: State, c: nat, q: Call, phase: Phase) {
    c in s.calls && s.calls[c] == q.(phase := phase)
  }

  lemma {:induction false} SpentIsSum(cfg: Config, sessions: seq<Session>, payer: string, now: int)
    ensures SpentInWindow(cfg, sessions, Lower(payer), now) == SpentBy(cfg, sessions, payer, now)
  {
    if |sessions| > 0 {
      SpentIsSum(cfg, sessions[..|sessions| - 1], payer, now);
    }
  }

  lemma BusyIff(s: State, payer: string)
    ensures IsBusy(s, payer) <==> !LockIsFree(s, Lower(payer))
  {
  }

  lemma {:induction false} Locks(cfg: Config, s: State, c: nat, q: Call, limit: nat, rounds: seq<seq<Event>>)
    requires StandsAt(s, c, q, Waiting(limit)) && AllRoundsForeign(rounds, c)
    ensures AfterWaiting(cfg, s, c, rounds) == Locking(cfg, s, c, q, limit, rounds)
    ensures var t := AfterWaiting(cfg, s, c, rounds);
            StandsAt(t, c, q, Waiting(limit)) || StandsAt(t, c, q, Locked(limit))
    decreases |rounds|
  {
    if |rounds| > 0 {
      OthersKeep(cfg, s, rounds[0], c);
      var o := Others(cfg, s, rounds[0]);
      BusyIff(o, q.agentA);
      if IsBusy(o, q.agentA) {
        Locks(cfg, o, c, q, limit, rounds[1..]);
      }
    }
  }

  lemma Decides(cfg: Config, s: State, c: nat, q: Call, limit: nat, createdAt: int, script: Script)
    requires StandsAt(s, c, q, Locked(limit)) && ForeignScript(script, c) && q.now <= createdAt <= s.clock
    ensures AfterCheck(cfg, s, c, createdAt, script) == Deciding(cfg, s, c, q, limit, createdAt, script)
  {
    OthersKeep(cfg, s, script.summing, c);
    var o, t := Others(cfg, s, script.summing), Next(cfg, s, c, script.summing);
    SpentIsSum(cfg, o.sessions, q.agentA, q.now);
    if t.calls[c].phase.Fits? {
      OthersKeep(cfg, t, script.inserting, c);
      assert t == Put(o, c, q, Fits(limit));
    }
  }

  lemma Reads(cfg: Config, s: State, c: nat, agentA: string, amount: nat, script: Script)
    requires StandsAt(s, c, Call(agentA, amount, s.clock, ReadingLimit), ReadingLimit) && ForeignScript(script, c)
    ensures Played(cfg, s, c, script) == Answered(cfg, s, c, agentA, amount, script)
  {
    var q := Call(agentA, amount, s.clock, ReadingLimit);
    assert Put(s, c, q, ReadingLimit) == s;
    OthersKeep(cfg, s, script.reading, c);
    var o, t := Others(cfg, s, script.reading), Next(cfg, s, c, script.reading);
    if t.calls[c].phase.Unlimited? {
      assert t == Put(o, c, q, Unlimited);
      OthersKeep(cfg, t, script.inserting, c);
    } else {
      var limit := t.calls[c].phase.limit;
      assert t == Put(o, c, q, Waiting(limit));
      Locks(cfg, t, c, q, limit, script.waiting);
      LockKeepsTime(cfg, t, c, script.waiting);
      var u := AfterWaiting(cfg, t, c, script.waiting);
      if u.calls[c].phase.Locked? {
        Decides(cfg, u, c, q, limit, t.clock, script);
      }
    }
  }

  lemma {:induction false} LockKeepsTime(cfg: Config, s: State, c: nat, rounds: seq<seq<Event>>)
    requires c in s.calls && s.calls[c].phase.Waiting? && AllRoundsForeign(rounds, c)
    ensures AfterWaiting(cfg, s, c, rounds).clock >= s.clock
    decreases |rounds|
  {
    if |rounds| > 0 {
      OthersKeep(cfg, s, rounds[0], c);
      var t := Next(cfg, s, c, rounds[0]);
      if t.calls[c].phase.Waiting? {
        LockKeepsTime(cfg, t, c, rounds[1..]);
      }
    }
  }

  /** A call of the machine ends exactly as told above: the same sessions, the same answer. */
  lemma WithinLimitAnswers(cfg: Config, s: State, c: nat, agentA: string, amount: nat, script: Script)
    requires c !in s.calls && ForeignScript(script, c)
    ensures Played(cfg, Step(cfg, s, Begin(c, agentA, amount)), c, script)
         == Answered(cfg, s, c, agentA, amount, script)
  {
    var begun := Step(cfg, s, Begin(c, agentA, amount));
    Reads(cfg, begun, c, agentA, amount, script);
    assert begun.calls[c := begun.calls[c]] == begun.calls;
  }
}
