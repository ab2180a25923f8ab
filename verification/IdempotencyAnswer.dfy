/**
 What the interceptor makes of a request, statement by statement: the table each statement finds after
 the others have acted, what it writes, and the answer. The machine's own steps appear here only as
 what the other requests do in between.
 */
module IdempotencyAnswer {
  import opened Base
  import opened Idempotency
  import opened IdempotencyInterceptor

  /** The request stands at this phase, and the table reads so. */
  function Put(s: State, r: nat, q: Request, phase: Phase, table: Table): State {
    s.(requests := s.requests[r := q.(phase := phase)], table := table)
  }

  /** The request is answered and the table is left alone. */
  function Answer(s: State, r: nat, q: Request, outcome: Outcome): State {
    Put(s, r, q, Answered(outcome), s.table)
  }

  /** A failed handler or write: the key is given back, unless that fails too. */
  function GivenBack(ttl: nat, s: State, r: nat, q: Request, outcome: Outcome, script: Script): State {
    var o := Others(ttl, s, script.release.meanwhile);
    if script.release.fails then Answer(o, r, q, outcome)
    else Put(o, r, q, Answered(outcome), map slot | slot in o.table && o.table[slot].id != r :: o.table[slot])
  }

  /** The handler, and the write of its response unless another record has taken the key. */
  function Handled(ttl: nat, s: State, r: nat, q: Request, script: Script): State {
    var o := Others(ttl, s, script.handling);
    if script.handler.None? then
      GivenBack(ttl, Put(o, r, q, Releasing(false), o.table), r, q, HandlerFailed, script)
    else
      var body := script.handler.value;
      var p := Others(ttl, Put(o, r, q, Completing(body), o.table), script.complete.meanwhile);
      if script.complete.fails || (q.slot in p.table && p.table[q.slot].id != r) then
        GivenBack(ttl, Put(p, r, q, Releasing(true), p.table), r, q, CompletionFailed, script)
      else
        Put(p, r, q, Answered(Completed(body)), p.table[q.slot := Record(r, q.hash, Some(body), q.now + ttl)])
  }

  /** The insert: the first one on a key runs its handler, the others get a conflict. */
  function Claimed(ttl: nat, s: State, r: nat, q: Request, script: Script): State {
    var o := Others(ttl, s, script.insert.meanwhile);
    if script.insert.fails then Answer(o, r, q, DatabaseFailed)
    else if q.slot in o.table then Answer(o, r, q, InProgressConflict)
    else
      var table := o.table[q.slot := Record(r, q.hash, None, q.now + ttl)];
      Handled(ttl, Put(o, r, q, Running, table).(insertions := o.insertions + [Insertion(r, o.clock)]), r, q, script)
  }

  /** The lookup: a live record answers, an expired one is deleted first. */
  function LookedUp(ttl: nat, s: State, r: nat, q: Request, script: Script): State {
    var o := Others(ttl, s, script.find.meanwhile);
    if script.find.fails then Answer(o, r, q, DatabaseFailed)
    else if q.slot !in o.table then Claimed(ttl, Put(o, r, q, Inserting, o.table), r, q, script)
    else
      var found := o.table[q.slot];
      if found.expiresAt > q.now then
        Answer(o, r, q,
               if found.requestHash != q.hash then BodyMismatch
               else if found.response.None? then InProgressConflict
               else Replayed(found.response.value))
      else
        var d := Others(ttl, Put(o, r, q, DroppingExpired(found.id), o.table), script.drop.meanwhile);
        if script.drop.fails then Answer(d, r, q, DatabaseFailed)
        else
          var rest := map slot | slot in d.table && d.table[slot].id != found.id :: d.table[slot];
          Claimed(ttl, Put(d, r, q, Inserting, rest), r, q, script)
  }

  /** A whole request: at most once an hour an instance deletes the expired records first. */
  function Intercepted(ttl: nat, s: State, r: nat, inst: nat, slot: Slot, hash: string, script: Script): State {
    var q := Request(slot, hash, s.clock, Finding);
    var purged := if inst in s.lastPurgeAt then s.lastPurgeAt[inst] else 0;
    if s.clock - purged < 3_600_000 then LookedUp(ttl, Put(s, r, q, Finding, s.table), r, q, script)
    else
      var begun := Put(s, r, q, Purging, s.table).(lastPurgeAt := s.lastPurgeAt[inst := s.clock]);
      var o := Others(ttl, begun, script.purge.meanwhile);
      if script.purge.fails then Answer(o, r, q, DatabaseFailed)
      else
        var rest := map slot | slot in o.table && !(o.table[slot].expiresAt < q.now) :: o.table[slot];
        LookedUp(ttl, Put(o, r, q, Finding, rest), r, q, script)
  }

  // ---------------------------------------------------------------------------------------------
  // The machine does exactly this
  // ---------------------------------------------------------------------------------------------

  predicate StandsAt(s: State, r: nat, q: Request, phase: Phase) {
    r in s.requests && s.requests[r] == q.(phase := phase)
  }

  lemma AnsweredStays(ttl: nat, s: State, r: nat, script: Script)
    requires r in s.requests && ForeignScript(script, r) && s.requests[r].phase.Answered?
    ensures Play(ttl, s, r, script, false) == s
  {
  }

  /** The state in which the next statement takes effect, and that Play goes through it. */
  lemma NextTurn(ttl: nat, s: State, r: nat, q: Request, phase: Phase, script: Script)
    requires StandsAt(s, r, q, phase) && ForeignScript(script, r) && !phase.Answered? && !phase.Running?
    ensures StandsAt(Others(ttl, s, AwaitAt(script, phase).meanwhile), r, q, phase)
    ensures r in Next(ttl, s, r, script).requests
    ensures Play(ttl, s, r, script, false) == Play(ttl, Next(ttl, s, r, script), r, script, false)
  {
    OthersKeep(ttl, s, AwaitAt(script, phase).meanwhile, r);
    PlayStep(ttl, s, r, script, false);
  }

  lemma GivesBack(ttl: nat, s: State, r: nat, q: Request, succeeded: bool, script: Script)
    requires StandsAt(s, r, q, Releasing(succeeded)) && ForeignScript(script, r)
    ensures Play(ttl, s, r, script, false)
         == GivenBack(ttl, s, r, q, if succeeded then CompletionFailed else HandlerFailed, script)
  {
    NextTurn(ttl, s, r, q, Releasing(succeeded), script);
    AnsweredStays(ttl, Next(ttl, s, r, script), r, script);
  }

  lemma Stores(ttl: nat, s: State, r: nat, q: Request, body: string, script: Script)
    requires StandsAt(s, r, q, Completing(body)) && ForeignScript(script, r)
    ensures var p := Others(ttl, s, script.complete.meanwhile);
            Play(ttl, s, r, script, false) ==
            if script.complete.fails || (q.slot in p.table && p.table[q.slot].id != r) then
              GivenBack(ttl, Put(p, r, q, Releasing(true), p.table), r, q, CompletionFailed, script)
            else
              Put(p, r, q, Answered(Completed(body)), p.table[q.slot := Record(r, q.hash, Some(body), q.now + ttl)])
  {
    NextTurn(ttl, s, r, q, Completing(body), script);
    var p, t := Others(ttl, s, script.complete.meanwhile), Next(ttl, s, r, script);
    if script.complete.fails || (q.slot in p.table && p.table[q.slot].id != r) {
      assert t == Put(p, r, q, Releasing(true), p.table);
      GivesBack(ttl, t, r, q, true, script);
    } else {
      AnsweredStays(ttl, t, r, script);
    }
  }

  lemma Handles(ttl: nat, s: State, r: nat, q: Request, script: Script)
    requires StandsAt(s, r, q, Running) && ForeignScript(script, r)
    ensures Play(ttl, s, r, script, false) == Handled(ttl, s, r, q, script)
  {
    OthersKeep(ttl, s, script.handling, r);
    PlayStep(ttl, s, r, script, false);
    var o, t := Others(ttl, s, script.handling), Next(ttl, s, r, script);
    if script.handler.None? {
      assert t == Put(o, r, q, Releasing(false), o.table);
      GivesBack(ttl, t, r, q, false, script);
    } else {
      assert t == Put(o, r, q, Completing(script.handler.value), o.table);
      Stores(ttl, t, r, q, script.handler.value, script);
    }
  }

  lemma Claims(ttl: nat, s: State, r: nat, q: Request, script: Script)
    requires StandsAt(s, r, q, Inserting) && ForeignScript(script, r)
    ensures Play(ttl, s, r, script, false) == Claimed(ttl, s, r, q, script)
  {
    NextTurn(ttl, s, r, q, Inserting, script);
    var o, t := Others(ttl, s, script.insert.meanwhile), Next(ttl, s, r, script);
    if script.insert.fails || q.slot in o.table {
      AnsweredStays(ttl, t, r, script);
    } else {
      Handles(ttl, t, r, q, script);
    }
  }

  lemma Drops(ttl: nat, s: State, r: nat, q: Request, id: nat, script: Script)
    requires StandsAt(s, r, q, DroppingExpired(id)) && ForeignScript(script, r)
    ensures var d := Others(ttl, s, script.drop.meanwhile);
            Play(ttl, s, r, script, false) ==
            if script.drop.fails then Answer(d, r, q, DatabaseFailed)
            else
              var rest := map slot | slot in d.table && d.table[slot].id != id :: d.table[slot];
              Claimed(ttl, Put(d, r, q, Inserting, rest), r, q, script)
  {
    NextTurn(ttl, s, r, q, DroppingExpired(id), script);
    var d, t := Others(ttl, s, script.drop.meanwhile), Next(ttl, s, r, script);
    if script.drop.fails {
      AnsweredStays(ttl, t, r, script);
    } else {
      Claims(ttl, t, r, q, script);
    }
  }

  lemma LooksUp(ttl: nat, s: State, r: nat, q: Request, script: Script)
    requires StandsAt(s, r, q, Finding) && ForeignScript(script, r)
    ensures Play(ttl, s, r, script, false) == LookedUp(ttl, s, r, q, script)
  {
    NextTurn(ttl, s, r, q, Finding, script);
    var o, t := Others(ttl, s, script.find.meanwhile), Next(ttl, s, r, script);
    if !script.find.fails && q.slot !in o.table {
      Claims(ttl, t, r, q, script);
    } else if !script.find.fails && o.table[q.slot].expiresAt <= q.now {
      Drops(ttl, t, r, q, o.table[q.slot].id, script);
    } else {
      AnsweredStays(ttl, t, r, script);
    }
  }

  lemma Purges(ttl: nat, s: State, r: nat, q: Request, script: Script)
    requires StandsAt(s, r, q, Purging) && ForeignScript(script, r)
    ensures var o := Others(ttl, s, script.purge.meanwhile);
            Play(ttl, s, r, script, false) ==
            if script.purge.fails then Answer(o, r, q, DatabaseFailed)
            else
              var rest := map slot | slot in o.table && !(o.table[slot].expiresAt < q.now) :: o.table[slot];
              LookedUp(ttl, Put(o, r, q, Finding, rest), r, q, script)
  {
    hide LookedUp;
    NextTurn(ttl, s, r, q, Purging, script);
    var o, t := Others(ttl, s, script.purge.meanwhile), Next(ttl, s, r, script);
    if script.purge.fails {
      AnsweredStays(ttl, t, r, script);
    } else {
      assert t.table == map slot | slot in o.table && !(o.table[slot].expiresAt < q.now) :: o.table[slot];
      LooksUp(ttl, t, r, q, script);
    }
  }

  /** A request of the machine ends exactly as told above: the same table, the same answer. */
  lemma InterceptAnswers(ttl: nat, s: State, r: nat, inst: nat, slot: Slot, hash: string, script: Script)
    requires r !in s.requests && ForeignScript(script, r)
    ensures Play(ttl, Arrived(s, r, inst, slot, hash), r, script, false)
         == Intercepted(ttl, s, r, inst, slot, hash, script)
  {
    var q, a := Request(slot, hash, s.clock, Finding), Arrived(s, r, inst, slot, hash);
    hide LookedUp, Others, Play;
    if a.requests[r].phase.Finding? {
      assert a == Put(s, r, q, Finding, s.table);
      LooksUp(ttl, a, r, q, script);
    } else {
      assert a == Put(s, r, q, Purging, s.table).(lastPurgeAt := s.lastPurgeAt[inst := s.clock]);
      Purges(ttl, a, r, q, script);
    }
  }
}
