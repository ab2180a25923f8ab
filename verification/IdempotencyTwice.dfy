/**
 When a handler can succeed a second time: a request whose handler succeeded holds its key until its
 record expires only if its response is stored. The condition under which some continuation of a run
 lets another request with the same key succeed before that expiry is given exactly.
 */
module IdempotencyTwice {
  import opened Base
  import opened Idempotency

  predicate IsInsertion(s: State, i: nat) {
    i < |s.insertions| && s.insertions[i].id in s.requests
  }

  /** The request that made the insertion. */
  function Owner(s: State, i: nat): Request
    requires IsInsertion(s, i)
  {
    s.requests[s.insertions[i].id]
  }

  /** When the record of the insertion expires. */
  function Expiry(ttl: nat, s: State, i: nat): nat
    requires IsInsertion(s, i)
  {
    Owner(s, i).now + ttl
  }

  /** A later insertion on the same key, made before the earlier one's expiry. */
  predicate FollowsEarly(ttl: nat, s: State, i: nat, j: nat) {
    && i < j && IsInsertion(s, i) && IsInsertion(s, j)
    && Owner(s, j).slot == Owner(s, i).slot && s.insertions[j].at < Expiry(ttl, s, i)
  }

  /** The handler ran to success for a later insertion as well, begun before the earlier expiry. */
  ghost predicate SecondSuccess(ttl: nat, s: State, i: nat) {
    exists j: nat :: FollowsEarly(ttl, s, i, j) && HandlerSucceeded(Owner(s, j).phase)
  }

  predicate InPlay(phase: Phase) {
    phase.Running? || HandlerSucceeded(phase)
  }

  /** A later request has begun in time, and has succeeded or still runs. */
  ghost predicate LaterRunInPlay(ttl: nat, s: State, i: nat) {
    exists j: nat :: FollowsEarly(ttl, s, i, j) && InPlay(Owner(s, j).phase)
  }

  /** The key is held past the expiry by a record that its request could not delete when it gave up. */
  predicate KeyIsBlocked(ttl: nat, s: State, i: nat)
    requires IsInsertion(s, i)
  {
    var slot := Owner(s, i).slot;
    && slot in s.table && s.table[slot].id in s.requests && GaveUp(s.requests[s.table[slot].id].phase)
    && s.table[slot].expiresAt >= Expiry(ttl, s, i)
  }

  /** What decides: the write of the response, the clock, and what the key holds. */
  ghost predicate CanSucceedAgain(ttl: nat, s: State, i: nat)
    requires IsInsertion(s, i)
  {
    match Owner(s, i).phase
    case Answered(outcome) =>
      && outcome.CompletionFailed?
      && (LaterRunInPlay(ttl, s, i) || (s.clock < Expiry(ttl, s, i) && !KeyIsBlocked(ttl, s, i)))
    case _ => s.clock < Expiry(ttl, s, i)
  }

  // ---------------------------------------------------------------------------------------------
  // Why not: no step brings hope back
  // ---------------------------------------------------------------------------------------------

  ghost predicate Hopeless(ttl: nat, s: State, i: nat) {
    && IsInsertion(s, i) && HandlerSucceeded(Owner(s, i).phase)
    && !LaterRunInPlay(ttl, s, i)
    && (|| (Owner(s, i).phase.Answered? && Owner(s, i).phase.outcome.Completed?)
        || s.clock >= Expiry(ttl, s, i)
        || KeyIsBlocked(ttl, s, i))
  }

  lemma StepKeepsInsertion(ttl: nat, s: State, e: Event, i: nat)
    requires IsInsertion(s, i)
    ensures var t := Step(ttl, s, e);
            && IsInsertion(t, i) && t.insertions[i] == s.insertions[i] && s.insertions <= t.insertions
            && Owner(t, i).slot == Owner(s, i).slot && Owner(t, i).now == Owner(s, i).now
            && t.clock >= s.clock
  {
  }

  lemma StepKeepsSuccess(ttl: nat, s: State, e: Event, r: nat)
    requires r in s.requests && HandlerSucceeded(s.requests[r].phase)
    ensures r in Step(ttl, s, e).requests && HandlerSucceeded(Step(ttl, s, e).requests[r].phase)
    ensures s.requests[r].phase.Answered? ==> Step(ttl, s, e).requests[r].phase == s.requests[r].phase
  {
    if !Moves(e, r) {
      UnmovedStays(ttl, s, e, r);
    }
  }

  /** A logged request that is out of play stays out of play. */
  lemma StepKeepsOutOfPlay(ttl: nat, s: State, e: Event, r: nat)
    requires r in s.requests && !InPlay(s.requests[r].phase)
    requires HoldsKey(s.requests[r].phase) || GaveUp(s.requests[r].phase)
    ensures r in Step(ttl, s, e).requests && !InPlay(Step(ttl, s, e).requests[r].phase)
  {
    if !Moves(e, r) {
      UnmovedStays(ttl, s, e, r);
    }
  }

  lemma NewInsertion(ttl: nat, s: State, e: Event)
    requires |Step(ttl, s, e).insertions| > |s.insertions|
    ensures var t := Step(ttl, s, e);
            && |t.insertions| == |s.insertions| + 1 && t.insertions[|s.insertions|].at == s.clock
            && t.insertions[|s.insertions|].id in s.requests
            && s.requests[t.insertions[|s.insertions|].id].slot !in s.table
            && IsInsertion(t, |s.insertions|)
            && Owner(t, |s.insertions|).slot == s.requests[t.insertions[|s.insertions|].id].slot
  {
  }

  /** A record left behind stays until it has expired. */
  lemma StepKeepsBlock(ttl: nat, s: State, e: Event, i: nat)
    requires Inv(ttl, s) && IsInsertion(s, i) && KeyIsBlocked(ttl, s, i) && s.clock < Expiry(ttl, s, i)
    ensures var t := Step(ttl, s, e); IsInsertion(t, i) && KeyIsBlocked(ttl, t, i)
  {
    var slot := Owner(s, i).slot;
    var owner := s.table[slot].id;
    StepKeepsInsertion(ttl, s, e, i);
    AnswerStays(ttl, s, e, owner);
    assert RecordIsOwned(ttl, s, slot);
    if e.Act? && e.request in s.requests {
      assert RequestIsSound(ttl, s, e.request);
      RecordStays(ttl, s, e.request, slot, e.action);
    }
  }

  lemma RecordStays(ttl: nat, s: State, r: nat, slot: Slot, action: Action)
    requires Inv(ttl, s) && slot in s.table && r in s.requests && s.table[slot].id in s.requests
    requires GaveUp(s.requests[s.table[slot].id].phase) && s.table[slot].expiresAt > s.clock
    ensures var t := Step(ttl, s, Act(r, action)); slot in t.table && t.table[slot] == s.table[slot]
  {
    assert RequestIsSound(ttl, s, r) && RecordIsOwned(ttl, s, slot);
  }

  lemma StepKeepsHopeless(ttl: nat, s: State, e: Event, i: nat)
    requires Inv(ttl, s) && Inv(ttl, Step(ttl, s, e)) && Hopeless(ttl, s, i)
    ensures Hopeless(ttl, Step(ttl, s, e), i)
  {
    hide Step;
    var t := Step(ttl, s, e);
    StepKeepsInsertion(ttl, s, e, i);
    StepKeepsSuccess(ttl, s, e, s.insertions[i].id);
    if s.clock < Expiry(ttl, s, i) && KeyIsBlocked(ttl, s, i) {
      StepKeepsBlock(ttl, s, e, i);
    }
    forall j: nat | FollowsEarly(ttl, t, i, j)
      ensures !InPlay(Owner(t, j).phase)
    {
      if j < |s.insertions| {
        assert IsInsertion(s, j);
        StepKeepsInsertion(ttl, s, e, j);
        assert FollowsEarly(ttl, s, i, j);
        StepKeepsOutOfPlay(ttl, s, e, s.insertions[j].id);
      } else {
        NewInsertion(ttl, s, e);
        NoEarlyInsertion(ttl, s, e, i);
      }
    }
  }

  /** In a hopeless state nobody takes the key before the expiry. */
  lemma NoEarlyInsertion(ttl: nat, s: State, e: Event, i: nat)
    requires Inv(ttl, s) && Inv(ttl, Step(ttl, s, e)) && Hopeless(ttl, s, i)
    requires |Step(ttl, s, e).insertions| > |s.insertions|
    ensures !FollowsEarly(ttl, Step(ttl, s, e), i, |s.insertions|)
  {
    var t, n := Step(ttl, s, e), |s.insertions|;
    NewInsertion(ttl, s, e);
    StepKeepsInsertion(ttl, s, e, i);
    StepKeepsSuccess(ttl, s, e, s.insertions[i].id);
  }

  lemma {:induction false} HopelessStays(ttl: nat, es: seq<Event>, more: seq<Event>, i: nat)
    requires Hopeless(ttl, Run(ttl, es), i)
    ensures Hopeless(ttl, Run(ttl, es + more), i)
    decreases |more|
  {
    if |more| == 0 {
      assert es + more == es;
    } else {
      var front, e := more[..|more| - 1], more[|more| - 1];
      HopelessStays(ttl, es, front, i);
      RunSnoc(ttl, es + front, e);
      assert es + more == es + front + [e];
      RunKeepsInv(ttl, es + front);
      RunKeepsInv(ttl, es + more);
      StepKeepsHopeless(ttl, Run(ttl, es + front), e, i);
    }
  }

  /** Before the request has given up, no later insertion comes before its expiry. */
  lemma NoneFollowsAHolder(ttl: nat, s: State, i: nat)
    requires Inv(ttl, s) && IsInsertion(s, i) && !GaveUp(Owner(s, i).phase)
    ensures forall j: nat :: !FollowsEarly(ttl, s, i, j)
  {
  }

  // ---------------------------------------------------------------------------------------------
  // How: a continuation that succeeds
  // ---------------------------------------------------------------------------------------------

  lemma {:induction false} AboveAll(ids: set<nat>) returns (r: nat)
    ensures forall id | id in ids :: id < r
    decreases |ids|
  {
    if ids == {} {
      r := 0;
    } else {
      var id :| id in ids;
      var rest := AboveAll(ids - {id});
      r := if rest > id then rest else id + 1;
      forall other | other in ids
        ensures other < r
      {
        assert other == id || other in ids - {id};
      }
    }
  }

  /** The request's next statements lead it to its insertion. */
  predicate CanClaim(s: State, r: nat) {
    && r in s.requests
    && var request := s.requests[r];
       match request.phase
       case Inserting => request.slot !in s.table
       case DroppingExpired(id) => request.slot in s.table ==> s.table[request.slot].id == id
       case Finding => request.slot in s.table ==> s.table[request.slot].expiresAt <= request.now
       case Purging => request.slot in s.table ==> s.table[request.slot].expiresAt <= request.now
       case _ => false
  }

  function Distance(phase: Phase): nat {
    match phase
    case Purging => 3
    case Finding => 2
    case DroppingExpired(_) => 1
    case _ => 0
  }

  /** Only this request moved; the insertions grew by `log`. */
  ghost predicate OnlyMoved(s: State, t: State, r: nat, log: seq<Insertion>) {
    && r in s.requests && t.requests.Keys == s.requests.Keys && t.clock == s.clock && t.insertions == s.insertions + log
    && (forall q | q in s.requests && q != r :: t.requests[q] == s.requests[q])
    && t.requests[r] == s.requests[r].(phase := t.requests[r].phase)
  }

  lemma ClaimStep(ttl: nat, s: State, r: nat)
    requires CanClaim(s, r) && !s.requests[r].phase.Inserting?
    ensures var t := Step(ttl, s, Act(r, Statement));
            CanClaim(t, r) && OnlyMoved(s, t, r, []) && Distance(t.requests[r].phase) < Distance(s.requests[r].phase)
  {
  }

  lemma {:induction false} Claim(ttl: nat, es: seq<Event>, r: nat) returns (longer: seq<Event>)
    requires CanClaim(Run(ttl, es), r)
    ensures es <= longer
    ensures var s, t := Run(ttl, es), Run(ttl, longer);
            OnlyMoved(s, t, r, [Insertion(r, s.clock)]) && t.requests[r].phase.Running?
    decreases Distance(Run(ttl, es).requests[r].phase)
  {
    var s := Run(ttl, es);
    longer := es + [Act(r, Statement)];
    RunSnoc(ttl, es, Act(r, Statement));
    if !s.requests[r].phase.Inserting? {
      ClaimStep(ttl, s, r);
      longer := Claim(ttl, longer, r);
    }
  }

  /** The key is free, or its record has expired. */
  predicate IsVacant(s: State, slot: Slot) {
    slot in s.table ==> s.table[slot].expiresAt <= s.clock
  }

  lemma SucceedOnVacantKey(ttl: nat, es: seq<Event>, i: nat) returns (longer: seq<Event>)
    requires var s := Run(ttl, es);
             IsInsertion(s, i) && IsVacant(s, Owner(s, i).slot) && s.clock < Expiry(ttl, s, i)
    ensures es <= longer && SecondSuccess(ttl, Run(ttl, longer), i)
  {
    var s := Run(ttl, es);
    var r := AboveAll(s.requests.Keys);
    var arrive := Arrive(r, 0, Owner(s, i).slot, "");
    RunSnoc(ttl, es, arrive);
    longer := Claim(ttl, es + [arrive], r);
    var t := Run(ttl, longer);
    RunSnoc(ttl, longer, Act(r, HandlerReturns("")));
    longer := longer + [Act(r, HandlerReturns(""))];
    var u := Run(ttl, longer);
    assert u.insertions == s.insertions + [Insertion(r, s.clock)];
    assert FollowsEarly(ttl, u, i, |s.insertions|);
  }

  /** The later run that is in play succeeds. */
  lemma LaterRunSucceeds(ttl: nat, es: seq<Event>, i: nat) returns (longer: seq<Event>)
    requires LaterRunInPlay(ttl, Run(ttl, es), i)
    ensures es <= longer && SecondSuccess(ttl, Run(ttl, longer), i)
  {
    var s := Run(ttl, es);
    var j: nat :| FollowsEarly(ttl, s, i, j) && InPlay(Owner(s, j).phase);
    var r := s.insertions[j].id;
    var e := Act(r, HandlerReturns(""));
    longer := if Owner(s, j).phase.Running? then es + [e] else es;
    RunSnoc(ttl, es, e);
    var t := Run(ttl, longer);
    assert FollowsEarly(ttl, t, i, j) && HandlerSucceeded(Owner(t, j).phase);
  }

  /** The request itself fails to store its response and gives its key back. */
  lemma SucceedAfterGivingUp(ttl: nat, es: seq<Event>, i: nat) returns (longer: seq<Event>)
    requires var s := Run(ttl, es);
             && IsInsertion(s, i) && s.clock < Expiry(ttl, s, i)
             && (Owner(s, i).phase.Completing? || Owner(s, i).phase.Releasing?)
    ensures es <= longer && SecondSuccess(ttl, Run(ttl, longer), i)
  {
    var s := Run(ttl, es);
    RunKeepsInv(ttl, es);
    var r := s.insertions[i].id;
    assert KeyIsGuarded(ttl, s, r);
    RunSnoc(ttl, es, Act(r, StatementFails));
    longer := if Owner(s, i).phase.Completing? then es + [Act(r, StatementFails)] else es;
    RunSnoc(ttl, longer, Act(r, Statement));
    longer := longer + [Act(r, Statement)];
    longer := SucceedOnVacantKey(ttl, longer, i);
  }

  /** A live record of a request that still holds the key is that of a later insertion. */
  lemma HolderIsLater(ttl: nat, es: seq<Event>, i: nat) returns (j: nat)
    requires var s := Run(ttl, es);
             && IsInsertion(s, i) && GaveUp(Owner(s, i).phase) && Owner(s, i).slot in s.table
             && var record := s.table[Owner(s, i).slot];
                record.expiresAt > s.clock && record.id in s.requests && HoldsKey(s.requests[record.id].phase)
    ensures var s := Run(ttl, es);
            && i < j && IsInsertion(s, j) && s.insertions[j].id == s.table[Owner(s, i).slot].id
            && Owner(s, j).slot == Owner(s, i).slot && s.insertions[j].at <= s.clock
  {
    var s := Run(ttl, es);
    RunKeepsInv(ttl, es);
    EveryRunIsLogged(ttl, es);
    var slot := Owner(s, i).slot;
    assert RecordIsOwned(ttl, s, slot);
    var holder := s.table[slot].id;
    assert IsLogged(s, holder);
    j :| 0 <= j < |s.insertions| && s.insertions[j].id == holder;
  }

  /** The key is not vacant and not blocked: its record expires in time, or its request lets it go. */
  lemma SucceedAfterAnother(ttl: nat, es: seq<Event>, i: nat) returns (longer: seq<Event>)
    requires var s := Run(ttl, es);
             && IsInsertion(s, i) && Owner(s, i).phase == Answered(CompletionFailed) && s.clock < Expiry(ttl, s, i)
             && !IsVacant(s, Owner(s, i).slot) && !KeyIsBlocked(ttl, s, i)
    ensures es <= longer && SecondSuccess(ttl, Run(ttl, longer), i)
  {
    var s := Run(ttl, es);
    RunKeepsInv(ttl, es);
    var slot := Owner(s, i).slot;
    assert RecordIsOwned(ttl, s, slot);
    var record := s.table[slot];
    if GaveUp(s.requests[record.id].phase) {
      var tick := Tick(record.expiresAt - s.clock);
      RunSnoc(ttl, es, tick);
      longer := SucceedOnVacantKey(ttl, es + [tick], i);
    } else {
      var j := HolderIsLater(ttl, es, i);
      if s.requests[record.id].phase == Releasing(false) {
        RunSnoc(ttl, es, Act(record.id, Statement));
        longer := SucceedOnVacantKey(ttl, es + [Act(record.id, Statement)], i);
      } else {
        assert FollowsEarly(ttl, s, i, j) && InPlay(Owner(s, j).phase);
        longer := LaterRunSucceeds(ttl, es, i);
      }
    }
  }

  lemma SucceedAgain(ttl: nat, es: seq<Event>, i: nat) returns (longer: seq<Event>)
    requires var s := Run(ttl, es);
             IsInsertion(s, i) && HandlerSucceeded(Owner(s, i).phase) && CanSucceedAgain(ttl, s, i)
    ensures es <= longer && SecondSuccess(ttl, Run(ttl, longer), i)
  {
    var s := Run(ttl, es);
    if !Owner(s, i).phase.Answered? {
      longer := SucceedAfterGivingUp(ttl, es, i);
    } else if LaterRunInPlay(ttl, s, i) {
      longer := LaterRunSucceeds(ttl, es, i);
    } else if IsVacant(s, Owner(s, i).slot) {
      longer := SucceedOnVacantKey(ttl, es, i);
    } else {
      longer := SucceedAfterAnother(ttl, es, i);
    }
  }

  /**
   After a handler's success some continuation lets the handler succeed once more for the same key,
   begun before the first record's expiry, exactly under this condition. While the response is being
   stored or the key given back: the clock is before the expiry. Once it is stored: never. Once the
   write has failed: another run is in play already, or the clock is before the expiry and the key is
   not blocked by a record that a failed deletion left behind.
   */
  lemma SecondSuccessIff(ttl: nat, es: seq<Event>, i: nat)
    requires IsInsertion(Run(ttl, es), i) && HandlerSucceeded(Owner(Run(ttl, es), i).phase)
    ensures (exists more :: SecondSuccess(ttl, Run(ttl, es + more), i)) <==> CanSucceedAgain(ttl, Run(ttl, es), i)
  {
    var s := Run(ttl, es);
    RunKeepsInv(ttl, es);
    if CanSucceedAgain(ttl, s, i) {
      var longer := SucceedAgain(ttl, es, i);
      assert es + longer[|es|..] == longer;
    } else {
      if Owner(s, i).phase != Answered(CompletionFailed) {
        NoneFollowsAHolder(ttl, s, i);
      }
      assert Hopeless(ttl, s, i);
      forall more
        ensures !SecondSuccess(ttl, Run(ttl, es + more), i)
      {
        HopelessStays(ttl, es, more, i);
      }
    }
  }
}
