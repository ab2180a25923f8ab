/**
 What a refund makes of its escrow, await by await: the row it finds or writes, the close it sends, what
 it records, and what the caller is told. The machine's own steps appear here only as what happens in
 between.
 */
module RefundAnswer {
  import opened Base
  import opened Refunds
  import opened RefundsService
  import opened Sessions

  function Put(s: State, c: nat, phase: Phase): State {
    s.(calls := s.calls[c := phase])
  }

  function Thrown(s: State, c: nat): (State, Outcome) {
    (Put(s, c, Phase.Threw), Outcome.Threw)
  }

  /** The outcome goes to the row; only a close that was seen to succeed marks the session refunded. */
  function Saved(s: State, c: nat, closed: bool, script: Script): (State, Outcome) {
    var o := Others(s, script.save.meanwhile);
    if !script.save.succeeds then Thrown(o, c)
    else
      var status := if closed then COMPLETED else FAILED;
      var row := if o.row.None? then None else Some(o.row.value.(status := status));
      if !closed then (Put(o, c, Done(FAILED)).(row := row), Refunded(FAILED))
      else
        var m := Others(Put(o, c, Marking).(row := row), script.mark.meanwhile);
        if script.mark.succeeds then (Put(m, c, Done(COMPLETED)).(refundedAt := true), Refunded(COMPLETED))
        else Thrown(m, c)
  }

  /** emergencyClose is sent and waited for. */
  function Executed(s: State, c: nat, script: Script): (State, Outcome) {
    var o := Others(s, script.send.meanwhile);
    if !script.send.succeeds then Saved(Put(o, c, Saving(false)), c, false, script)
    else
      var w := Others(Put(o, c, Waiting).(txs := o.txs[c := Pending]), script.wait.meanwhile);
      var closed := script.wait.succeeds && c in w.txs && w.txs[c] == Succeeded;
      Saved(Put(w, c, Saving(closed)), c, closed, script)
  }

  /** There was no row: what is left of the deposit goes into a new one, unless another call was first. */
  function Created(s: State, c: nat, script: Script): (State, Outcome) {
    var m := Others(s, script.sum.meanwhile);
    if !script.sum.succeeds then Thrown(m, c)
    else
      var spent := m.ledgerSpent;
      var i := Others(Put(m, c, Inserting(spent)), script.insert.meanwhile);
      if !script.insert.succeeds then Thrown(i, c)
      else if i.row.None? then
        var row := Row(i.deposit, spent, Max(i.deposit - spent, 0), PENDING);
        Executed(Put(i, c, Sending).(row := Some(row)), c, script)
      else
        var r := Others(Put(i, c, Refetching), script.refetch.meanwhile);
        if script.refetch.succeeds then Executed(Put(r, c, Sending), c, script) else Thrown(r, c)
  }

  /** The row decides: none yet, a completed refund, or one to try. */
  function LookedUp(s: State, c: nat, script: Script): (State, Outcome) {
    var o := Others(s, script.look.meanwhile);
    if !script.look.succeeds then Thrown(o, c)
    else if o.row.None? then Created(Put(o, c, Summing), c, script)
    else if o.row.value.status == COMPLETED then (Put(o, c, Done(COMPLETED)), Refunded(COMPLETED))
    else Executed(Put(o, c, Sending), c, script)
  }

  /** A whole refund: a conflict unless the session is expired or cancelled when it is read. */
  function Answered(s: State, c: nat, script: Script): (State, Outcome) {
    var o := Others(Put(s, c, Finding), script.find.meanwhile);
    if !script.find.succeeds then Thrown(o, c)
    else if o.status != Expired && o.status != Cancelled then (Put(o, c, NotRefundable), Conflict)
    else LookedUp(Put(o, c, Looking), c, script)
  }

  // ---------------------------------------------------------------------------------------------
  // The machine does exactly this
  // ---------------------------------------------------------------------------------------------

  predicate StandsAt(s: State, c: nat, phase: Phase) {
    c in s.calls && s.calls[c] == phase
  }

  /** The call ends in this state, with this answer. */
  ghost predicate EndsAs(s: State, c: nat, script: Script, end: (State, Outcome))
    requires c in s.calls && ForeignScript(script, c)
  {
    Play(s, c, script) == end.0 && OutcomeOf(Play(s, c, script).calls[c]) == end.1
  }

  /** The step of the next turn, and that the rest of the call is played from there. */
  lemma NextTurn(s: State, c: nat, phase: Phase, script: Script) returns (o: State, t: State)
    requires StandsAt(s, c, phase) && ForeignScript(script, c) && !Ended(phase)
    ensures o == Others(s, AwaitAt(script, phase).meanwhile) && StandsAt(o, c, phase)
    ensures t == Advanced(o, c, Answers(o, c, AwaitAt(script, phase))) && c in t.calls
    ensures forall end :: EndsAs(t, c, script, end) ==> EndsAs(s, c, script, end)
  {
    OthersKeep(s, AwaitAt(script, phase).meanwhile, c);
    PlayStep(s, c, script);
    o := Others(s, AwaitAt(script, phase).meanwhile);
    t := Next(s, c, AwaitAt(script, phase));
  }

  lemma EndsHere(s: State, c: nat, script: Script)
    requires c in s.calls && ForeignScript(script, c) && Ended(s.calls[c])
    ensures EndsAs(s, c, script, (s, OutcomeOf(s.calls[c])))
  {
  }

  lemma Marks(s: State, c: nat, script: Script)
    requires StandsAt(s, c, Marking) && ForeignScript(script, c)
    ensures var m := Others(s, script.mark.meanwhile);
            EndsAs(s, c, script,
                   if script.mark.succeeds then (Put(m, c, Done(COMPLETED)).(refundedAt := true), Refunded(COMPLETED))
                   else Thrown(m, c))
  {
    var o, t := NextTurn(s, c, Marking, script);
    EndsHere(t, c, script);
  }

  lemma Saves(s: State, c: nat, closed: bool, script: Script)
    requires StandsAt(s, c, Saving(closed)) && ForeignScript(script, c)
    ensures EndsAs(s, c, script, Saved(s, c, closed, script))
  {
    var o, t := NextTurn(s, c, Saving(closed), script);
    if script.save.succeeds && closed {
      Marks(t, c, script);
    } else {
      EndsHere(t, c, script);
    }
  }

  lemma Waits(s: State, c: nat, script: Script)
    requires StandsAt(s, c, Waiting) && ForeignScript(script, c)
    ensures var w := Others(s, script.wait.meanwhile);
            var closed := script.wait.succeeds && c in w.txs && w.txs[c] == Succeeded;
            EndsAs(s, c, script, Saved(Put(w, c, Saving(closed)), c, closed, script))
  {
    var w, t := NextTurn(s, c, Waiting, script);
    Saves(t, c, script.wait.succeeds && c in w.txs && w.txs[c] == Succeeded, script);
  }

  lemma Executes(s: State, c: nat, script: Script)
    requires StandsAt(s, c, Sending) && ForeignScript(script, c)
    ensures EndsAs(s, c, script, Executed(s, c, script))
  {
    var o, t := NextTurn(s, c, Sending, script);
    if script.send.succeeds {
      Waits(t, c, script);
    } else {
      Saves(t, c, false, script);
    }
  }

  lemma Refetches(s: State, c: nat, script: Script)
    requires StandsAt(s, c, Refetching) && ForeignScript(script, c)
    ensures var r := Others(s, script.refetch.meanwhile);
            EndsAs(s, c, script,
                   if script.refetch.succeeds then Executed(Put(r, c, Sending), c, script) else Thrown(r, c))
  {
    var r, t := NextTurn(s, c, Refetching, script);
    if script.refetch.succeeds {
      Executes(t, c, script);
    } else {
      EndsHere(t, c, script);
    }
  }

  lemma Inserts(s: State, c: nat, spent: nat, script: Script)
    requires StandsAt(s, c, Inserting(spent)) && ForeignScript(script, c)
    ensures var i := Others(s, script.insert.meanwhile);
            EndsAs(s, c, script,
                   if !script.insert.succeeds then Thrown(i, c)
                   else if i.row.None? then
                     var row := Row(i.deposit, spent, Max(i.deposit - spent, 0), PENDING);
                     Executed(Put(i, c, Sending).(row := Some(row)), c, script)
                   else
                     var r := Others(Put(i, c, Refetching), script.refetch.meanwhile);
                     if script.refetch.succeeds then Executed(Put(r, c, Sending), c, script) else Thrown(r, c))
  {
    var i, t := NextTurn(s, c, Inserting(spent), script);
    if !script.insert.succeeds {
      EndsHere(t, c, script);
    } else if i.row.None? {
      Executes(t, c, script);
    } else {
      Refetches(t, c, script);
    }
  }

  lemma Creates(s: State, c: nat, script: Script)
    requires StandsAt(s, c, Summing) && ForeignScript(script, c)
    ensures EndsAs(s, c, script, Created(s, c, script))
  {
    var m, t := NextTurn(s, c, Summing, script);
    if script.sum.succeeds {
      Inserts(t, c, m.ledgerSpent, script);
    } else {
      EndsHere(t, c, script);
    }
  }

  lemma LooksUp(s: State, c: nat, script: Script)
    requires StandsAt(s, c, Looking) && ForeignScript(script, c)
    ensures EndsAs(s, c, script, LookedUp(s, c, script))
  {
    var o, t := NextTurn(s, c, Looking, script);
    if !script.look.succeeds || (o.row.Some? && o.row.value.status == COMPLETED) {
      EndsHere(t, c, script);
    } else if o.row.None? {
      Creates(t, c, script);
    } else {
      Executes(t, c, script);
    }
  }

  /** A refund of the machine ends exactly as told above: the same escrow, the same answer. */
  lemma RefundAnswers(s: State, c: nat, script: Script)
    requires c !in s.calls && ForeignScript(script, c)
    ensures var end := Play(MoveTo(s, c, Finding), c, script);
            (end, OutcomeOf(end.calls[c])) == Answered(s, c, script)
  {
    var o, t := NextTurn(MoveTo(s, c, Finding), c, Finding, script);
    if script.find.succeeds && (o.status == Expired || o.status == Cancelled) {
      LooksUp(t, c, script);
    } else {
      EndsHere(t, c, script);
    }
    assert EndsAs(MoveTo(s, c, Finding), c, script, Answered(s, c, script));
  }
}
