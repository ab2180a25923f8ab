/**
 Refunds of one escrow: any number of requests and sweeps create the one refund row, send
 emergencyClose and record how it went, while the ledger, the session and the contract move.
 */
module Refunds {
  import opened Base
  import opened Sessions
  import EscrowHub
  import HubContract

  datatype RefundStatus = PENDING | COMPLETED | FAILED

  /** The refund row; the unique index on the escrow allows one. */
  datatype Row = Row(deposit: nat, spent: nat, refund: nat, status: RefundStatus)

  /** The escrow as the contract has it, and what emergencyClose calls did. */
  datatype Hub = Hub(deposit: nat, spent: nat, active: bool, closes: nat, refunded: nat)

  datatype Tx = Pending | Succeeded | Reverted

  datatype Phase =
    | Finding
    | Looking
    | Summing
    | Inserting(spent: nat)
    | Refetching
    | Sending
    | Waiting
    | Saving(closed: bool)
    | Marking
    | Done(status: RefundStatus)
    | NotRefundable
    | Threw

  datatype State = State(
    status: SessionStatus, deposit: nat, ledgerSpent: nat, row: Option<Row>, refundedAt: bool, hub: Hub,
    calls: map<nat, Phase>, txs: map<nat, Tx>)

  datatype Event =
    | Request(call: nat)
    | Advance(call: nat, succeeds: bool)
    | Mine(call: nat, payerAccepts: bool)
    | Drop(call: nat)
    | HubSpends(amount: nat)
    | HubClosedByPayer
    | LedgerSpends(amount: nat)
    | StatusBecomes(status: SessionStatus)

  predicate IsRefundable(status: SessionStatus) {
    status.Expired? || status.Cancelled?
  }

  /** The row `create` saves. */
  function NewRow(deposit: nat, spent: nat): Row {
    Row(deposit, spent, if spent > deposit then 0 else deposit - spent, PENDING)
  }

  /**
   emergencyClose on the contract: closes an active escrow and pays back what is left of it. It reverts on
   any other escrow, and when something is left that the payer does not accept.
   */
  function EmergencyClosed(hub: Hub, payerAccepts: bool): Hub {
    if hub.active && hub.spent <= hub.deposit && (payerAccepts || hub.spent == hub.deposit)
    then hub.(active := false, closes := hub.closes + 1, refunded := hub.refunded + (hub.deposit - hub.spent))
    else hub
  }

  function MoveTo(s: State, c: nat, phase: Phase): State {
    s.(calls := s.calls[c := phase])
  }

  function WithStatus(row: Option<Row>, status: RefundStatus): Option<Row> {
    if row.None? then None else Some(row.value.(status := status))
  }

  /** The next step of a call; `succeeds` is how its query, transaction or wait ends. */
  function Advanced(s: State, c: nat, succeeds: bool): State
    requires c in s.calls
  {
    match s.calls[c]
    case Finding =>
      MoveTo(s, c, if !succeeds then Threw else if IsRefundable(s.status) then Looking else NotRefundable)
    case Looking =>
      MoveTo(s, c, if !succeeds then Threw
                   else if s.row.None? then Summing
                   else if s.row.value.status.COMPLETED? then Done(COMPLETED)
                   else Sending)
    case Summing => MoveTo(s, c, if succeeds then Inserting(s.ledgerSpent) else Threw)
    case Inserting(spent) =>
      if !succeeds then MoveTo(s, c, Threw)
      else if s.row.None? then MoveTo(s, c, Sending).(row := Some(NewRow(s.deposit, spent)))
      else MoveTo(s, c, Refetching)
    case Refetching => MoveTo(s, c, if succeeds then Sending else Threw)
    case Sending =>
      if succeeds then MoveTo(s, c, Waiting).(txs := s.txs[c := Pending]) else MoveTo(s, c, Saving(false))
    case Waiting =>
      // a wait returns only for a transaction that succeeded; it may throw at any time
      if !succeeds then MoveTo(s, c, Saving(false))
      else if c in s.txs && s.txs[c].Succeeded? then MoveTo(s, c, Saving(true))
      else s
    case Saving(closed) =>
      if !succeeds then MoveTo(s, c, Threw)
      else
        var status := if closed then COMPLETED else FAILED;
        MoveTo(s, c, if closed then Marking else Done(FAILED)).(row := WithStatus(s.row, status))
    case Marking => if succeeds then MoveTo(s, c, Done(COMPLETED)).(refundedAt := true) else MoveTo(s, c, Threw)
    case _ => s
  }

  function Step(s: State, e: Event): State {
    match e
    case Request(c) => if c in s.calls then s else MoveTo(s, c, Finding)
    case Advance(c, succeeds) => if c in s.calls then Advanced(s, c, succeeds) else s
    case Mine(c, payerAccepts) =>
      if c in s.txs && s.txs[c].Pending? then
        var closed := EmergencyClosed(s.hub, payerAccepts);
        s.(hub := closed, txs := s.txs[c := if closed != s.hub then Succeeded else Reverted])
      else s
    case Drop(c) => if c in s.txs && s.txs[c].Pending? then s.(txs := s.txs[c := Reverted]) else s
    case HubSpends(amount) =>
      if s.hub.active && s.hub.spent + amount <= s.hub.deposit
      then s.(hub := s.hub.(spent := s.hub.spent + amount)) else s
    case HubClosedByPayer => s.(hub := s.hub.(active := false))
    case LedgerSpends(amount) => s.(ledgerSpent := s.ledgerSpent + amount)
    case StatusBecomes(status) => s.(status := status)
  }

  function Start(deposit: nat): State {
    State(Open, deposit, 0, None, false, Hub(deposit, 0, true, 0, 0), map[], map[])
  }

  function Run(deposit: nat, es: seq<Event>): State
    decreases |es|
  {
    if |es| == 0 then Start(deposit) else Step(Run(deposit, es[..|es| - 1]), es[|es| - 1])
  }

  lemma RunSnoc(deposit: nat, es: seq<Event>, e: Event)
    ensures Run(deposit, es + [e]) == Step(Run(deposit, es), e)
  {
    assert (es + [e])[..|es|] == es;
  }

  // ---------------------------------------------------------------------------------------------
  // The contract's own close
  // ---------------------------------------------------------------------------------------------

  function HubOf(s: EscrowHub.Session, closes: nat, refunded: nat): Hub {
    Hub(s.deposit, s.spent, s.active, closes, refunded)
  }

  /** Whatever the payer does when it is paid, the closed escrow stays as the payout left it. */
  lemma ClosedThroughCallbacks(owner: EscrowHub.Address, w: EscrowHub.World, id: EscrowHub.EscrowId,
      reply: HubContract.Reply)
    requires id in w.escrows && id in w.accounts && !w.escrows[id].active && w.escrows[id].createdAt != 0
    ensures var t := HubContract.PerformAll(owner, w, reply, |reply.calls|);
            && id in t.escrows && id in t.accounts
            && t.escrows[id] == w.escrows[id] && t.accounts[id] == w.accounts[id]
  {
    var n := |reply.calls|;
    HubContract.PerformAllIsRun(owner, w, reply, n, []);
    EscrowHub.ClosedIsFinal(owner, EscrowHub.State(w, []), id, HubContract.EventsOfAll(owner, w, reply, n));
  }

  /**
   On a solvent contract an emergencyClose, with everything the payer does when it is paid, its refusal
   included, does to the escrow what this model's step does, and succeeds exactly when that step closes.
   */
  lemma CloseIsTheContracts(owner: EscrowHub.Address, w: EscrowHub.World, id: EscrowHub.EscrowId,
      reply: HubContract.Reply, closes: nat)
    requires EscrowHub.Solvent(w) && id in w.escrows
    ensures var hub := HubOf(w.escrows[id], closes, w.accounts[id].refunded);
            var close := HubContract.Message(EscrowHub.EmergencyClose(owner, id), reply);
            var (t, succeeded) := HubContract.Perform(owner, w, close);
            && id in t.escrows && id in t.accounts
            && EmergencyClosed(hub, reply.accepts)
               == HubOf(t.escrows[id], closes + if succeeded then 1 else 0, t.accounts[id].refunded)
  {
    assert EscrowHub.Balanced(w.escrows[id], w.accounts[id]);
    var outcome := EscrowHub.Execute(owner, w, EscrowHub.EmergencyClose(owner, id));
    if w.escrows[id].active {
      EscrowHub.CloseIsSolvent(w, id);
      if outcome.Pays? {
        ClosedThroughCallbacks(owner, outcome.world, id, reply);
      }
    }
  }

  // ---------------------------------------------------------------------------------------------
  // The invariant
  // ---------------------------------------------------------------------------------------------

  predicate RowIsSound(row: Row) {
    row.refund + Min(row.spent, row.deposit) == row.deposit
  }

  predicate HubIsSound(hub: Hub) {
    && hub.spent <= hub.deposit && hub.closes <= 1
    && (hub.closes == 1 ==> !hub.active && hub.refunded + hub.spent == hub.deposit)
    && (hub.closes == 0 ==> hub.refunded == 0)
  }

  /** The phases only a call whose transaction succeeded reaches. */
  predicate Closed(phase: Phase) {
    phase == Saving(true) || phase.Marking?
  }

  /** The call may have a transaction. */
  predicate HasSent(phase: Phase) {
    phase.Waiting? || phase.Saving? || phase.Marking? || phase.Done? || phase.Threw?
  }

  predicate NeedsRow(phase: Phase) {
    phase.Refetching? || phase.Sending? || phase.Waiting? || phase.Saving?
  }

  ghost predicate Inv(s: State) {
    && HubIsSound(s.hub) && s.hub.deposit == s.deposit
    && (s.row.Some? ==> RowIsSound(s.row.value) && s.row.value.deposit == s.deposit)
    && (s.row.Some? && s.row.value.status.COMPLETED? ==> s.hub.closes == 1)
    && (s.refundedAt ==> s.hub.closes == 1)
    && (forall c | c in s.calls :: s.calls[c] == Done(COMPLETED) || Closed(s.calls[c]) ==> s.hub.closes == 1)
    && (forall c | c in s.txs :: s.txs[c].Succeeded? ==> s.hub.closes == 1)
    && (forall c, d | c in s.txs && d in s.txs && c != d :: !(s.txs[c].Succeeded? && s.txs[d].Succeeded?))
    && (forall c | c in s.txs :: c in s.calls && HasSent(s.calls[c]))
    && (forall c | c in s.calls :: NeedsRow(s.calls[c]) ==> s.row.Some?)
  }

  lemma StepKeepsInv(s: State, e: Event)
    requires Inv(s)
    ensures Inv(Step(s, e))
  {
    if e.Advance? && e.call in s.calls {
      AdvanceKeepsInv(s, e.call, e.succeeds);
    }
  }

  /** A call moves on without writing the row. */
  lemma MoveKeepsInv(s: State, c: nat, phase: Phase)
    requires Inv(s) && c in s.calls && (HasSent(s.calls[c]) ==> HasSent(phase))
    requires (Closed(phase) || phase == Done(COMPLETED) ==> s.hub.closes == 1) && (NeedsRow(phase) ==> s.row.Some?)
    ensures Inv(MoveTo(s, c, phase))
  {
  }

  /** Writing a sound row, completed only after a close, keeps the invariant. */
  lemma RowKeepsInv(s: State, row: Row)
    requires Inv(s) && RowIsSound(row) && row.deposit == s.deposit && (row.status.COMPLETED? ==> s.hub.closes == 1)
    ensures Inv(s.(row := Some(row)))
  {
  }

  lemma TxKeepsInv(s: State, c: nat)
    requires Inv(s) && c in s.calls && s.calls[c].Sending?
    ensures Inv(MoveTo(s, c, Waiting).(txs := s.txs[c := Pending]))
  {
  }

  lemma AdvanceKeepsInv(s: State, c: nat, succeeds: bool)
    requires Inv(s) && c in s.calls
    ensures Inv(Advanced(s, c, succeeds))
  {
    match s.calls[c]
    case Inserting(spent) =>
      if succeeds && s.row.None? {
        RowKeepsInv(s, NewRow(s.deposit, spent));
        MoveKeepsInv(s.(row := Some(NewRow(s.deposit, spent))), c, Sending);
      } else {
        MoveKeepsInv(s, c, if succeeds then Refetching else Threw);
      }
    case Sending =>
      if succeeds {
        TxKeepsInv(s, c);
      } else {
        MoveKeepsInv(s, c, Saving(false));
      }
    case Saving(closed) =>
      if succeeds {
        var row := s.row.value.(status := if closed then COMPLETED else FAILED);
        RowKeepsInv(s, row);
        MoveKeepsInv(s.(row := Some(row)), c, if closed then Marking else Done(FAILED));
      } else {
        MoveKeepsInv(s, c, Threw);
      }
    case Marking =>
      MoveKeepsInv(s, c, if succeeds then Done(COMPLETED) else Threw);
    case _ =>
      QuietKeepsInv(s, c, succeeds);
  }

  lemma QuietKeepsInv(s: State, c: nat, succeeds: bool)
    requires Inv(s) && c in s.calls
    requires !s.calls[c].Inserting? && !s.calls[c].Sending? && !s.calls[c].Saving? && !s.calls[c].Marking?
    ensures Inv(Advanced(s, c, succeeds))
  {
    var t := Advanced(s, c, succeeds);
    MoveKeepsInv(s, c, t.calls[c]);
    assert t == s || t == MoveTo(s, c, t.calls[c]);
  }

  lemma {:induction false} RunKeepsInv(deposit: nat, es: seq<Event>)
    ensures Inv(Run(deposit, es)) && Run(deposit, es).deposit == deposit
    decreases |es|
  {
    if |es| > 0 {
      RunKeepsInv(deposit, es[..|es| - 1]);
      StepKeepsInv(Run(deposit, es[..|es| - 1]), es[|es| - 1]);
    }
  }

  /**
   In every interleaving the refund row splits the deposit, at most one emergencyClose of all calls
   succeeds, and a row marked completed stands for one that did: what the contract paid back and what
   had been spent make up the deposit.
   */
  lemma RefundedAtMostOnce(deposit: nat, es: seq<Event>)
    ensures var s := Run(deposit, es);
            && (s.row.Some? ==> s.row.value.deposit == deposit
                                && s.row.value.refund + Min(s.row.value.spent, deposit) == deposit)
            && s.hub.closes <= 1
            && (forall c, d | c in s.txs && d in s.txs && c != d :: !(s.txs[c].Succeeded? && s.txs[d].Succeeded?))
            && (s.row.Some? && s.row.value.status.COMPLETED? ==>
                  s.hub.closes == 1 && !s.hub.active && s.hub.refunded + s.hub.spent == s.hub.deposit)
  {
    RunKeepsInv(deposit, es);
  }

  lemma ClosedHubStep(s: State, e: Event)
    requires HubIsSound(s.hub) && s.hub.closes == 1
    ensures Step(s, e).hub == s.hub
  {
  }

  /** Once closed the contract's account of the escrow never changes again. */
  lemma {:induction false} ClosedHubStays(deposit: nat, es: seq<Event>, more: seq<Event>)
    requires Run(deposit, es).hub.closes == 1
    ensures Run(deposit, es + more).hub == Run(deposit, es).hub
    decreases |more|
  {
    if |more| == 0 {
      assert es + more == es;
    } else {
      var front, last := more[..|more| - 1], more[|more| - 1];
      ClosedHubStays(deposit, es, front);
      assert es + more == es + front + [last];
      RunSnoc(deposit, es + front, last);
      RunKeepsInv(deposit, es + front);
      ClosedHubStep(Run(deposit, es + front), last);
    }
  }

  /**
   What the row says was refunded is what the contract paid back exactly when what the row says was spent,
   as far as the deposit went, is what the contract had spent when it was closed.
   */
  lemma RefundMatchesIff(deposit: nat, es: seq<Event>)
    requires var s := Run(deposit, es); s.row.Some? && s.hub.closes == 1
    ensures var s := Run(deposit, es);
            s.row.value.refund == s.hub.refunded <==> Min(s.row.value.spent, deposit) == s.hub.spent
  {
    RunKeepsInv(deposit, es);
  }

  /** It need not be: the contract can be spent from after the sum, and the row is completed all the same. */
  lemma CompletedCanMisstate(deposit: nat) returns (es: seq<Event>)
    ensures var s := Run(deposit, es);
            s.row == Some(Row(deposit, 0, deposit, COMPLETED)) && s.hub == Hub(deposit, deposit, false, 1, 0)
  {
    es := Extend(deposit, [], StatusBecomes(Cancelled));
    es := Sends(deposit, es, 0);
    es := Extend(deposit, es, HubSpends(deposit));
    es := Extend(deposit, es, Advance(0, true));
    es := Extend(deposit, es, Mine(0, true));
    es := Extend(deposit, es, Advance(0, true));
    es := Extend(deposit, es, Advance(0, true));
  }

  // ---------------------------------------------------------------------------------------------
  // The row is written once; its status is not
  // ---------------------------------------------------------------------------------------------

  /** The amounts of the row, which no later step changes. */
  function Amounts(row: Row): (nat, nat, nat) {
    (row.deposit, row.spent, row.refund)
  }

  lemma StepKeepsAmounts(s: State, e: Event)
    requires s.row.Some?
    ensures Step(s, e).row.Some? && Amounts(Step(s, e).row.value) == Amounts(s.row.value)
  {
  }

  lemma {:induction false} AmountsStay(deposit: nat, es: seq<Event>, more: seq<Event>)
    requires Run(deposit, es).row.Some?
    ensures Run(deposit, es + more).row.Some?
    ensures Amounts(Run(deposit, es + more).row.value) == Amounts(Run(deposit, es).row.value)
    decreases |more|
  {
    if |more| == 0 {
      assert es + more == es;
    } else {
      var front := more[..|more| - 1];
      AmountsStay(deposit, es, front);
      assert es + more == es + front + [more[|more| - 1]];
      RunSnoc(deposit, es + front, more[|more| - 1]);
      StepKeepsAmounts(Run(deposit, es + front), more[|more| - 1]);
    }
  }

  // ---------------------------------------------------------------------------------------------
  // When COMPLETED stays, and what FAILED says
  // ---------------------------------------------------------------------------------------------

  /** A call that can still save FAILED: it is past the look at the row and has not seen its close succeed. */
  predicate CanStillFail(phase: Phase) {
    phase.Summing? || phase.Inserting? || phase.Refetching? || phase.Sending? || phase.Waiting?
        || phase == Saving(false)
  }

  predicate IsCompleted(s: State) {
    s.row.Some? && s.row.value.status.COMPLETED?
  }

  predicate NoneCanFail(s: State) {
    forall c | c in s.calls :: !CanStillFail(s.calls[c])
  }

  lemma StepKeepsCompleted(s: State, e: Event)
    requires IsCompleted(s) && NoneCanFail(s)
    ensures IsCompleted(Step(s, e)) && NoneCanFail(Step(s, e))
  {
  }

  lemma {:induction false} CompletedStays(deposit: nat, es: seq<Event>, more: seq<Event>)
    requires IsCompleted(Run(deposit, es)) && NoneCanFail(Run(deposit, es))
    ensures IsCompleted(Run(deposit, es + more)) && NoneCanFail(Run(deposit, es + more))
    decreases |more|
  {
    if |more| == 0 {
      assert es + more == es;
    } else {
      var front, last := more[..|more| - 1], more[|more| - 1];
      CompletedStays(deposit, es, front);
      assert es + more == es + front + [last];
      RunSnoc(deposit, es + front, last);
      StepKeepsCompleted(Run(deposit, es + front), last);
    }
  }

  /** Steps a call that can still fail has left before it saves FAILED. */
  function StepsToFailure(phase: Phase): nat {
    match phase
    case Summing => 5
    case Inserting(_) => 4
    case Refetching => 3
    case Sending => 2
    case Waiting => 2
    case _ => 1
  }

  /** From each such phase there is a continuation that saves FAILED over the row. */
  lemma {:induction false} FailureIsAhead(deposit: nat, es: seq<Event>, c: nat) returns (more: seq<Event>)
    requires var s := Run(deposit, es); s.row.Some? && c in s.calls && CanStillFail(s.calls[c])
    ensures var t := Run(deposit, es + more); t.row.Some? && t.row.value.status.FAILED?
    decreases StepsToFailure(Run(deposit, es).calls[c])
  {
    var s := Run(deposit, es);
    var e := Advance(c, !s.calls[c].Sending? && !s.calls[c].Waiting?);
    RunSnoc(deposit, es, e);
    if s.calls[c] == Saving(false) {
      more := [e];
    } else {
      var rest := FailureIsAhead(deposit, es + [e], c);
      more := [e] + rest;
      assert es + more == es + [e] + rest;
    }
  }

  /** A completed row survives every continuation exactly when no call can still save a failure. */
  lemma CompletedStaysIff(deposit: nat, es: seq<Event>)
    requires IsCompleted(Run(deposit, es))
    ensures (forall more :: IsCompleted(Run(deposit, es + more))) <==> NoneCanFail(Run(deposit, es))
  {
    var s := Run(deposit, es);
    if NoneCanFail(s) {
      forall more
        ensures IsCompleted(Run(deposit, es + more))
      {
        CompletedStays(deposit, es, more);
      }
    } else {
      var c :| c in s.calls && CanStillFail(s.calls[c]);
      var more := FailureIsAhead(deposit, es, c);
      assert !IsCompleted(Run(deposit, es + more));
    }
  }

  /** The chain, the ledger and the session move; no refund call does. */
  predicate IsOutside(e: Event) {
    !e.Request? && !e.Advance?
  }

  predicate AllOutside(es: seq<Event>) {
    forall i | 0 <= i < |es| :: IsOutside(es[i])
  }

  /** A close has happened, or one that was broadcast can still be mined. */
  ghost predicate RefundIsOut(s: State) {
    s.hub.closes == 1 || (s.hub.active && exists c :: c in s.txs && s.txs[c].Pending?)
  }

  lemma OutsideKeepsUnrefunded(s: State, e: Event)
    requires Inv(s) && !RefundIsOut(s) && IsOutside(e)
    ensures !RefundIsOut(Step(s, e)) && Step(s, e).row == s.row
  {
    if e.Mine? && e.call in s.txs && s.txs[e.call].Pending? {
      assert !s.hub.active;
    }
  }

  lemma {:induction false} OutsideStaysUnrefunded(deposit: nat, es: seq<Event>, more: seq<Event>)
    requires !RefundIsOut(Run(deposit, es)) && AllOutside(more)
    ensures !RefundIsOut(Run(deposit, es + more))
    decreases |more|
  {
    if |more| == 0 {
      assert es + more == es;
    } else {
      var front, last := more[..|more| - 1], more[|more| - 1];
      OutsideStaysUnrefunded(deposit, es, front);
      assert es + more == es + front + [last];
      RunSnoc(deposit, es + front, last);
      RunKeepsInv(deposit, es + front);
      OutsideKeepsUnrefunded(Run(deposit, es + front), last);
    }
  }

  /**
   A row marked failed stands for a refunded escrow, now or after the chain moves on, exactly when a
   close has succeeded or a broadcast one is pending on an active escrow: a wait that threw after its
   broadcast leaves it so.
   */
  lemma FailedCanBeRefundedIff(deposit: nat, es: seq<Event>)
    requires var s := Run(deposit, es); s.row.Some? && s.row.value.status.FAILED?
    ensures (exists more | AllOutside(more) ::
               var t := Run(deposit, es + more); t.row == Run(deposit, es).row && t.hub.closes == 1)
            <==> RefundIsOut(Run(deposit, es))
  {
    var s := Run(deposit, es);
    RunKeepsInv(deposit, es);
    if RefundIsOut(s) {
      if s.hub.closes == 1 {
        assert es + [] == es && AllOutside([]);
      } else {
        var c :| c in s.txs && s.txs[c].Pending?;
        RunSnoc(deposit, es, Mine(c, true));
        assert AllOutside([Mine(c, true)]);
      }
    } else {
      forall more | AllOutside(more)
        ensures Run(deposit, es + more).hub.closes != 1
      {
        OutsideStaysUnrefunded(deposit, es, more);
      }
    }
  }

  /** The wait of this call threw at some point of the run: it was waiting and went on without a receipt. */
  ghost predicate WaitThrew(deposit: nat, es: seq<Event>, c: nat) {
    exists k :: 0 <= k < |es| && es[k] == Advance(c, false)
      && c in Run(deposit, es[..k]).calls && Run(deposit, es[..k]).calls[c].Waiting?
  }

  predicate FailedWithTx(s: State, c: nat) {
    c in s.txs && c in s.calls && (s.calls[c] == Saving(false) || s.calls[c] == Done(FAILED))
  }

  lemma OnlyAThrownWait(s: State, e: Event, c: nat)
    requires Inv(s) && !FailedWithTx(s, c) && FailedWithTx(Step(s, e), c)
    ensures e == Advance(c, false) && c in s.calls && s.calls[c].Waiting?
  {
  }

  /** A call ends failed with a transaction of its own only by a wait that threw after the broadcast. */
  lemma {:induction false} FailedAfterBroadcast(deposit: nat, es: seq<Event>, c: nat)
    requires FailedWithTx(Run(deposit, es), c)
    ensures WaitThrew(deposit, es, c)
    decreases |es|
  {
    var front, last := es[..|es| - 1], es[|es| - 1];
    if FailedWithTx(Run(deposit, front), c) {
      FailedAfterBroadcast(deposit, front, c);
      var k :| 0 <= k < |front| && front[k] == Advance(c, false)
        && c in Run(deposit, front[..k]).calls && Run(deposit, front[..k]).calls[c].Waiting?;
      assert front[..k] == es[..k];
    } else {
      RunKeepsInv(deposit, front);
      OnlyAThrownWait(Run(deposit, front), last, c);
      assert es[..|es| - 1] == front;
    }
  }

  /** One call alone suffices: its wait throws, FAILED is saved, and then the close is mined. */
  lemma TimedOutCallFailsRefunded(deposit: nat) returns (es: seq<Event>)
    ensures var s := Run(deposit, es);
            s.row == Some(Row(deposit, 0, deposit, FAILED)) && s.hub.closes == 1 && s.calls == map[0 := Done(FAILED)]
  {
    es := Extend(deposit, [], StatusBecomes(Cancelled));
    es := Sends(deposit, es, 0);
    es := Extend(deposit, es, Advance(0, true));
    es := Extend(deposit, es, Advance(0, false));
    es := Extend(deposit, es, Advance(0, true));
    es := Extend(deposit, es, Mine(0, true));
  }

  /**
   Two concurrent requests can leave the row of a refunded escrow marked failed: the second close
   reverts, and its outcome is saved over the first one's.
   */
  lemma CompletedCanBeOverwritten(deposit: nat) returns (es: seq<Event>)
    ensures var s := Run(deposit, es);
            s.row == Some(Row(deposit, 0, deposit, FAILED)) && s.hub.closes == 1 && s.refundedAt
  {
    es := BothSending(deposit);
    es := Extend(deposit, es, Advance(0, true));
    es := Extend(deposit, es, Mine(0, true));
    es := Extend(deposit, es, Advance(0, true));
    es := Extend(deposit, es, Advance(0, true));
    es := Extend(deposit, es, Advance(0, true));
    es := Extend(deposit, es, Advance(1, false));
    es := Extend(deposit, es, Advance(1, true));
  }

  lemma BothSending(deposit: nat) returns (es: seq<Event>)
    ensures Run(deposit, es) == Start(deposit).(status := Cancelled, row := Some(NewRow(deposit, 0)),
                                                calls := map[0 := Sending, 1 := Sending])
  {
    es := Extend(deposit, [], StatusBecomes(Cancelled));
    es := Sends(deposit, es, 0);
    es := Extend(deposit, es, Request(1));
    es := Extend(deposit, es, Advance(1, true));
    es := Extend(deposit, es, Advance(1, true));
  }

  lemma Sends(deposit: nat, before: seq<Event>, c: nat) returns (es: seq<Event>)
    requires var s := Run(deposit, before); c !in s.calls && s.row.None? && IsRefundable(s.status)
    ensures Run(deposit, es) == Run(deposit, before).(
              calls := Run(deposit, before).calls[c := Sending],
              row := Some(NewRow(Run(deposit, before).deposit, Run(deposit, before).ledgerSpent)))
  {
    es := Extend(deposit, before, Request(c));
    es := Extend(deposit, es, Advance(c, true));
    es := Extend(deposit, es, Advance(c, true));
    es := Extend(deposit, es, Advance(c, true));
    es := Extend(deposit, es, Advance(c, true));
  }

  lemma Extend(deposit: nat, es: seq<Event>, e: Event) returns (longer: seq<Event>)
    ensures longer == es + [e] && Run(deposit, longer) == Step(Run(deposit, es), e)
  {
    longer := es + [e];
    RunSnoc(deposit, es, e);
  }
}
