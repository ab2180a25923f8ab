/**
 The escrow contract told by its history alone: which calls succeed, whom they pay and what an escrow
 looks like, from the calls that took effect before. The contract keeps fields instead; they are
 shown to say the same at every moment of every run.
 */
module HubHistory {
  import opened Base
  import opened EscrowHub
  import opened HubContract

  /** The calls that took effect, in order. */
  type History = seq<Call>

  // ---------------------------------------------------------------------------------------------
  // What the history says of an escrow
  // ---------------------------------------------------------------------------------------------

  /** The call that opened the escrow. */
  function Opening(h: History, id: EscrowId): (found: Option<Call>)
    ensures found.Some? ==> found.value in h && found.value.OpenEscrow? && found.value.id == id
  {
    if |h| == 0 then None
    else
      var c, before := h[|h| - 1], Opening(h[..|h| - 1], id);
      if before.Some? then before
      else if c.OpenEscrow? && c.id == id then Some(c)
      else None
  }

  predicate Closed(h: History, id: EscrowId) {
    exists i :: 0 <= i < |h| && (h[i].CloseEscrow? || h[i].EmergencyClose?) && h[i].id == id
  }

  predicate Frozen(h: History, id: EscrowId) {
    exists i :: 0 <= i < |h| && h[i].FreezeOnDispute? && h[i].id == id
  }

  /** What a call takes from an escrow. */
  function Taken(c: Call, id: EscrowId): nat {
    match c
    case SettleBatch(_, i, _, totalAmount) => if i == id then totalAmount else 0
    case ClaimStream(_, i, usageDelta, _) => if i == id then usageDelta else 0
    case _ => 0
  }

  function SpentIn(h: History, id: EscrowId): nat {
    if |h| == 0 then 0 else SpentIn(h[..|h| - 1], id) + Taken(h[|h| - 1], id)
  }

  /** Open: opened, and not closed since. */
  predicate IsOpen(h: History, id: EscrowId) {
    Opening(h, id).Some? && !Closed(h, id)
  }

  // ---------------------------------------------------------------------------------------------
  // Which calls succeed, and whom they pay
  // ---------------------------------------------------------------------------------------------

  /** Nobody has disputed the open escrow, and its deposit and its budget still hold the amount. */
  predicate CanTake(h: History, id: EscrowId, amount: nat) {
    && IsOpen(h, id) && !Frozen(h, id)
    && SpentIn(h, id) + amount <= Opening(h, id).value.value
    && SpentIn(h, id) + amount <= Opening(h, id).value.budgetLimit
    && SpentIn(h, id) + amount <= MAX_UINT256 && amount * 50 <= MAX_UINT256
  }

  /** A call succeeds, as far as the contract decides. */
  predicate Allowed(owner: Address, h: History, c: Call) {
    match c
    case OpenEscrow(_, value, id, agentB, _, _, _, now) =>
      Opening(h, id).None? && value > 0 && agentB != 0 && now > 0
    case SettleBatch(_, id, _, totalAmount) => CanTake(h, id, totalAmount)
    case ClaimStream(sender, id, usageDelta, now) =>
      && CanTake(h, id, usageDelta)
      && sender == Opening(h, id).value.agentB
      && now <= Opening(h, id).value.now + Opening(h, id).value.ttl <= MAX_UINT256
    case CloseEscrow(sender, id) => IsOpen(h, id) && sender == Opening(h, id).value.sender
    case EmergencyClose(sender, id) => IsOpen(h, id) && sender == owner
    case FreezeOnDispute(_, id) => IsOpen(h, id)
    case Receive(_) => true
  }

  /** What the call pays out: the amount less 0.5 % to the payee, what is left to the opener. */
  function PaymentOf(h: History, c: Call): Option<Payment> {
    if c.Receive? || Opening(h, c.id).None? then None
    else
      var opening := Opening(h, c.id).value;
      match c
      case SettleBatch(_, _, _, totalAmount) => Some(Payment(opening.agentB, Less(totalAmount)))
      case ClaimStream(_, _, usageDelta, _) => Some(Payment(opening.agentB, Less(usageDelta)))
      case CloseEscrow(_, id) => Left(opening, SpentIn(h, id))
      case EmergencyClose(_, id) => Left(opening, SpentIn(h, id))
      case _ => None
  }

  function Less(amount: nat): nat {
    amount - amount * 50 / 10000
  }

  function Left(opening: Call, spent: nat): Option<Payment>
    requires opening.OpenEscrow?
  {
    if spent < opening.value then Some(Payment(opening.sender, opening.value - spent)) else None
  }

  /** The payments of one escrow, in order. */
  function PaymentsOf(h: History, id: EscrowId): seq<Payment> {
    if |h| == 0 then []
    else
      var front, c := h[..|h| - 1], h[|h| - 1];
      PaymentsOf(front, id)
      + if !c.Receive? && c.id == id && PaymentOf(front, c).Some? then [PaymentOf(front, c).value] else []
  }

  // ---------------------------------------------------------------------------------------------
  // Runs: the history alone decides what becomes of each event
  // ---------------------------------------------------------------------------------------------

  /** `frames` are the histories that unfinished payouts go back to when their receiver fails. */
  datatype Past = Past(calls: History, frames: seq<History>)

  function Recall(owner: Address, p: Past, e: Event): Past {
    match e
    case Invoke(c) =>
      if !Allowed(owner, p.calls, c) then p
      else Past(p.calls + [c], if PaymentOf(p.calls, c).Some? then p.frames + [p.calls] else p.frames)
    case Return(success) =>
      if |p.frames| == 0 then p
      else
        var n := |p.frames| - 1;
        Past(if success then p.calls else p.frames[n], p.frames[..n])
  }

  function RecallAll(owner: Address, es: seq<Event>): Past {
    if |es| == 0 then Past([], []) else Recall(owner, RecallAll(owner, es[..|es| - 1]), es[|es| - 1])
  }

  // ---------------------------------------------------------------------------------------------
  // The contract's fields say what the history says
  // ---------------------------------------------------------------------------------------------

  /** The session of an opened escrow, from the history alone. */
  function SessionOf(h: History, id: EscrowId): Session
    requires Opening(h, id).Some?
  {
    var o := Opening(h, id).value;
    Session(o.sender, o.agentB, o.value, o.budgetLimit, SpentIn(h, id), o.verificationRequired, o.ttl, o.now,
            !Closed(h, id), Frozen(h, id))
  }

  ghost predicate MatchesAt(h: History, w: World, id: EscrowId) {
    if Opening(h, id).None? then
      && id !in w.escrows && id !in w.accounts
      && SpentIn(h, id) == 0 && PaymentsOf(h, id) == [] && !Closed(h, id) && !Frozen(h, id)
    else
      && id in w.escrows && w.escrows[id] == SessionOf(h, id) && w.escrows[id].createdAt > 0
      && id in w.accounts && w.accounts[id].payments == PaymentsOf(h, id)
  }

  ghost predicate Matches(h: History, w: World) {
    forall id :: MatchesAt(h, w, id)
  }

  lemma OneMore(h: History, c: Call, id: EscrowId)
    ensures Opening(h + [c], id) == if Opening(h, id).Some? then Opening(h, id)
                                    else if c.OpenEscrow? && c.id == id then Some(c) else None
    ensures Closed(h + [c], id) <==> Closed(h, id) || ((c.CloseEscrow? || c.EmergencyClose?) && c.id == id)
    ensures Frozen(h + [c], id) <==> Frozen(h, id) || (c.FreezeOnDispute? && c.id == id)
    ensures SpentIn(h + [c], id) == SpentIn(h, id) + Taken(c, id)
    ensures PaymentsOf(h + [c], id) == PaymentsOf(h, id)
              + if !c.Receive? && c.id == id && PaymentOf(h, c).Some? then [PaymentOf(h, c).value] else []
  {
    var more := h + [c];
    assert more[..|more| - 1] == h && more[|h|] == c;
    assert forall i | 0 <= i < |h| :: more[i] == h[i];
  }

  /** The fields and the history agree on whether a call succeeds, and on what it pays. */
  lemma OutcomeMatches(owner: Address, h: History, w: World, c: Call)
    requires Matches(h, w) && Solvent(w) && Timely(c)
    ensures !Execute(owner, w, c).Reverts? <==> Allowed(owner, h, c)
    ensures Allowed(owner, h, c) ==> Pays(PaymentOf(h, c), Execute(owner, w, c))
  {
    if !c.Receive? {
      assert MatchesAt(h, w, c.id);
      match c
      case SettleBatch(_, id, _, totalAmount) => TakingMatches(h, w, id, totalAmount);
      case ClaimStream(_, id, usageDelta, _) => TakingMatches(h, w, id, usageDelta);
      case CloseEscrow(_, id) => ClosingMatches(h, w, id);
      case EmergencyClose(_, id) => ClosingMatches(h, w, id);
      case _ =>
    }
  }

  /** The call ends as the history says: after this payment, or without one. */
  predicate Pays(payment: Option<Payment>, o: Outcome) {
    if payment.Some? then o.Pays? && o.payment == payment.value else o.Ends?
  }

  lemma TakingMatches(h: History, w: World, id: EscrowId, amount: nat)
    requires MatchesAt(h, w, id) && Solvent(w)
    ensures id in w.escrows && CanSpend(w.escrows[id], amount) <==> CanTake(h, id, amount)
    ensures CanTake(h, id, amount) ==>
              Pays(Some(Payment(Opening(h, id).value.agentB, Less(amount))), Spend(w, id, amount))
  {
    if CanTake(h, id, amount) {
      SpendIsSolvent(w, id, amount);
    }
  }

  lemma ClosingMatches(h: History, w: World, id: EscrowId)
    requires MatchesAt(h, w, id) && Solvent(w)
    ensures id in w.escrows && w.escrows[id].active <==> IsOpen(h, id)
    ensures IsOpen(h, id) ==> Pays(Left(Opening(h, id).value, SpentIn(h, id)), Close(w, id))
  {
    if IsOpen(h, id) {
      CloseIsSolvent(w, id);
    }
  }

  lemma WorldMatches(owner: Address, h: History, w: World, c: Call)
    requires Matches(h, w) && Solvent(w) && Timely(c) && Allowed(owner, h, c)
    requires !Execute(owner, w, c).Reverts?
    ensures Matches(h + [c], Execute(owner, w, c).world)
  {
    OutcomeMatches(owner, h, w, c);
    forall id
      ensures MatchesAt(h + [c], Execute(owner, w, c).world, id)
    {
      assert MatchesAt(h, w, id);
      if !c.Receive? && c.id == id {
        SameEscrowMatches(owner, h, w, c);
      } else {
        OtherEscrowMatches(owner, h, w, c, id);
      }
    }
  }

  lemma OtherEscrowMatches(owner: Address, h: History, w: World, c: Call, id: EscrowId)
    requires MatchesAt(h, w, id) && !Execute(owner, w, c).Reverts? && (c.Receive? || c.id != id)
    ensures MatchesAt(h + [c], Execute(owner, w, c).world, id)
  {
    OneMore(h, c, id);
  }

  lemma SameEscrowMatches(owner: Address, h: History, w: World, c: Call)
    requires !c.Receive? && MatchesAt(h, w, c.id) && Timely(c)
    requires Allowed(owner, h, c) && !Execute(owner, w, c).Reverts?
    requires Pays(PaymentOf(h, c), Execute(owner, w, c))
    ensures MatchesAt(h + [c], Execute(owner, w, c).world, c.id)
  {
    OneMore(h, c, c.id);
  }

  // ---------------------------------------------------------------------------------------------
  // Main results
  // ---------------------------------------------------------------------------------------------

  ghost predicate AllMatch(p: Past, s: State) {
    && Matches(p.calls, s.world)
    && |p.frames| == |s.frames| && forall i | 0 <= i < |s.frames| :: Matches(p.frames[i], s.frames[i])
  }

  lemma StepMatches(owner: Address, p: Past, s: State, e: Event)
    requires AllMatch(p, s) && AllSolvent(s)
    ensures AllMatch(Recall(owner, p, e), Step(owner, s, e))
  {
    hide Matches, Solvent, Execute, Allowed, PaymentOf;
    if e.Invoke? && Timely(e.call) {
      OutcomeMatches(owner, p.calls, s.world, e.call);
      if Allowed(owner, p.calls, e.call) {
        WorldMatches(owner, p.calls, s.world, e.call);
      }
    } else if e.Invoke? {
      Untimely(owner, p.calls, e.call);
    }
  }

  lemma Untimely(owner: Address, h: History, c: Call)
    requires !Timely(c)
    ensures !Allowed(owner, h, c)
  {
  }

  lemma NothingYet(balance: nat)
    ensures Matches([], Deployed(balance).world)
  {
    forall id
      ensures MatchesAt([], Deployed(balance).world, id)
    {
    }
  }

  /**
   In every run, at every call depth, the contract's fields are what the calls that took effect say:
   the parties and bounds of the opening call, what was taken since, and whether somebody closed or
   disputed the escrow since; and its payments are the ones these calls made.
   */
  lemma {:induction false} FieldsMatchHistory(owner: Address, balance: nat, es: seq<Event>)
    ensures AllMatch(RecallAll(owner, es), Run(owner, Deployed(balance), es))
    decreases |es|
  {
    if |es| == 0 {
      NothingYet(balance);
    } else {
      FieldsMatchHistory(owner, balance, es[..|es| - 1]);
      SolventForever(owner, balance, es[..|es| - 1]);
      StepMatches(owner, RecallAll(owner, es[..|es| - 1]), Run(owner, Deployed(balance), es[..|es| - 1]), es[|es| - 1]);
    }
  }

  /** A call succeeds in a reachable state exactly when the history allows it, and pays whom it says. */
  lemma SucceedsIff(owner: Address, balance: nat, es: seq<Event>, c: Call)
    requires Timely(c)
    ensures var w, h := Run(owner, Deployed(balance), es).world, RecallAll(owner, es).calls;
            && (!Execute(owner, w, c).Reverts? <==> Allowed(owner, h, c))
            && (Allowed(owner, h, c) ==> Pays(PaymentOf(h, c), Execute(owner, w, c)))
  {
    FieldsMatchHistory(owner, balance, es);
    SolventForever(owner, balance, es);
    OutcomeMatches(owner, RecallAll(owner, es).calls, Run(owner, Deployed(balance), es).world, c);
  }

  /**
   A whole call with its nested calls succeeds exactly when the history allows it and the receiver
   of its payment, if there is one, accepts.
   */
  lemma PerformSucceedsIff(owner: Address, balance: nat, es: seq<Event>, m: Message)
    requires Timely(m.call)
    ensures var w, h := Run(owner, Deployed(balance), es).world, RecallAll(owner, es).calls;
            Perform(owner, w, m).1
            <==> Allowed(owner, h, m.call) && (PaymentOf(h, m.call).Some? ==> m.reply.accepts)
  {
    SucceedsIff(owner, balance, es, m.call);
  }
}
