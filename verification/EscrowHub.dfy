/**
 The escrow contract. Its payouts hand control to the receiver, who may call back into any of its
 functions, so the model is a machine with a call stack: a call that pays leaves a frame holding
 the state to return to if the receiver fails, and everything the receiver does happens in between.
 */
module EscrowHub {
  import opened Base

  type Address = nat

  type EscrowId = nat

  const FEE_PERCENT := 50
  const FEE_DENOMINATOR := 10000
  const ZERO_ADDRESS: Address := 0

  datatype Session = Session(
    agentA: Address, agentB: Address, deposit: nat, budgetLimit: nat, spent: nat,
    verificationRequired: bool, ttl: nat, createdAt: nat, active: bool, disputed: bool)

  /** Ether the contract sends. */
  datatype Payment = Payment(to: Address, amount: nat)

  /** What happened to the deposit of one escrow so far; the contract itself keeps no such record. */
  datatype Account = Account(paid: nat, fees: nat, refunded: nat, payments: seq<Payment>)

  datatype World = World(
    balance: nat, escrows: map<EscrowId, Session>, accounts: map<EscrowId, Account>, received: nat)

  datatype Call =
    | OpenEscrow(sender: Address, value: nat, id: EscrowId, agentB: Address, budgetLimit: nat,
                 verificationRequired: bool, ttl: nat, now: nat)
    | SettleBatch(sender: Address, id: EscrowId, receiptsHash: string, totalAmount: nat)
    | ClaimStream(sender: Address, id: EscrowId, usageDelta: nat, now: nat)
    | CloseEscrow(sender: Address, id: EscrowId)
    | EmergencyClose(sender: Address, id: EscrowId)
    | FreezeOnDispute(sender: Address, id: EscrowId)
    | Receive(value: nat)

  /** How a call ends, or that it has paid and now waits for the receiver. */
  datatype Outcome = Reverts | Ends(world: World) | Pays(world: World, payment: Payment)

  // ---------------------------------------------------------------------------------------------
  // One call up to its end or its payout
  // ---------------------------------------------------------------------------------------------

  function FeeOf(amount: nat): nat {
    amount * FEE_PERCENT / FEE_DENOMINATOR
  }

  /** The checks settleBatch and claimStream share; checked arithmetic reverts on overflow. */
  predicate CanSpend(s: Session, amount: nat) {
    && s.active && !s.disputed
    && s.spent + amount <= MAX_UINT256
    && s.spent + amount <= s.budgetLimit
    && s.spent + amount <= s.deposit
    && amount * FEE_PERCENT <= MAX_UINT256
  }

  function Put(w: World, id: EscrowId, s: Session, a: Account, balance: nat): World {
    w.(escrows := w.escrows[id := s], accounts := w.accounts[id := a], balance := balance)
  }

  function AccountOf(w: World, id: EscrowId): Account {
    if id in w.accounts then w.accounts[id] else Account(0, 0, 0, [])
  }

  function Spend(w: World, id: EscrowId, amount: nat): Outcome
    requires id in w.escrows
  {
    var s, a := w.escrows[id], AccountOf(w, id);
    var fee := FeeOf(amount);
    var payout := amount - fee;
    if payout > w.balance then Reverts
    else
      var p := Payment(s.agentB, payout);
      var a' := a.(paid := a.paid + payout, fees := a.fees + fee, payments := a.payments + [p]);
      Pays(Put(w, id, s.(spent := s.spent + amount), a', w.balance - payout), p)
  }

  function Close(w: World, id: EscrowId): Outcome
    requires id in w.escrows
  {
    var s, a := w.escrows[id], AccountOf(w, id);
    if s.spent > s.deposit then Reverts
    else
      var refund := s.deposit - s.spent;
      var closed := s.(active := false);
      if refund == 0 then Ends(Put(w, id, closed, a, w.balance))
      else if refund > w.balance then Reverts
      else
        var p := Payment(s.agentA, refund);
        var a' := a.(refunded := a.refunded + refund, payments := a.payments + [p]);
        Pays(Put(w, id, closed, a', w.balance - refund), p)
  }

  function Execute(owner: Address, w: World, c: Call): Outcome {
    match c
    case OpenEscrow(sender, value, id, agentB, budgetLimit, verificationRequired, ttl, now) =>
      if (id in w.escrows && w.escrows[id].createdAt != 0) || value == 0 || agentB == ZERO_ADDRESS then Reverts
      else
        var s := Session(sender, agentB, value, budgetLimit, 0, verificationRequired, ttl, now, true, false);
        Ends(Put(w, id, s, Account(0, 0, 0, []), w.balance + value))
    case SettleBatch(sender, id, receiptsHash, totalAmount) =>
      // the hash is only emitted
      if id !in w.escrows || !CanSpend(w.escrows[id], totalAmount) then Reverts
      else Spend(w, id, totalAmount)
    case ClaimStream(sender, id, usageDelta, now) =>
      if id !in w.escrows || !w.escrows[id].active || w.escrows[id].disputed
         || sender != w.escrows[id].agentB
         || w.escrows[id].createdAt + w.escrows[id].ttl > MAX_UINT256
         || now > w.escrows[id].createdAt + w.escrows[id].ttl
         || !CanSpend(w.escrows[id], usageDelta)
      then Reverts
      else Spend(w, id, usageDelta)
    case CloseEscrow(sender, id) =>
      if id !in w.escrows || !w.escrows[id].active || sender != w.escrows[id].agentA then Reverts
      else Close(w, id)
    case EmergencyClose(sender, id) =>
      if sender != owner || id !in w.escrows || !w.escrows[id].active then Reverts
      else Close(w, id)
    case FreezeOnDispute(sender, id) =>
      if id !in w.escrows || !w.escrows[id].active then Reverts
      else Ends(w.(escrows := w.escrows[id := w.escrows[id].(disputed := true)]))
    case Receive(value) =>
      Ends(w.(balance := w.balance + value, received := w.received + value))
  }

  // ---------------------------------------------------------------------------------------------
  // Runs
  // ---------------------------------------------------------------------------------------------

  /** `frames` are the states the unfinished payouts return to when their receiver fails. */
  datatype State = State(world: World, frames: seq<World>)

  datatype Event = Invoke(call: Call) | Return(success: bool)

  /** Block timestamps are not zero, which is what openEscrow's existence check relies on. */
  predicate Timely(c: Call) {
    c.OpenEscrow? ==> c.now > 0
  }

  function Step(owner: Address, s: State, e: Event): State {
    match e
    case Invoke(c) =>
      if !Timely(c) then s
      else
        (match Execute(owner, s.world, c)
         case Reverts => s
         case Ends(w) => State(w, s.frames)
         case Pays(w, _) => State(w, s.frames + [s.world]))
    case Return(success) =>
      if |s.frames| == 0 then s
      else
        var n := |s.frames| - 1;
        State(if success then s.world else s.frames[n], s.frames[..n])
  }

  function Run(owner: Address, s: State, es: seq<Event>): State {
    if |es| == 0 then s else Step(owner, Run(owner, s, es[..|es| - 1]), es[|es| - 1])
  }

  lemma {:induction false} RunAppend(owner: Address, s: State, es: seq<Event>, fs: seq<Event>)
    ensures Run(owner, s, es + fs) == Run(owner, Run(owner, s, es), fs)
  {
    if |fs| == 0 {
      assert es + fs == es;
    } else {
      RunAppend(owner, s, es, fs[..|fs| - 1]);
      assert (es + fs)[..|es + fs| - 1] == es + fs[..|fs| - 1];
    }
  }

  /** A new contract; its address may have been sent ether before. */
  function Deployed(balance: nat): State {
    State(World(balance, map[], map[], balance), [])
  }

  // ---------------------------------------------------------------------------------------------
  // Sums over escrows
  // ---------------------------------------------------------------------------------------------

  ghost function Total(ids: set<EscrowId>, f: EscrowId -> nat): nat {
    if ids == {} then 0
    else
      var x :| x in ids;
      f(x) + Total(ids - {x}, f)
  }

  lemma {:induction false} TotalSplit(ids: set<EscrowId>, f: EscrowId -> nat, x: EscrowId)
    requires x in ids
    ensures Total(ids, f) == f(x) + Total(ids - {x}, f)
    decreases ids
  {
    var y :| y in ids && Total(ids, f) == f(y) + Total(ids - {y}, f);
    if y != x {
      TotalSplit(ids - {y}, f, x);
      TotalSplit(ids - {x}, f, y);
      assert ids - {y} - {x} == ids - {x} - {y};
    }
  }

  lemma {:induction false} TotalAgree(ids: set<EscrowId>, f: EscrowId -> nat, g: EscrowId -> nat)
    requires forall x | x in ids :: f(x) == g(x)
    ensures Total(ids, f) == Total(ids, g)
    decreases ids
  {
    if ids != {} {
      var x :| x in ids;
      TotalSplit(ids, f, x);
      TotalSplit(ids, g, x);
      TotalAgree(ids - {x}, f, g);
    }
  }

  /** Changing one escrow moves a sum by that escrow's change. */
  lemma TotalUpdate(ids: set<EscrowId>, f: EscrowId -> nat, g: EscrowId -> nat, x: EscrowId)
    requires forall y | y in ids && y != x :: f(y) == g(y)
    requires x !in ids ==> f(x) == 0
    ensures Total(ids + {x}, g) == Total(ids, f) - f(x) + g(x)
  {
    TotalSplit(ids + {x}, g, x);
    assert ids + {x} - {x} == ids - {x};
    TotalAgree(ids - {x}, f, g);
    if x in ids {
      TotalSplit(ids, f, x);
    } else {
      assert ids - {x} == ids;
    }
  }

  function LockedIn(w: World, id: EscrowId): nat {
    if id in w.escrows && w.escrows[id].active && w.escrows[id].spent <= w.escrows[id].deposit
    then w.escrows[id].deposit - w.escrows[id].spent else 0
  }

  /** Sum of `deposit - spent` over the active escrows. */
  ghost function Locked(w: World): nat {
    Total(w.escrows.Keys, id => LockedIn(w, id))
  }

  ghost function FeesWithheld(w: World): nat {
    Total(w.escrows.Keys, id => AccountOf(w, id).fees)
  }

  // ---------------------------------------------------------------------------------------------
  // Solvency
  // ---------------------------------------------------------------------------------------------

  predicate Balanced(s: Session, a: Account) {
    && s.createdAt > 0
    && s.spent <= s.deposit && s.spent <= s.budgetLimit
    && a.paid + a.fees == s.spent
    && (if s.active then a.refunded == 0 else a.paid + a.fees + a.refunded == s.deposit)
  }

  ghost predicate Solvent(w: World) {
    && w.accounts.Keys == w.escrows.Keys
    && (forall id | id in w.escrows :: Balanced(w.escrows[id], w.accounts[id]))
    && w.balance == Locked(w) + FeesWithheld(w) + w.received
  }

  lemma PutKeepsSums(w: World, id: EscrowId, s: Session, a: Account, balance: nat)
    requires Solvent(w) && Balanced(s, a)
    requires balance as int - w.balance ==
             (if s.active then s.deposit - s.spent else 0) + a.fees
             - LockedIn(w, id) - AccountOf(w, id).fees
    ensures Solvent(Put(w, id, s, a, balance))
  {
    var w' := Put(w, id, s, a, balance);
    var ids := w.escrows.Keys;
    assert w'.escrows.Keys == ids + {id};
    TotalUpdate(ids, x => LockedIn(w, x), x => LockedIn(w', x), id);
    TotalUpdate(ids, x => AccountOf(w, x).fees, x => AccountOf(w', x).fees, id);
  }

  lemma LockedCovers(w: World, id: EscrowId)
    requires Solvent(w) && id in w.escrows
    ensures LockedIn(w, id) <= w.balance
  {
    TotalSplit(w.escrows.Keys, x => LockedIn(w, x), id);
  }

  lemma FeeIsPart(amount: nat)
    ensures FeeOf(amount) <= amount
  {
  }

  lemma SpendIsSolvent(w: World, id: EscrowId, amount: nat)
    requires Solvent(w) && id in w.escrows && CanSpend(w.escrows[id], amount)
    ensures Spend(w, id, amount).Pays? && Solvent(Spend(w, id, amount).world)
  {
    FeeIsPart(amount);
    LockedCovers(w, id);
    var s, a, fee := w.escrows[id], w.accounts[id], FeeOf(amount);
    var p := Payment(s.agentB, amount - fee);
    var s' := s.(spent := s.spent + amount);
    var a' := a.(paid := a.paid + p.amount, fees := a.fees + fee, payments := a.payments + [p]);
    assert Balanced(s', a');
    PutKeepsSums(w, id, s', a', w.balance - p.amount);
    assert Spend(w, id, amount) == Pays(Put(w, id, s', a', w.balance - p.amount), p);
  }

  lemma CloseIsSolvent(w: World, id: EscrowId)
    requires Solvent(w) && id in w.escrows && w.escrows[id].active
    ensures !Close(w, id).Reverts? && Solvent(Close(w, id).world)
  {
    LockedCovers(w, id);
    var s, a := w.escrows[id], w.accounts[id];
    var refund := s.deposit - s.spent;
    var s' := s.(active := false);
    var a' := a.(refunded := a.refunded + refund,
                 payments := a.payments + if refund == 0 then [] else [Payment(s.agentA, refund)]);
    assert Balanced(s', a') && (refund == 0 ==> a' == a);
    PutKeepsSums(w, id, s', a', w.balance - refund);
    assert Close(w, id).world == Put(w, id, s', a', w.balance - refund);
  }

  lemma FreezeIsSolvent(w: World, id: EscrowId)
    requires Solvent(w) && id in w.escrows
    ensures Solvent(w.(escrows := w.escrows[id := w.escrows[id].(disputed := true)]))
  {
    var s := w.escrows[id].(disputed := true);
    PutKeepsSums(w, id, s, w.accounts[id], w.balance);
    assert w.accounts[id := w.accounts[id]] == w.accounts;
    assert Put(w, id, s, w.accounts[id], w.balance) == w.(escrows := w.escrows[id := s]);
  }

  lemma OpeningIsSolvent(w: World, id: EscrowId, s: Session)
    requires Solvent(w) && id !in w.escrows && s.active && s.spent == 0 && s.createdAt > 0
    ensures Solvent(Put(w, id, s, Account(0, 0, 0, []), w.balance + s.deposit))
  {
    PutKeepsSums(w, id, s, Account(0, 0, 0, []), w.balance + s.deposit);
  }

  lemma ReceiptIsSolvent(w: World, value: nat)
    requires Solvent(w)
    ensures Solvent(w.(balance := w.balance + value, received := w.received + value))
  {
    var w' := w.(balance := w.balance + value, received := w.received + value);
    TotalAgree(w.escrows.Keys, x => LockedIn(w, x), x => LockedIn(w', x));
    TotalAgree(w.escrows.Keys, x => AccountOf(w, x).fees, x => AccountOf(w', x).fees);
  }

  lemma ExecuteIsSolvent(owner: Address, w: World, c: Call)
    requires Solvent(w) && Timely(c) && !Execute(owner, w, c).Reverts?
    ensures Solvent(Execute(owner, w, c).world)
  {
    match c
    case OpenEscrow(sender, value, id, agentB, budgetLimit, verificationRequired, ttl, now) =>
      var session := Session(sender, agentB, value, budgetLimit, 0, verificationRequired, ttl, now, true, false);
      OpeningIsSolvent(w, id, session);
    case SettleBatch(_, id, _, totalAmount) => SpendIsSolvent(w, id, totalAmount);
    case ClaimStream(_, id, usageDelta, _) => SpendIsSolvent(w, id, usageDelta);
    case CloseEscrow(_, id) => CloseIsSolvent(w, id);
    case EmergencyClose(_, id) => CloseIsSolvent(w, id);
    case FreezeOnDispute(_, id) => FreezeIsSolvent(w, id);
    case Receive(value) => ReceiptIsSolvent(w, value);
  }

  ghost predicate AllSolvent(s: State) {
    Solvent(s.world) && forall i | 0 <= i < |s.frames| :: Solvent(s.frames[i])
  }

  lemma StepIsSolvent(owner: Address, s: State, e: Event)
    requires AllSolvent(s)
    ensures AllSolvent(Step(owner, s, e))
  {
    if e.Invoke? && Timely(e.call) && !Execute(owner, s.world, e.call).Reverts? {
      ExecuteIsSolvent(owner, s.world, e.call);
    }
  }

  /**
   Solvency over every run, at every depth of re-entrancy: the balance is what the active escrows
   still hold, plus the fees withheld, plus the ether sent in; no escrow spent more than its
   deposit or budget; and a closed escrow's payouts, fees and refund add up to its deposit.
   */
  lemma {:induction false} SolventForever(owner: Address, balance: nat, es: seq<Event>)
    ensures AllSolvent(Run(owner, Deployed(balance), es))
    decreases |es|
  {
    if |es| > 0 {
      SolventForever(owner, balance, es[..|es| - 1]);
      StepIsSolvent(owner, Run(owner, Deployed(balance), es[..|es| - 1]), es[|es| - 1]);
    }
  }

  /** In a reachable state a payout never fails for lack of ether: the checks alone decide. */
  lemma SettlementIsCovered(owner: Address, balance: nat, es: seq<Event>, sender: Address, id: EscrowId,
      receiptsHash: string, amount: nat)
    ensures var w := Run(owner, Deployed(balance), es).world;
            Execute(owner, w, SettleBatch(sender, id, receiptsHash, amount)).Pays?
            <==> id in w.escrows && CanSpend(w.escrows[id], amount)
  {
    SolventForever(owner, balance, es);
    var w := Run(owner, Deployed(balance), es).world;
    if id in w.escrows && CanSpend(w.escrows[id], amount) {
      SpendIsSolvent(w, id, amount);
    }
  }

  /** The escrow can pay the amount twice. */
  predicate CanSpendTwice(s: Session, amount: nat) {
    && CanSpend(s, amount)
    && s.spent + 2 * amount <= MAX_UINT256 && s.spent + 2 * amount <= Min(s.budgetLimit, s.deposit)
  }

  /**
   A receipts hash is not remembered: of two calls with the same hash and amount, one after the other, both
   pay exactly when deposit and budget hold the amount twice.
   */
  lemma SameRootPaysTwiceIff(owner: Address, balance: nat, es: seq<Event>, sender: Address, id: EscrowId,
      receiptsHash: string, amount: nat)
    ensures var call := SettleBatch(sender, id, receiptsHash, amount);
            var before := Run(owner, Deployed(balance), es).world;
            var between := Run(owner, Deployed(balance), es + [Invoke(call), Return(true)]).world;
            Execute(owner, before, call).Pays? && Execute(owner, between, call).Pays?
            <==> id in before.escrows && CanSpendTwice(before.escrows[id], amount)
  {
    var call := SettleBatch(sender, id, receiptsHash, amount);
    var s, more := Run(owner, Deployed(balance), es), [Invoke(call), Return(true)];
    SettlementIsCovered(owner, balance, es, sender, id, receiptsHash, amount);
    SettlementIsCovered(owner, balance, es + more, sender, id, receiptsHash, amount);
    RunAppend(owner, Deployed(balance), es, more);
    assert more[..1] == [Invoke(call)];
    assert Run(owner, s, more[..1]) == Step(owner, Run(owner, s, more[..1][..0]), Invoke(call));
    assert Run(owner, s, more) == Step(owner, Step(owner, s, Invoke(call)), Return(true));
  }

  /** In a reachable state the owner can always close an active escrow. */
  lemma RefundIsCovered(owner: Address, balance: nat, es: seq<Event>, id: EscrowId)
    ensures var w := Run(owner, Deployed(balance), es).world;
            !Execute(owner, w, EmergencyClose(owner, id)).Reverts? <==> id in w.escrows && w.escrows[id].active
  {
    SolventForever(owner, balance, es);
    var w := Run(owner, Deployed(balance), es).world;
    if id in w.escrows && w.escrows[id].active {
      CloseIsSolvent(w, id);
    }
  }

  // ---------------------------------------------------------------------------------------------
  // A closed escrow stays as it is
  // ---------------------------------------------------------------------------------------------

  predicate ClosedAs(w: World, id: EscrowId, s: Session, a: Account) {
    id in w.escrows && id in w.accounts && w.escrows[id] == s && w.accounts[id] == a && !s.active && s.createdAt != 0
  }

  predicate ClosedThroughout(st: State, id: EscrowId, s: Session, a: Account) {
    ClosedAs(st.world, id, s, a) && forall i | 0 <= i < |st.frames| :: ClosedAs(st.frames[i], id, s, a)
  }

  /** Once closed outside any payout, an escrow is never paid from, refunded or reopened again. */
  lemma {:induction false} ClosedIsFinal(owner: Address, st: State, id: EscrowId, es: seq<Event>)
    requires |st.frames| == 0 && id in st.world.escrows && id in st.world.accounts
    requires !st.world.escrows[id].active && st.world.escrows[id].createdAt != 0
    ensures ClosedThroughout(Run(owner, st, es), id, st.world.escrows[id], st.world.accounts[id])
    decreases |es|
  {
    if |es| > 0 {
      ClosedIsFinal(owner, st, id, es[..|es| - 1]);
    }
  }

  /**
   Of an amount that settleBatch would pay, the payee can claim at some time exactly when createdAt + ttl
   does not overflow; otherwise the expiry check reverts for every sender at every time.
   */
  lemma ClaimableIffExpiryFits(owner: Address, balance: nat, es: seq<Event>, id: EscrowId, usageDelta: nat)
    requires var w := Run(owner, Deployed(balance), es).world;
             id in w.escrows && CanSpend(w.escrows[id], usageDelta)
    ensures var w := Run(owner, Deployed(balance), es).world;
            (exists sender, now :: Execute(owner, w, ClaimStream(sender, id, usageDelta, now)).Pays?)
            <==> w.escrows[id].createdAt + w.escrows[id].ttl <= MAX_UINT256
  {
    SolventForever(owner, balance, es);
    var w := Run(owner, Deployed(balance), es).world;
    SpendIsSolvent(w, id, usageDelta);
    if w.escrows[id].createdAt + w.escrows[id].ttl <= MAX_UINT256 {
      assert Execute(owner, w, ClaimStream(w.escrows[id].agentB, id, usageDelta, w.escrows[id].createdAt)).Pays?;
    }
  }
}
