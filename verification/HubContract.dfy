/**
 The contract's functions as they run, each from its first check to its end, with whatever the
 receiver of a payout does in the middle. What a call does to the contract is the function Perform;
 Perform is shown to be a run of the machine in EscrowHub, so its guarantees hold at every moment
 of a call.
 */
module HubContract {
  import opened Base
  import opened EscrowHub

  /** What the receiver of a payout does: calls into the hub, then accepts or fails. */
  datatype Reply = Reply(calls: seq<Message>, accepts: bool)

  datatype Message = Message(call: Call, reply: Reply)

  /** The state after a call and whether it succeeded; a failed call leaves no trace. */
  function Perform(owner: Address, w: World, m: Message): (World, bool)
    decreases m
  {
    if !Timely(m.call) then (w, false)
    else
      match Execute(owner, w, m.call)
      case Reverts => (w, false)
      case Ends(w') => (w', true)
      case Pays(w', _) => AfterPayout(owner, w, w', m.reply)
  }

  function AfterPayout(owner: Address, entry: World, paid: World, reply: Reply): (World, bool)
    decreases reply, |reply.calls| + 1
  {
    var w := PerformAll(owner, paid, reply, |reply.calls|);
    if reply.accepts then (w, true) else (entry, false)
  }

  /** The first `n` calls of a receiver, one after the other. */
  function PerformAll(owner: Address, w: World, reply: Reply, n: nat): World
    requires n <= |reply.calls|
    decreases reply, n
  {
    if n == 0 then w else Perform(owner, PerformAll(owner, w, reply, n - 1), reply.calls[n - 1]).0
  }

  // ---------------------------------------------------------------------------------------------
  // A call as a run of the machine
  // ---------------------------------------------------------------------------------------------

  function Events(owner: Address, w: World, m: Message): seq<Event>
    decreases m
  {
    [Invoke(m.call)] +
    if Timely(m.call) && Execute(owner, w, m.call).Pays?
    then EventsOfAll(owner, Execute(owner, w, m.call).world, m.reply, |m.reply.calls|) + [Return(m.reply.accepts)]
    else []
  }

  function EventsOfAll(owner: Address, w: World, reply: Reply, n: nat): seq<Event>
    requires n <= |reply.calls|
    decreases reply, n
  {
    if n == 0 then []
    else EventsOfAll(owner, w, reply, n - 1)
         + Events(owner, PerformAll(owner, w, reply, n - 1), reply.calls[n - 1])
  }

  lemma RunOne(owner: Address, s: State, e: Event)
    ensures Run(owner, s, [e]) == Step(owner, s, e)
  {
    assert Run(owner, s, [e]) == Step(owner, Run(owner, s, [e][..0]), e);
  }

  /** A call with everything that happens inside it is a run that ends at the same call depth. */
  lemma {:induction false} PerformIsRun(owner: Address, w: World, m: Message, frames: seq<World>)
    ensures Run(owner, State(w, frames), Events(owner, w, m)) == State(Perform(owner, w, m).0, frames)
    decreases m
  {
    var s, first := State(w, frames), Invoke(m.call);
    RunOne(owner, s, first);
    if Timely(m.call) && Execute(owner, w, m.call).Pays? {
      var paid, n := Execute(owner, w, m.call).world, |m.reply.calls|;
      var nested, last := EventsOfAll(owner, paid, m.reply, n), Return(m.reply.accepts);
      var inside := State(PerformAll(owner, paid, m.reply, n), frames + [w]);
      PerformAllIsRun(owner, paid, m.reply, n, frames + [w]);
      RunAppend(owner, s, [first], nested + [last]);
      RunAppend(owner, State(paid, frames + [w]), nested, [last]);
      RunOne(owner, inside, last);
      assert (frames + [w])[..|frames|] == frames;
    } else {
      assert Events(owner, w, m) == [first];
    }
  }

  lemma {:induction false} PerformAllIsRun(owner: Address, w: World, reply: Reply, n: nat, frames: seq<World>)
    requires n <= |reply.calls|
    ensures Run(owner, State(w, frames), EventsOfAll(owner, w, reply, n))
         == State(PerformAll(owner, w, reply, n), frames)
    decreases reply, n
  {
    if n > 0 {
      var before := PerformAll(owner, w, reply, n - 1);
      PerformAllIsRun(owner, w, reply, n - 1, frames);
      PerformIsRun(owner, before, reply.calls[n - 1], frames);
      RunAppend(owner, State(w, frames), EventsOfAll(owner, w, reply, n - 1),
                Events(owner, before, reply.calls[n - 1]));
    }
  }

  /** Whatever a caller does, however deep its receivers call back: a solvent hub stays solvent. */
  lemma PerformIsSolvent(owner: Address, w: World, m: Message)
    requires Solvent(w)
    ensures Solvent(Perform(owner, w, m).0)
    ensures !Perform(owner, w, m).1 ==> Perform(owner, w, m).0 == w
  {
    PerformIsRun(owner, w, m, []);
    RunIsSolvent(owner, State(w, []), Events(owner, w, m));
  }

  lemma {:induction false} RunIsSolvent(owner: Address, s: State, es: seq<Event>)
    requires AllSolvent(s)
    ensures AllSolvent(Run(owner, s, es))
    decreases |es|
  {
    if |es| > 0 {
      RunIsSolvent(owner, s, es[..|es| - 1]);
      StepIsSolvent(owner, Run(owner, s, es[..|es| - 1]), es[|es| - 1]);
    }
  }

  /** The world once the contract has sent this payment for an escrow. */
  ghost function Paying(w: World, id: EscrowId, p: Payment): World
    requires id in w.accounts && p.amount <= w.balance
  {
    var a := w.accounts[id];
    w.(balance := w.balance - p.amount, accounts := w.accounts[id := a.(payments := a.payments + [p])])
  }

  // ---------------------------------------------------------------------------------------------
  // The contract
  // ---------------------------------------------------------------------------------------------

  class Hub {
    const owner: Address
    var balance: nat
    var escrows: map<EscrowId, Session>
    ghost var accounts: map<EscrowId, Account>
    ghost var received: nat

    ghost function Now(): World
      reads this
    {
      World(balance, escrows, accounts, received)
    }

    constructor (owner: Address, balance: nat)
      ensures this.owner == owner && Now() == Deployed(balance).world
    {
      this.owner := owner;
      this.balance := balance;
      escrows := map[];
      accounts := map[];
      received := balance;
    }

    method OpenEscrow(sender: Address, value: nat, id: EscrowId, agentB: Address, budgetLimit: nat,
                      verificationRequired: bool, ttl: nat, now: nat, ghost reply: Reply)
      returns (ok: bool)
      requires now > 0
      modifies this
      ensures var call := Call.OpenEscrow(sender, value, id, agentB, budgetLimit, verificationRequired, ttl, now);
              (Now(), ok) == Perform(owner, old(Now()), Message(call, reply))
    {
      if id in escrows && escrows[id].createdAt != 0 {
        return false;
      }
      if value == 0 {
        return false;
      }
      if agentB == ZERO_ADDRESS {
        return false;
      }
      balance := balance + value;
      var session := Session(sender, agentB, value, budgetLimit, 0, verificationRequired, ttl, now, true, false);
      escrows := escrows[id := session];
      accounts := accounts[id := Account(0, 0, 0, [])];
      return true;
    }

    method SettleBatch(sender: Address, id: EscrowId, receiptsHash: string, totalAmount: nat, reply: Reply)
      returns (ok: bool)
      modifies this
      ensures (Now(), ok)
           == Perform(owner, old(Now()), Message(Call.SettleBatch(sender, id, receiptsHash, totalAmount), reply))
      decreases reply, |reply.calls| + 3
    {
      if id !in escrows || !escrows[id].active {
        return false;
      }
      var session := escrows[id];
      if session.disputed {
        return false;
      }
      if session.spent + totalAmount > MAX_UINT256 || session.spent + totalAmount > session.budgetLimit {
        return false;
      }
      if session.spent + totalAmount > session.deposit || totalAmount * FEE_PERCENT > MAX_UINT256 {
        return false;
      }
      ok := Disburse(id, session, totalAmount, reply);
    }

    method ClaimStream(sender: Address, id: EscrowId, usageDelta: nat, now: nat, reply: Reply) returns (ok: bool)
      modifies this
      ensures (Now(), ok) == Perform(owner, old(Now()), Message(Call.ClaimStream(sender, id, usageDelta, now), reply))
      decreases reply, |reply.calls| + 3
    {
      if id !in escrows || !escrows[id].active {
        return false;
      }
      var session := escrows[id];
      if session.disputed {
        return false;
      }
      if sender != session.agentB {
        return false;
      }
      if session.createdAt + session.ttl > MAX_UINT256 || now > session.createdAt + session.ttl {
        return false;
      }
      if session.spent + usageDelta > MAX_UINT256 || session.spent + usageDelta > session.budgetLimit {
        return false;
      }
      if session.spent + usageDelta > session.deposit || usageDelta * FEE_PERCENT > MAX_UINT256 {
        return false;
      }
      ok := Disburse(id, session, usageDelta, reply);
    }

    /** The tail of settleBatch and claimStream: the fee, `spent`, then the payout to agent B. */
    method Disburse(id: EscrowId, session: Session, amount: nat, reply: Reply) returns (ok: bool)
      requires id in escrows && escrows[id] == session
      modifies this
      ensures match Spend(old(Now()), id, amount)
              case Pays(paid, _) => (Now(), ok) == AfterPayout(owner, old(Now()), paid, reply)
              case _ => Now() == old(Now()) && !ok
      decreases reply, |reply.calls| + 2
    {
      FeeIsPart(amount);
      var fee := FeeOf(amount);
      var payout := amount - fee;
      var entry, funds := escrows, balance;
      ghost var world := Now();
      ghost var account := AccountOf(world, id);
      escrows := escrows[id := session.(spent := session.spent + amount)];
      accounts := accounts[id := account.(paid := account.paid + payout, fees := account.fees + fee)];
      assert payout <= balance ==>
        Paying(Now(), id, Payment(session.agentB, payout)) == Spend(world, id, amount).world;
      ok := Transfer(id, session.agentB, payout, entry, funds, reply, world);
    }

    /**
     `(bool sent, ) = to.call{value: amount}("")` and the `require(sent)` after it. `entry` and
     `funds` are what the whole call goes back to when the transfer fails.
     */
    method Transfer(ghost id: EscrowId, to: Address, amount: nat, entry: map<EscrowId, Session>, funds: nat,
                    reply: Reply, ghost world: World)
      returns (sent: bool)
      requires id in accounts
      requires world.balance == funds && world.escrows == entry
      modifies this
      ensures if amount > old(balance) then Now() == world && !sent
              else (Now(), sent) == AfterPayout(owner, world, Paying(old(Now()), id, Payment(to, amount)), reply)
      decreases reply, |reply.calls| + 1
    {
      sent := false;
      if amount <= balance {
        ghost var account := accounts[id];
        balance := balance - amount;
        accounts := accounts[id := account.(payments := account.payments + [Payment(to, amount)])];
        ghost var paid := Now();
        for i := 0 to |reply.calls|
          invariant Now() == PerformAll(owner, paid, reply, i)
        {
          var done := Dispatch(reply.calls[i]);
        }
        sent := reply.accepts;
      }
      if !sent {
        escrows, balance := entry, funds;
        accounts, received := world.accounts, world.received;
      }
    }

    method CloseEscrow(sender: Address, id: EscrowId, reply: Reply) returns (ok: bool)
      modifies this
      ensures (Now(), ok) == Perform(owner, old(Now()), Message(Call.CloseEscrow(sender, id), reply))
      decreases reply, |reply.calls| + 3
    {
      if id !in escrows || !escrows[id].active {
        return false;
      }
      if sender != escrows[id].agentA {
        return false;
      }
      ok := Refund(id, escrows[id], reply);
    }

    method EmergencyClose(sender: Address, id: EscrowId, reply: Reply) returns (ok: bool)
      modifies this
      ensures (Now(), ok) == Perform(owner, old(Now()), Message(Call.EmergencyClose(sender, id), reply))
      decreases reply, |reply.calls| + 3
    {
      if sender != owner {
        return false;
      }
      if id !in escrows || !escrows[id].active {
        return false;
      }
      ok := Refund(id, escrows[id], reply);
    }

    /** The tail of closeEscrow and emergencyClose: deactivate, then refund agent A what is left. */
    method Refund(id: EscrowId, session: Session, reply: Reply) returns (ok: bool)
      requires id in escrows && escrows[id] == session
      modifies this
      ensures match Close(old(Now()), id)
              case Reverts => Now() == old(Now()) && !ok
              case Ends(w) => Now() == w && ok
              case Pays(paid, _) => (Now(), ok) == AfterPayout(owner, old(Now()), paid, reply)
      decreases reply, |reply.calls| + 2
    {
      if session.spent > session.deposit {
        return false;
      }
      var entry, funds := escrows, balance;
      ghost var world := Now();
      ghost var account := AccountOf(world, id);
      var refund := session.deposit - session.spent;
      escrows := escrows[id := session.(active := false)];
      accounts := accounts[id := account.(refunded := account.refunded + refund)];
      ok := true;
      if refund > 0 {
        assert refund <= balance ==> Paying(Now(), id, Payment(session.agentA, refund)) == Close(world, id).world;
        ok := Transfer(id, session.agentA, refund, entry, funds, reply, world);
      } else {
        assert account.(refunded := account.refunded + 0) == account;
      }
    }

    method FreezeOnDispute(sender: Address, id: EscrowId, ghost reply: Reply) returns (ok: bool)
      modifies this
      ensures (Now(), ok) == Perform(owner, old(Now()), Message(Call.FreezeOnDispute(sender, id), reply))
    {
      if id !in escrows || !escrows[id].active {
        return false;
      }
      escrows := escrows[id := escrows[id].(disputed := true)];
      return true;
    }

    /** Plain ether sent to the contract. */
    method ReceiveEther(value: nat, ghost reply: Reply) returns (ok: bool)
      modifies this
      ensures (Now(), ok) == Perform(owner, old(Now()), Message(Call.Receive(value), reply))
    {
      balance := balance + value;
      received := received + value;
      ok := true;
    }

    /** Any call from outside, the receivers' calls back included. */
    method Dispatch(message: Message) returns (ok: bool)
      modifies this
      ensures (Now(), ok) == Perform(owner, old(Now()), message)
      decreases message
    {
      var reply := message.reply;
      match message.call
      case OpenEscrow(sender, value, id, agentB, budgetLimit, verificationRequired, ttl, now) =>
        ok := false;
        if now > 0 {
          ok := OpenEscrow(sender, value, id, agentB, budgetLimit, verificationRequired, ttl, now, reply);
        }
      case SettleBatch(sender, id, receiptsHash, totalAmount) =>
        ok := SettleBatch(sender, id, receiptsHash, totalAmount, reply);
      case ClaimStream(sender, id, usageDelta, now) => ok := ClaimStream(sender, id, usageDelta, now, reply);
      case CloseEscrow(sender, id) => ok := CloseEscrow(sender, id, reply);
      case EmergencyClose(sender, id) => ok := EmergencyClose(sender, id, reply);
      case FreezeOnDispute(sender, id) => ok := FreezeOnDispute(sender, id, reply);
      case Receive(value) => ok := ReceiveEther(value, reply);
    }
  }
}
