/**
 The fee ledger: accruals of settled settlements and withdrawals, appended to one table by concurrent
 calls. A withdrawal sums and inserts under a lock of its chain; an accrual takes no lock, but the table
 holds at most one for each settlement.
 */
module FeeLedger {
  import opened Base

  const LOCK_KEYS: nat := 0x8000_0000

  /** A ledger row: an accrual of a settlement, or a withdrawal. */
  datatype Entry = Accrual(chainId: nat, amount: nat, settlementId: string) | Withdrawal(chainId: nat, amount: nat)

  datatype Phase = Waiting | Locked | Covered | Withdrawn | Insufficient(available: int)

  /** A withdrawal in progress. */
  datatype Call = Call(chainId: nat, amount: nat, phase: Phase)

  datatype State = State(entries: seq<Entry>, calls: map<nat, Call>)

  datatype Event =
    | Accrue(chainId: nat, settlementId: string, fee: Option<nat>)
    | Request(call: nat, chainId: nat, amount: int)
    | Advance(call: nat)

  // ---------------------------------------------------------------------------------------------
  // Statements
  // ---------------------------------------------------------------------------------------------

  function Accrued(entries: seq<Entry>, chainId: nat): nat {
    if |entries| == 0 then 0
    else
      var last := entries[|entries| - 1];
      Accrued(entries[..|entries| - 1], chainId) + if last.Accrual? && last.chainId == chainId then last.amount else 0
  }

  function WithdrawnFrom(entries: seq<Entry>, chainId: nat): nat {
    if |entries| == 0 then 0
    else
      var last := entries[|entries| - 1];
      WithdrawnFrom(entries[..|entries| - 1], chainId)
      + if last.Withdrawal? && last.chainId == chainId then last.amount else 0
  }

  /** The unique index on settlementId already holds it. */
  predicate HasAccrued(entries: seq<Entry>, settlementId: string) {
    exists i :: 0 <= i < |entries| && entries[i].Accrual? && entries[i].settlementId == settlementId
  }

  predicate HoldsLock(phase: Phase) {
    phase.Locked? || phase.Covered?
  }

  /** pg_advisory_xact_lock: chains that share a key wait for each other. */
  predicate LockIsFree(s: State, chainId: nat) {
    forall c | c in s.calls :: s.calls[c].chainId % LOCK_KEYS == chainId % LOCK_KEYS ==> !HoldsLock(s.calls[c].phase)
  }

  function MoveTo(s: State, c: nat, phase: Phase): State
    requires c in s.calls
  {
    s.(calls := s.calls[c := s.calls[c].(phase := phase)])
  }

  /** accrue: nothing for a missing or zero fee, nothing when the settlement has accrued already. */
  function AfterAccrue(entries: seq<Entry>, chainId: nat, settlementId: string, fee: Option<nat>): seq<Entry> {
    if fee.None? || fee.value == 0 || HasAccrued(entries, settlementId) then entries
    else entries + [Accrual(chainId, fee.value, settlementId)]
  }

  function Advanced(s: State, c: nat): State
    requires c in s.calls
  {
    var call := s.calls[c];
    match call.phase
    case Waiting => if LockIsFree(s, call.chainId) then MoveTo(s, c, Locked) else s
    case Locked =>
      if call.amount > Accrued(s.entries, call.chainId) - WithdrawnFrom(s.entries, call.chainId)
      then MoveTo(s, c, Insufficient(Accrued(s.entries, call.chainId) - WithdrawnFrom(s.entries, call.chainId)))
      else MoveTo(s, c, Covered)
    case Covered => MoveTo(s, c, Withdrawn).(entries := s.entries + [Withdrawal(call.chainId, call.amount)])
    case _ => s
  }

  function Step(s: State, e: Event): State {
    match e
    case Accrue(chainId, settlementId, fee) =>
      s.(entries := AfterAccrue(s.entries, chainId, settlementId, fee))
    case Request(c, chainId, amount) =>
      if c in s.calls || amount <= 0 then s else s.(calls := s.calls[c := Call(chainId, amount, Waiting)])
    case Advance(c) => if c in s.calls then Advanced(s, c) else s
  }

  const START := State([], map[])

  function Run(es: seq<Event>): State
    decreases |es|
  {
    if |es| == 0 then START else Step(Run(es[..|es| - 1]), es[|es| - 1])
  }

  lemma RunSnoc(es: seq<Event>, e: Event)
    ensures Run(es + [e]) == Step(Run(es), e)
  {
    assert (es + [e])[..|es|] == es;
  }

  // ---------------------------------------------------------------------------------------------
  // The invariant
  // ---------------------------------------------------------------------------------------------

  predicate AccruedOnce(entries: seq<Entry>) {
    forall i, j | 0 <= i < j < |entries| :: entries[i].Accrual? && entries[j].Accrual? ==>
      entries[i].settlementId != entries[j].settlementId
  }

  ghost predicate ChainIsCovered(s: State, chainId: nat) {
    WithdrawnFrom(s.entries, chainId) <= Accrued(s.entries, chainId)
  }

  /** A checked withdrawal still fits. */
  predicate CallIsCovered(s: State, c: nat)
    requires c in s.calls
  {
    var call := s.calls[c];
    call.phase.Covered? ==> WithdrawnFrom(s.entries, call.chainId) + call.amount <= Accrued(s.entries, call.chainId)
  }

  ghost predicate LockIsExclusive(s: State) {
    forall c, d | c in s.calls && d in s.calls && c != d && s.calls[c].chainId == s.calls[d].chainId ::
      !(HoldsLock(s.calls[c].phase) && HoldsLock(s.calls[d].phase))
  }

  ghost predicate Inv(s: State) {
    && AccruedOnce(s.entries)
    && (forall chainId :: ChainIsCovered(s, chainId))
    && (forall c | c in s.calls :: CallIsCovered(s, c))
    && LockIsExclusive(s)
  }

  lemma TotalsSnoc(entries: seq<Entry>, e: Entry, chainId: nat)
    ensures Accrued(entries + [e], chainId)
         == Accrued(entries, chainId) + if e.Accrual? && e.chainId == chainId then e.amount else 0
    ensures WithdrawnFrom(entries + [e], chainId)
         == WithdrawnFrom(entries, chainId) + if e.Withdrawal? && e.chainId == chainId then e.amount else 0
  {
    assert (entries + [e])[..|entries|] == entries;
  }

  lemma AccrualKeepsInv(s: State, e: Entry)
    requires Inv(s) && e.Accrual? && !HasAccrued(s.entries, e.settlementId)
    ensures Inv(s.(entries := s.entries + [e]))
  {
    var t := s.(entries := s.entries + [e]);
    forall chainId
      ensures ChainIsCovered(t, chainId)
    {
      assert ChainIsCovered(s, chainId);
      TotalsSnoc(s.entries, e, chainId);
    }
    forall c | c in t.calls
      ensures CallIsCovered(t, c)
    {
      assert CallIsCovered(s, c);
      TotalsSnoc(s.entries, e, s.calls[c].chainId);
    }
  }

  lemma MoveKeepsInv(s: State, c: nat, phase: Phase)
    requires Inv(s) && c in s.calls
    requires HoldsLock(phase) ==> HoldsLock(s.calls[c].phase) || LockIsFree(s, s.calls[c].chainId)
    requires var call := s.calls[c];
             phase.Covered? ==>
               WithdrawnFrom(s.entries, call.chainId) + call.amount <= Accrued(s.entries, call.chainId)
    ensures Inv(MoveTo(s, c, phase))
  {
    var t := MoveTo(s, c, phase);
    forall chainId
      ensures ChainIsCovered(t, chainId)
    {
      assert ChainIsCovered(s, chainId);
    }
    forall d | d in t.calls
      ensures CallIsCovered(t, d)
    {
      assert CallIsCovered(s, d);
    }
  }

  lemma WithdrawalKeepsInv(s: State, c: nat)
    requires Inv(s) && c in s.calls && s.calls[c].phase.Covered?
    ensures Inv(Advanced(s, c))
  {
    var t, e := Advanced(s, c), Withdrawal(s.calls[c].chainId, s.calls[c].amount);
    assert CallIsCovered(s, c);
    forall chainId
      ensures ChainIsCovered(t, chainId)
    {
      assert ChainIsCovered(s, chainId);
      TotalsSnoc(s.entries, e, chainId);
    }
    forall d | d in t.calls
      ensures CallIsCovered(t, d)
    {
      assert CallIsCovered(s, d);
      TotalsSnoc(s.entries, e, s.calls[d].chainId);
    }
  }

  lemma StepKeepsInv(s: State, e: Event)
    requires Inv(s)
    ensures Inv(Step(s, e))
  {
    match e
    case Accrue(chainId, settlementId, fee) =>
      if fee.Some? && fee.value != 0 && !HasAccrued(s.entries, settlementId) {
        AccrualKeepsInv(s, Accrual(chainId, fee.value, settlementId));
      }
    case Request(c, chainId, amount) =>
      if c !in s.calls && amount > 0 {
        NewCallKeepsInv(s, c, Call(chainId, amount, Waiting));
      }
    case Advance(c) =>
      if c in s.calls {
        var call := s.calls[c];
        match call.phase
        case Waiting => if LockIsFree(s, call.chainId) { MoveKeepsInv(s, c, Locked); }
        case Locked => MoveKeepsInv(s, c, Advanced(s, c).calls[c].phase);
        case Covered => WithdrawalKeepsInv(s, c);
        case _ =>
      }
  }

  lemma NewCallKeepsInv(s: State, c: nat, call: Call)
    requires Inv(s) && c !in s.calls && call.phase.Waiting?
    ensures Inv(s.(calls := s.calls[c := call]))
  {
    var t := s.(calls := s.calls[c := call]);
    forall chainId
      ensures ChainIsCovered(t, chainId)
    {
      assert ChainIsCovered(s, chainId);
    }
    forall d | d in t.calls
      ensures CallIsCovered(t, d)
    {
      if d != c { assert CallIsCovered(s, d); }
    }
  }

  lemma {:induction false} RunKeepsInv(es: seq<Event>)
    ensures Inv(Run(es))
    decreases |es|
  {
    if |es| > 0 {
      RunKeepsInv(es[..|es| - 1]);
      StepKeepsInv(Run(es[..|es| - 1]), es[|es| - 1]);
    } else {
      assert forall chainId :: ChainIsCovered(START, chainId);
    }
  }

  /**
   In every interleaving no chain pays out more than it accrued, and each settlement accrues at most
   once, on whichever chain.
   */
  lemma NeverOverdrawn(es: seq<Event>, chainId: nat)
    ensures WithdrawnFrom(Run(es).entries, chainId) <= Accrued(Run(es).entries, chainId)
    ensures AccruedOnce(Run(es).entries)
  {
    RunKeepsInv(es);
    assert ChainIsCovered(Run(es), chainId);
  }

  // ---------------------------------------------------------------------------------------------
  // The ledger as it runs
  // ---------------------------------------------------------------------------------------------

  predicate Foreign(e: Event, c: nat) {
    match e
    case Accrue(_, _, _) => true
    case Request(d, _, _) => d != c
    case Advance(d) => d != c
  }

  predicate AllForeign(es: seq<Event>, c: nat) {
    forall i | 0 <= i < |es| :: Foreign(es[i], c)
  }

  predicate AllRoundsForeign(rounds: seq<seq<Event>>, c: nat) {
    forall i | 0 <= i < |rounds| :: AllForeign(rounds[i], c)
  }

  /** What others do each time the lock is looked at, before the sums and before the insert. */
  datatype Script = Script(waiting: seq<seq<Event>>, summing: seq<Event>, inserting: seq<Event>)

  predicate ForeignScript(script: Script, c: nat) {
    AllRoundsForeign(script.waiting, c) && AllForeign(script.summing, c) && AllForeign(script.inserting, c)
  }

  lemma ForeignStepKeeps(s: State, e: Event, c: nat)
    requires c in s.calls && Foreign(e, c)
    ensures c in Step(s, e).calls && Step(s, e).calls[c] == s.calls[c]
  {
  }

  function Others(s: State, es: seq<Event>): State
    decreases |es|
  {
    if |es| == 0 then s else Step(Others(s, es[..|es| - 1]), es[|es| - 1])
  }

  lemma OthersSnoc(s: State, es: seq<Event>, k: nat)
    requires k < |es|
    ensures Others(s, es[..k + 1]) == Step(Others(s, es[..k]), es[k])
  {
    assert es[..k + 1][..k] == es[..k];
  }

  lemma {:induction false} OthersKeep(s: State, es: seq<Event>, c: nat)
    requires c in s.calls && AllForeign(es, c)
    ensures c in Others(s, es).calls && Others(s, es).calls[c] == s.calls[c]
    decreases |es|
  {
    if |es| > 0 {
      OthersKeep(s, es[..|es| - 1], c);
      ForeignStepKeeps(Others(s, es[..|es| - 1]), es[|es| - 1], c);
    }
  }

  /** The lock is looked at once after each round; when no round is left the call still waits. */
  function AfterWaiting(s: State, c: nat, rounds: seq<seq<Event>>): (t: State)
    requires c in s.calls && s.calls[c].phase.Waiting? && AllRoundsForeign(rounds, c)
    ensures c in t.calls && (t.calls[c].phase.Waiting? || t.calls[c].phase.Locked?)
    decreases |rounds|
  {
    if |rounds| == 0 then s
    else
      OthersKeep(s, rounds[0], c);
      var t := Step(Others(s, rounds[0]), Advance(c));
      if t.calls[c].phase.Waiting? then AfterWaiting(t, c, rounds[1..]) else t
  }

  /** The check and the insert under the lock. */
  function AfterCheck(s: State, c: nat, script: Script): State
    requires c in s.calls && s.calls[c].phase.Locked? && ForeignScript(script, c)
  {
    OthersKeep(s, script.summing, c);
    var t := Step(Others(s, script.summing), Advance(c));
    if t.calls[c].phase.Covered? then Step(Others(t, script.inserting), Advance(c)) else t
  }

  function Played(s: State, c: nat, script: Script): State
    requires c in s.calls && s.calls[c].phase.Waiting? && ForeignScript(script, c)
  {
    var t := AfterWaiting(s, c, script.waiting);
    if t.calls[c].phase.Waiting? then t else AfterCheck(t, c, script)
  }

  datatype WithdrawError = BadAmount | NotAvailable(available: int) | StillWaiting

  /** What the caller is told in the phase its call ended in. */
  function ErrorOf(phase: Phase): Option<WithdrawError> {
    match phase
    case Withdrawn => None
    case Insufficient(available) => Some(NotAvailable(available))
    case _ => Some(StillWaiting)
  }

  class FeeLedger {
    var entries: seq<Entry>
    var calls: map<nat, Call>
    ghost var history: seq<Event>

    function Machine(): State
      reads this
    {
      State(entries, calls)
    }

    ghost predicate Valid()
      reads this
    {
      Machine() == Run(history)
    }

    constructor ()
      ensures Valid() && entries == []
    {
      entries, calls, history := [], map[], [];
    }

    /** Records the event that led from `before` to what the fields now show. */
    ghost method Log(e: Event, before: State)
      requires before == Run(history) && Machine() == Step(before, e)
      modifies this`history
      ensures Valid() && history == old(history) + [e]
    {
      RunSnoc(history, e);
      history := history + [e];
    }

    /** The others act. */
    method Meanwhile(es: seq<Event>, c: nat)
      requires Valid() && c in calls && AllForeign(es, c)
      modifies this
      ensures Valid() && old(history) <= history && Machine() == Others(old(Machine()), es)
      ensures c in calls && calls[c] == old(calls[c])
    {
      for k := 0 to |es|
        invariant Valid() && old(history) <= history && Machine() == Others(old(Machine()), es[..k])
      {
        ghost var before := Machine();
        OthersSnoc(old(Machine()), es, k);
        var t := Step(Machine(), es[k]);
        entries, calls := t.entries, t.calls;
        Log(es[k], before);
      }
      assert es[..|es|] == es;
      OthersKeep(old(Machine()), es, c);
    }

    /** accrue: true when a row was booked. */
    method BookFee(chainId: nat, settlementId: string, fee: Option<nat>) returns (booked: bool)
      requires Valid()
      modifies this
      ensures Valid() && calls == old(calls)
      ensures booked <==> fee.Some? && fee.value > 0 && !HasAccrued(old(entries), settlementId)
      ensures entries == if booked then old(entries) + [Accrual(chainId, fee.value, settlementId)] else old(entries)
    {
      ghost var before := Machine();
      booked := fee.Some? && fee.value > 0 && !HasAccrued(entries, settlementId);
      if booked {
        entries := entries + [Accrual(chainId, fee.value, settlementId)];
      }
      Log(Accrue(chainId, settlementId, fee), before);
    }

    /** totals. */
    method Totals(chainId: nat) returns (accrued: nat, withdrawn: nat)
      ensures accrued == Accrued(entries, chainId) && withdrawn == WithdrawnFrom(entries, chainId)
      ensures entries == [] ==> accrued == withdrawn == 0
    {
      accrued, withdrawn := 0, 0;
      for i := 0 to |entries|
        invariant accrued == Accrued(entries[..i], chainId) && withdrawn == WithdrawnFrom(entries[..i], chainId)
      {
        assert entries[..i + 1] == entries[..i] + [entries[i]];
        TotalsSnoc(entries[..i], entries[i], chainId);
        if entries[i].chainId == chainId {
          if entries[i].Accrual? {
            accrued := accrued + entries[i].amount;
          } else {
            withdrawn := withdrawn + entries[i].amount;
          }
        }
      }
      assert entries[..|entries|] == entries;
    }

    /** One look at the chain's lock. */
    method LookAtLock(c: nat, meanwhile: seq<Event>) returns (locked: bool)
      requires Valid() && c in calls && calls[c].phase.Waiting? && AllForeign(meanwhile, c)
      modifies this
      ensures Valid() && c in calls && old(history) <= history
      ensures Machine() == Step(Others(old(Machine()), meanwhile), Advance(c))
      ensures calls[c] == old(calls[c]).(phase := if locked then Locked else Waiting)
    {
      Meanwhile(meanwhile, c);
      ghost var before := Machine();
      locked := LockIsFree(Machine(), calls[c].chainId);
      if locked {
        calls := calls[c := calls[c].(phase := Locked)];
      }
      Log(Advance(c), before);
    }

    /** Waits for the chain's lock. */
    method TakeLock(c: nat, waiting: seq<seq<Event>>) returns (locked: bool)
      requires Valid() && c in calls && calls[c].phase.Waiting? && AllRoundsForeign(waiting, c)
      modifies this
      ensures Valid() && c in calls && old(history) <= history
      ensures Machine() == AfterWaiting(old(Machine()), c, waiting)
      ensures calls[c] == old(calls[c]).(phase := if locked then Locked else Waiting)
    {
      locked := false;
      var i := 0;
      while i < |waiting| && !locked
        invariant 0 <= i <= |waiting| && Valid() && old(history) <= history
        invariant c in calls && calls[c] == old(calls[c]).(phase := if locked then Locked else Waiting)
        invariant locked ==> Machine() == AfterWaiting(old(Machine()), c, waiting)
        invariant !locked ==> AfterWaiting(Machine(), c, waiting[i..]) == AfterWaiting(old(Machine()), c, waiting)
      {
        assert waiting[i..][0] == waiting[i] && waiting[i..][1..] == waiting[i + 1..];
        locked := LookAtLock(c, waiting[i]);
        i := i + 1;
      }
    }

    /** The check under the lock; `available` is what the caller is told when it is too little. */
    method Check(c: nat) returns (available: int)
      requires Valid() && c in calls && calls[c].phase.Locked?
      modifies this
      ensures Valid() && c in calls && old(history) <= history
      ensures Machine() == Step(old(Machine()), Advance(c))
      ensures available == Accrued(entries, calls[c].chainId) - WithdrawnFrom(entries, calls[c].chainId)
      ensures calls[c] == old(calls[c]).(phase :=
                if calls[c].amount > available then Insufficient(available) else Covered)
    {
      ghost var before := Machine();
      var accrued: int, withdrawn: int := Totals(calls[c].chainId);
      available := accrued - withdrawn;
      calls := calls[c := calls[c].(phase := if calls[c].amount > available then Insufficient(available) else Covered)];
      Log(Advance(c), before);
    }

    /** The row of the withdrawal. */
    method Insert(c: nat)
      requires Valid() && c in calls && calls[c].phase.Covered?
      modifies this
      ensures Valid() && c in calls && old(history) <= history
      ensures Machine() == Step(old(Machine()), Advance(c))
      ensures calls[c] == old(calls[c]).(phase := Withdrawn)
      ensures entries == old(entries) + [Withdrawal(calls[c].chainId, calls[c].amount)]
    {
      ghost var before := Machine();
      entries := entries + [Withdrawal(calls[c].chainId, calls[c].amount)];
      calls := calls[c := calls[c].(phase := Withdrawn)];
      Log(Advance(c), before);
    }

    /** The check and the insert, under the lock. */
    method WithdrawLocked(c: nat, script: Script) returns (error: Option<WithdrawError>)
      requires Valid() && c in calls && calls[c].phase.Locked? && ForeignScript(script, c)
      modifies this
      ensures Valid() && c in calls && old(history) <= history
      ensures Machine() == AfterCheck(old(Machine()), c, script)
      ensures error == ErrorOf(calls[c].phase) && calls[c] == old(calls[c]).(phase := calls[c].phase)
      ensures error.None? ==> |entries| > 0 && entries[|entries| - 1] == Withdrawal(calls[c].chainId, calls[c].amount)
      ensures error.Some? && error.value.NotAvailable? ==> error.value.available < calls[c].amount
    {
      Meanwhile(script.summing, c);
      var available := Check(c);
      if calls[c].phase.Insufficient? {
        return Some(NotAvailable(available));
      }
      Meanwhile(script.inserting, c);
      Insert(c);
      return None;
    }

    /** withdraw: the state and the answer are those the script gives on the state it is called in. */
    method Withdraw(c: nat, chainId: nat, amount: int, script: Script) returns (error: Option<WithdrawError>)
      requires Valid() && c !in calls && ForeignScript(script, c)
      modifies this
      ensures Valid() && old(history) <= history
      ensures amount <= 0 ==> error == Some(BadAmount) && Machine() == old(Machine())
      ensures amount > 0 ==>
                && c in calls && Machine() == Played(Step(old(Machine()), Request(c, chainId, amount)), c, script)
                && error == ErrorOf(calls[c].phase)
      ensures error.None? ==> |entries| > 0 && entries[|entries| - 1] == Withdrawal(chainId, amount)
      ensures error.Some? && error.value.NotAvailable? ==> error.value.available < amount
    {
      if amount <= 0 {
        return Some(BadAmount);
      }
      ghost var before := Machine();
      calls := calls[c := Call(chainId, amount, Waiting)];
      Log(Request(c, chainId, amount), before);
      var locked := TakeLock(c, script.waiting);
      if !locked {
        return Some(StillWaiting);
      }
      error := WithdrawLocked(c, script);
    }
  }
}
