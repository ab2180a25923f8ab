/**
 What a withdrawal makes of the fee ledger, await by await: when it gets its chain's lock, the balance it
 sees, and the row it appends. The machine's own steps appear here only as what the other calls do in
 between.
 */
module FeeAnswer {
  import opened Base
  import opened FeeLedger

  /** Accruals less withdrawals of one chain. */
  function Available(entries: seq<Entry>, chainId: nat): int {
    if |entries| == 0 then 0
    else
      var front, e := entries[..|entries| - 1], entries[|entries| - 1];
      var amount: int := if e.Accrual? then e.amount else -(e.amount as int);
      Available(front, chainId) + if e.chainId == chainId then amount else 0
  }

  /** Another withdrawal has the lock of this chain, or of one that shares its key. */
  predicate IsBusy(s: State, chainId: nat) {
    exists d :: d in s.calls && s.calls[d].chainId % 0x8000_0000 == chainId % 0x8000_0000
                && (s.calls[d].phase.Locked? || s.calls[d].phase.Covered?)
  }

  function Put(s: State, c: nat, q: Call, phase: Phase): State {
    s.(calls := s.calls[c := q.(phase := phase)])
  }

  /** Under the lock: refused when the chain's balance is smaller, else appended. */
  function Decided(s: State, c: nat, q: Call, script: Script): (State, Option<WithdrawError>) {
    var o := Others(s, script.summing);
    var available := Available(o.entries, q.chainId);
    if q.amount > available then (Put(o, c, q, Insufficient(available)), Some(NotAvailable(available)))
    else
      var t := Others(Put(o, c, q, Covered), script.inserting);
      (Put(t, c, q, Withdrawn).(entries := t.entries + [Withdrawal(q.chainId, q.amount)]), None)
  }

  /** After each round of the others the lock is looked at; without it the call waits on. */
  function Locked(s: State, c: nat, q: Call, script: Script, rounds: seq<seq<Event>>): (State, Option<WithdrawError>)
    decreases |rounds|
  {
    if |rounds| == 0 then (s, Some(StillWaiting))
    else
      var o := Others(s, rounds[0]);
      if IsBusy(o, q.chainId) then Locked(o, c, q, script, rounds[1..])
      else Decided(Put(o, c, q, Phase.Locked), c, q, script)
  }

  function Answered(s: State, c: nat, chainId: nat, amount: nat, script: Script): (State, Option<WithdrawError>) {
    var q := Call(chainId, amount, Waiting);
    Locked(Put(s, c, q, Waiting), c, q, script, script.waiting)
  }

  // ---------------------------------------------------------------------------------------------
  // The machine does exactly this
  // ---------------------------------------------------------------------------------------------

  predicate StandsAt(s: State, c: nat, q: Call, phase: Phase) {
    c in s.calls && s.calls[c] == q.(phase := phase)
  }

  lemma {:induction false} AvailableIsDifference(entries: seq<Entry>, chainId: nat)
    ensures Available(entries, chainId) == Accrued(entries, chainId) - WithdrawnFrom(entries, chainId)
  {
    if |entries| > 0 {
      AvailableIsDifference(entries[..|entries| - 1], chainId);
    }
  }

  lemma Decides(s: State, c: nat, q: Call, script: Script)
    requires StandsAt(s, c, q, Phase.Locked) && ForeignScript(script, c)
    ensures var t := AfterCheck(s, c, script);
            c in t.calls && (t, ErrorOf(t.calls[c].phase)) == Decided(s, c, q, script)
  {
    OthersKeep(s, script.summing, c);
    var o, t := Others(s, script.summing), Step(Others(s, script.summing), Advance(c));
    AvailableIsDifference(o.entries, q.chainId);
    if t.calls[c].phase.Covered? {
      assert t == Put(o, c, q, Covered);
      OthersKeep(t, script.inserting, c);
    }
  }

  lemma {:induction false} Waits(s: State, c: nat, q: Call, script: Script, rounds: seq<seq<Event>>)
    requires StandsAt(s, c, q, Waiting) && AllRoundsForeign(rounds, c) && ForeignScript(script, c)
    ensures var t := AfterWaiting(s, c, rounds);
            var end := if t.calls[c].phase.Waiting? then t else AfterCheck(t, c, script);
            c in end.calls && (end, ErrorOf(end.calls[c].phase)) == Locked(s, c, q, script, rounds)
    decreases |rounds|
  {
    if |rounds| > 0 {
      OthersKeep(s, rounds[0], c);
      var o := Others(s, rounds[0]);
      assert IsBusy(o, q.chainId) <==> !LockIsFree(o, q.chainId);
      if IsBusy(o, q.chainId) {
        Waits(o, c, q, script, rounds[1..]);
      } else {
        Decides(Put(o, c, q, Phase.Locked), c, q, script);
      }
    }
  }

  /** A withdrawal of the machine ends exactly as told above: the same entries, the same answer. */
  lemma WithdrawAnswers(s: State, c: nat, chainId: nat, amount: nat, script: Script)
    requires c !in s.calls && amount > 0 && ForeignScript(script, c)
    ensures var end := Played(Step(s, Request(c, chainId, amount)), c, script);
            c in end.calls && (end, ErrorOf(end.calls[c].phase)) == Answered(s, c, chainId, amount, script)
  {
    Waits(Step(s, Request(c, chainId, amount)), c, Call(chainId, amount, Waiting), script, script.waiting);
  }
}
