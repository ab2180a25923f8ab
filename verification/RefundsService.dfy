/**
 The refunds service as it runs on one escrow: `Refund` issues its statements one by one while other
 requests, the chain and the ledger move at every `await`. What a script makes of a state is the
 function Play of the machine in Refunds; every method is shown to compute it.
 */
module RefundsService {
  import opened Base
  import opened Refunds
  import opened Sessions

  /** What others do before a step takes effect, and whether it succeeds. */
  datatype Await = Await(meanwhile: seq<Event>, succeeds: bool)

  datatype Script = Script(
    find: Await, look: Await, sum: Await, insert: Await, refetch: Await, send: Await, wait: Await, save: Await,
    mark: Await)

  datatype Outcome = Refunded(status: RefundStatus) | Conflict | Threw

  // ---------------------------------------------------------------------------------------------
  // A script played on the machine
  // ---------------------------------------------------------------------------------------------

  predicate Foreign(e: Event, c: nat) {
    match e
    case Request(d) => d != c
    case Advance(d, _) => d != c
    case _ => true
  }

  predicate AllForeign(es: seq<Event>, c: nat) {
    forall i | 0 <= i < |es| :: Foreign(es[i], c)
  }

  predicate ForeignScript(script: Script, c: nat) {
    && AllForeign(script.find.meanwhile, c) && AllForeign(script.look.meanwhile, c)
    && AllForeign(script.sum.meanwhile, c) && AllForeign(script.insert.meanwhile, c)
    && AllForeign(script.refetch.meanwhile, c) && AllForeign(script.send.meanwhile, c)
    && AllForeign(script.wait.meanwhile, c) && AllForeign(script.save.meanwhile, c)
    && AllForeign(script.mark.meanwhile, c)
  }

  function Others(s: State, es: seq<Event>): State
    decreases |es|
  {
    if |es| == 0 then s else Step(Others(s, es[..|es| - 1]), es[|es| - 1])
  }

  lemma ForeignStepKeeps(s: State, e: Event, c: nat)
    requires c in s.calls && Foreign(e, c)
    ensures c in Step(s, e).calls && Step(s, e).calls[c] == s.calls[c]
  {
  }

  lemma {:induction false} OthersKeep(s: State, es: seq<Event>, c: nat)
    requires c in s.calls && AllForeign(es, c)
    ensures c in Others(s, es).calls && Others(s, es).calls[c] == s.calls[c]
    decreases |es|
  {
    if |es| > 0 {
      OthersKeep(s, es[..|es| - 1], c);
      ForeignStepKeeps(Others(s, es[..|es| - 1]), es[|es| - 1], c);
    }
  }

  predicate Ended(phase: Phase) {
    phase.Done? || phase.NotRefundable? || phase.Threw?
  }

  function AwaitAt(script: Script, phase: Phase): Await {
    match phase
    case Finding => script.find
    case Looking => script.look
    case Summing => script.sum
    case Inserting(_) => script.insert
    case Refetching => script.refetch
    case Sending => script.send
    case Waiting => script.wait
    case Saving(_) => script.save
    case _ => script.mark
  }

  /** The step's answer: a wait returns only when its transaction has succeeded, and else gives up. */
  predicate Answers(s: State, c: nat, await: Await) {
    await.succeeds && (c in s.calls && s.calls[c].Waiting? ==> c in s.txs && s.txs[c].Succeeded?)
  }

  /** The others act, then the call's step takes effect. */
  function Next(s: State, c: nat, await: Await): State {
    var o := Others(s, await.meanwhile);
    Step(o, Advance(c, Answers(o, c, await)))
  }

  function Rank(phase: Phase): nat {
    match phase
    case Finding => 9
    case Looking => 8
    case Summing => 7
    case Inserting(_) => 6
    case Refetching => 5
    case Sending => 4
    case Waiting => 3
    case Saving(_) => 2
    case Marking => 1
    case _ => 0
  }

  lemma NextAdvances(s: State, c: nat, await: Await)
    requires c in s.calls && AllForeign(await.meanwhile, c) && !Ended(s.calls[c])
    ensures c in Next(s, c, await).calls && Rank(Next(s, c, await).calls[c]) < Rank(s.calls[c])
  {
    OthersKeep(s, await.meanwhile, c);
  }

  /** The state a call ends in when its steps go as the script says. */
  function Play(s: State, c: nat, script: Script): (t: State)
    requires c in s.calls && ForeignScript(script, c)
    ensures c in t.calls && Ended(t.calls[c])
    decreases Rank(s.calls[c])
  {
    if Ended(s.calls[c]) then s
    else
      NextAdvances(s, c, AwaitAt(script, s.calls[c]));
      Play(Next(s, c, AwaitAt(script, s.calls[c])), c, script)
  }

  lemma PlayStep(s: State, c: nat, script: Script)
    requires c in s.calls && ForeignScript(script, c) && !Ended(s.calls[c])
    ensures var t := Next(s, c, AwaitAt(script, s.calls[c]));
            c in t.calls && Play(t, c, script) == Play(s, c, script)
  {
    NextAdvances(s, c, AwaitAt(script, s.calls[c]));
  }

  /** What refund answers in the phase its call ended in. */
  function OutcomeOf(phase: Phase): Outcome {
    match phase
    case Done(status) => Refunded(status)
    case NotRefundable => Conflict
    case _ => Outcome.Threw
  }

  lemma OthersSnoc(s: State, es: seq<Event>, k: nat)
    requires k < |es|
    ensures Others(s, es[..k + 1]) == Step(Others(s, es[..k]), es[k])
  {
    assert es[..k + 1][..k] == es[..k];
  }

  // ---------------------------------------------------------------------------------------------
  // What a sweep selects
  // ---------------------------------------------------------------------------------------------

  predicate IsDue(s: State, expiresAt: Option<int>, now: int) {
    s.status.Open? && expiresAt.Some? && expiresAt.value <= now
  }

  /** expireDue, for one session. */
  function AfterExpiry(s: State, expiresAt: Option<int>, now: int): State {
    if IsDue(s, expiresAt, now) then s.(status := Expired) else s
  }

  /** Expired or cancelled, and not yet refunded. */
  predicate AwaitsRefund(s: State) {
    IsRefundable(s.status) && !s.refundedAt
  }

  /** findAwaitingRefund: the first `limit` of the sessions that await a refund, by position. */
  function Awaiting(sessions: seq<State>, limit: nat): (found: seq<nat>)
    ensures |found| <= limit
    ensures forall k | 0 <= k < |found| :: found[k] < |sessions| && AwaitsRefund(sessions[found[k]])
    ensures forall j, k | 0 <= j < k < |found| :: found[j] < found[k]
    ensures forall i: nat | i < |sessions| && AwaitsRefund(sessions[i]) && i !in found ::
              |found| == limit && forall k | 0 <= k < |found| :: found[k] < i
  {
    if |sessions| == 0 then []
    else
      var front, last := Awaiting(sessions[..|sessions| - 1], limit), |sessions| - 1;
      if |front| < limit && AwaitsRefund(sessions[last]) then front + [last] else front
  }

  // ---------------------------------------------------------------------------------------------
  // The service
  // ---------------------------------------------------------------------------------------------

  class EscrowRefunds {
    const depositAmount: nat
    const expiresAt: Option<int>
    var status: SessionStatus
    var ledgerSpent: nat
    var row: Option<Row>
    var refundedAt: bool
    var hub: Hub
    var calls: map<nat, Phase>
    var txs: map<nat, Tx>
    ghost var history: seq<Event>

    function Machine(): State
      reads this
    {
      State(status, depositAmount, ledgerSpent, row, refundedAt, hub, calls, txs)
    }

    ghost predicate Valid()
      reads this
    {
      Machine() == Run(depositAmount, history)
    }

    constructor (depositAmount: nat, expiresAt: Option<int>)
      ensures Valid() && this.depositAmount == depositAmount && this.expiresAt == expiresAt
      ensures row.None? && calls == map[]
    {
      this.depositAmount, this.expiresAt := depositAmount, expiresAt;
      status, ledgerSpent, row, refundedAt := Open, 0, None, false;
      hub := Hub(depositAmount, 0, true, 0, 0);
      calls, txs, history := map[], map[], [];
    }

    /** Records the event that led from `before` to what the fields now show. */
    ghost method Log(e: Event, before: State)
      requires before == Run(depositAmount, history) && Machine() == Step(before, e)
      modifies this`history
      ensures Valid() && history == old(history) + [e]
    {
      RunSnoc(depositAmount, history, e);
      history := history + [e];
    }

    /** The session's part of the UPDATE that expires open sessions past their TTL. */
    method Expire(now: int) returns (expired: bool)
      requires Valid()
      modifies this
      ensures Valid() && Machine() == AfterExpiry(old(Machine()), expiresAt, now)
      ensures expired <==> IsDue(old(Machine()), expiresAt, now)
      ensures expired <==> old(status) == Open && expiresAt.Some? && expiresAt.value <= now
      ensures status == if expired then Expired else old(status)
      ensures history == old(PastAfterExpiry(this, now)) && calls == old(calls)
    {
      expired := status.Open? && expiresAt.Some? && expiresAt.value <= now;
      if expired {
        ghost var before := Machine();
        status := Expired;
        Log(StatusBecomes(Expired), before);
      }
    }

    /** One step of another request, of the chain or of the ledger. */
    method Apply(e: Event)
      requires Valid()
      modifies this
      ensures Valid() && history == old(history) + [e] && Machine() == Step(old(Machine()), e)
    {
      hide Step;
      ghost var before := Machine();
      RunKeepsInv(depositAmount, history + [e]);
      RunSnoc(depositAmount, history, e);
      var t := Step(Machine(), e);
      status, ledgerSpent, row, refundedAt := t.status, t.ledgerSpent, t.row, t.refundedAt;
      hub, calls, txs := t.hub, t.calls, t.txs;
      Log(e, before);
    }

    /** The others act at an `await`. */
    method Meanwhile(es: seq<Event>, c: nat)
      requires Valid() && c in calls && AllForeign(es, c)
      modifies this
      ensures Valid() && c in calls && calls[c] == old(calls[c]) && old(history) <= history
      ensures Machine() == Others(old(Machine()), es)
    {
      for k := 0 to |es|
        invariant Valid() && old(history) <= history && Machine() == Others(old(Machine()), es[..k])
      {
        hide Step, Run;
        OthersSnoc(old(Machine()), es, k);
        Apply(es[k]);
      }
      assert es[..|es|] == es;
      OthersKeep(old(Machine()), es, c);
    }

    /** findById, and whether the status it finds is refundable. */
    method FindSession(c: nat, script: Script)
      requires Valid() && c in calls && calls[c].Finding? && ForeignScript(script, c)
      modifies this
      ensures Valid() && c in calls && old(history) <= history
      ensures Play(Machine(), c, script) == Play(old(Machine()), c, script)
      ensures !script.find.succeeds ==> calls[c] == Phase.Threw
      ensures script.find.succeeds ==> calls[c] == if IsRefundable(status) then Looking else NotRefundable
    {
      PlayStep(Machine(), c, script);
      Meanwhile(script.find.meanwhile, c);
      ghost var before := Machine();
      var next := Phase.Threw;
      if script.find.succeeds {
        next := if status.Expired? || status.Cancelled? then Looking else NotRefundable;
      }
      calls := calls[c := next];
      Log(Advance(c, script.find.succeeds), before);
    }

    /** findOne on the refund row. */
    method FindRow(c: nat, script: Script)
      requires Valid() && c in calls && calls[c].Looking? && ForeignScript(script, c)
      modifies this
      ensures Valid() && c in calls && old(history) <= history
      ensures Play(Machine(), c, script) == Play(old(Machine()), c, script)
      ensures script.look.succeeds && row.None? ==> calls[c] == Summing
      ensures script.look.succeeds && row.Some? ==>
                calls[c] == if row.value.status.COMPLETED? then Done(COMPLETED) else Sending
      ensures !script.look.succeeds ==> calls[c] == Phase.Threw
    {
      PlayStep(Machine(), c, script);
      Meanwhile(script.look.meanwhile, c);
      ghost var before := Machine();
      var next := Phase.Threw;
      if script.look.succeeds {
        if row.None? {
          next := Summing;
        } else if row.value.status == COMPLETED {
          next := Done(COMPLETED);
        } else {
          next := Sending;
        }
      }
      calls := calls[c := next];
      Log(Advance(c, script.look.succeeds), before);
    }

    /** spent: settled batches, claims and releases so far. */
    method SumSpent(c: nat, script: Script)
      requires Valid() && c in calls && calls[c].Summing? && ForeignScript(script, c)
      modifies this
      ensures Valid() && c in calls && old(history) <= history
      ensures Play(Machine(), c, script) == Play(old(Machine()), c, script)
      ensures calls[c] == if script.sum.succeeds then Inserting(ledgerSpent) else Phase.Threw
    {
      PlayStep(Machine(), c, script);
      Meanwhile(script.sum.meanwhile, c);
      ghost var before := Machine();
      calls := calls[c := if script.sum.succeeds then Inserting(ledgerSpent) else Phase.Threw];
      Log(Advance(c, script.sum.succeeds), before);
    }

    /** The insert of the row; the unique index turns a second one down. */
    method InsertRow(c: nat, script: Script)
      requires Valid() && c in calls && calls[c].Inserting? && ForeignScript(script, c)
      modifies this
      ensures Valid() && c in calls && old(history) <= history
      ensures Play(Machine(), c, script) == Play(old(Machine()), c, script)
      ensures script.insert.succeeds ==> row.Some? && (calls[c].Sending? || calls[c].Refetching?)
      ensures script.insert.succeeds && calls[c].Sending? ==> row.value == NewRow(depositAmount, old(calls[c].spent))
      ensures !script.insert.succeeds ==> calls[c] == Phase.Threw
    {
      hide Run, Play, Others;
      PlayStep(Machine(), c, script);
      Meanwhile(script.insert.meanwhile, c);
      ghost var before := Machine();
      var spent := calls[c].spent;
      if !script.insert.succeeds {
        calls := calls[c := Phase.Threw];
      } else if row.None? {
        row := Some(Row(depositAmount, spent, if spent > depositAmount then 0 else depositAmount - spent, PENDING));
        calls := calls[c := Sending];
      } else {
        calls := calls[c := Refetching];
      }
      Log(Advance(c, script.insert.succeeds), before);
    }

    /** findByEscrowId after a unique violation. */
    method RefetchRow(c: nat, script: Script)
      requires Valid() && c in calls && calls[c].Refetching? && ForeignScript(script, c)
      modifies this
      ensures Valid() && c in calls && old(history) <= history
      ensures Play(Machine(), c, script) == Play(old(Machine()), c, script)
      ensures calls[c] == if script.refetch.succeeds then Sending else Phase.Threw
    {
      PlayStep(Machine(), c, script);
      Meanwhile(script.refetch.meanwhile, c);
      ghost var before := Machine();
      calls := calls[c := if script.refetch.succeeds then Sending else Phase.Threw];
      Log(Advance(c, script.refetch.succeeds), before);
    }

    /** The broadcast of emergencyClose. */
    method Send(c: nat, script: Script)
      requires Valid() && c in calls && calls[c].Sending? && ForeignScript(script, c)
      modifies this
      ensures Valid() && c in calls && old(history) <= history
      ensures Play(Machine(), c, script) == Play(old(Machine()), c, script)
      ensures calls[c] == if script.send.succeeds then Waiting else Saving(false)
      ensures script.send.succeeds ==> c in txs && txs[c].Pending?
    {
      PlayStep(Machine(), c, script);
      Meanwhile(script.send.meanwhile, c);
      ghost var before := Machine();
      if script.send.succeeds {
        txs := txs[c := Pending];
        calls := calls[c := Waiting];
      } else {
        calls := calls[c := Saving(false)];
      }
      Log(Advance(c, script.send.succeeds), before);
    }

    /** waitFor: returns for a transaction that succeeded, throws otherwise. */
    method WaitForClose(c: nat, script: Script)
      requires Valid() && c in calls && calls[c].Waiting? && ForeignScript(script, c)
      modifies this
      ensures Valid() && c in calls && old(history) <= history
      ensures Play(Machine(), c, script) == Play(old(Machine()), c, script)
      ensures calls[c].Saving? && (calls[c].closed <==> script.wait.succeeds && c in txs && txs[c].Succeeded?)
    {
      PlayStep(Machine(), c, script);
      Meanwhile(script.wait.meanwhile, c);
      ghost var before := Machine();
      var returned := script.wait.succeeds && c in txs && txs[c].Succeeded?;
      calls := calls[c := Saving(returned)];
      Log(Advance(c, returned), before);
    }

    /** The save of the row, COMPLETED or FAILED. */
    method SaveStatus(c: nat, script: Script)
      requires Valid() && c in calls && calls[c].Saving? && ForeignScript(script, c)
      modifies this
      ensures Valid() && c in calls && old(history) <= history
      ensures Play(Machine(), c, script) == Play(old(Machine()), c, script)
      ensures script.save.succeeds ==>
                row.Some? && row.value.status == if old(calls[c].closed) then COMPLETED else FAILED
      ensures calls[c] == if !script.save.succeeds then Phase.Threw
                          else if old(calls[c].closed) then Marking else Done(FAILED)
    {
      PlayStep(Machine(), c, script);
      Meanwhile(script.save.meanwhile, c);
      ghost var before := Machine();
      var closed := calls[c].closed;
      RunKeepsInv(depositAmount, history);
      if script.save.succeeds {
        row := Some(row.value.(status := if closed then COMPLETED else FAILED));
        calls := calls[c := if closed then Marking else Done(FAILED)];
      } else {
        calls := calls[c := Phase.Threw];
      }
      Log(Advance(c, script.save.succeeds), before);
    }

    /** markRefunded on the session. */
    method MarkRefunded(c: nat, script: Script)
      requires Valid() && c in calls && calls[c].Marking? && ForeignScript(script, c)
      modifies this
      ensures Valid() && c in calls && old(history) <= history
      ensures Play(Machine(), c, script) == Play(old(Machine()), c, script)
      ensures calls[c] == if script.mark.succeeds then Done(COMPLETED) else Phase.Threw
      ensures script.mark.succeeds ==> refundedAt
    {
      PlayStep(Machine(), c, script);
      Meanwhile(script.mark.meanwhile, c);
      ghost var before := Machine();
      if script.mark.succeeds {
        refundedAt := true;
      }
      calls := calls[c := if script.mark.succeeds then Done(COMPLETED) else Phase.Threw];
      Log(Advance(c, script.mark.succeeds), before);
    }

    /** create: the row of this call, or of the concurrent one that was first. */
    method Create(c: nat, script: Script) returns (created: bool)
      requires Valid() && c in calls && calls[c].Summing? && ForeignScript(script, c)
      modifies this
      ensures Valid() && c in calls && old(history) <= history
      ensures Play(Machine(), c, script) == Play(old(Machine()), c, script)
      ensures calls[c] == if created then Sending else Phase.Threw
      ensures created ==> script.sum.succeeds && script.insert.succeeds
      ensures !created ==> !script.sum.succeeds || !script.insert.succeeds || !script.refetch.succeeds
      ensures created ==> row.Some? && row.value.deposit == depositAmount
                          && row.value.refund + Min(row.value.spent, depositAmount) == depositAmount
    {
      SumSpent(c, script);
      if !script.sum.succeeds {
        return false;
      }
      InsertRow(c, script);
      if !script.insert.succeeds {
        return false;
      }
      if calls[c].Refetching? {
        RefetchRow(c, script);
        created := script.refetch.succeeds;
      } else {
        created := true;
      }
      RunKeepsInv(depositAmount, history);
    }

    /** execute: emergencyClose, and what came of it on the row. */
    method Execute(c: nat, script: Script) returns (outcome: Outcome)
      requires Valid() && c in calls && calls[c].Sending? && ForeignScript(script, c)
      modifies this
      ensures Valid() && c in calls && old(history) <= history
      ensures Machine() == Play(old(Machine()), c, script) && outcome == OutcomeOf(calls[c])
      ensures outcome == Refunded(COMPLETED) ==> hub.closes == 1 && refundedAt
      ensures outcome == Refunded(FAILED) ==> row.Some? && row.value.status.FAILED?
      ensures outcome == Outcome.Threw ==> !script.save.succeeds || !script.mark.succeeds
      ensures !script.send.succeeds && script.save.succeeds ==> outcome == Refunded(FAILED)
      ensures !script.wait.succeeds && script.save.succeeds ==> outcome == Refunded(FAILED)
    {
      Send(c, script);
      if script.send.succeeds {
        WaitForClose(c, script);
      }
      SaveStatus(c, script);
      if calls[c].Marking? {
        MarkRefunded(c, script);
      }
      RunKeepsInv(depositAmount, history);
      outcome := if calls[c].Done? then Refunded(calls[c].status) else Outcome.Threw;
    }

    /** The reads of refund, and the row if there is none yet. */
    method Prepare(c: nat, script: Script)
      requires Valid() && c in calls && calls[c].Finding? && ForeignScript(script, c)
      modifies this
      ensures Valid() && c in calls && old(history) <= history
      ensures Play(Machine(), c, script) == Play(old(Machine()), c, script)
      ensures Ended(calls[c]) || calls[c].Sending?
    {
      FindSession(c, script);
      if calls[c].Looking? {
        FindRow(c, script);
      }
      if calls[c].Summing? {
        var created := Create(c, script);
      }
    }

    /** refund, once the call is known. */
    method Proceed(c: nat, script: Script) returns (outcome: Outcome)
      requires Valid() && c in calls && calls[c].Finding? && ForeignScript(script, c)
      modifies this
      ensures Valid() && c in calls && old(history) <= history
      ensures Machine() == Play(old(Machine()), c, script) && outcome == OutcomeOf(calls[c])
    {
      Prepare(c, script);
      if calls[c].Sending? {
        outcome := Execute(c, script);
      } else {
        outcome := if calls[c].Done? then Refunded(calls[c].status)
                   else if calls[c].NotRefundable? then Conflict
                   else Outcome.Threw;
      }
    }

    /** refund: the state and the answer are those the script gives on the state it is called in. */
    method Refund(c: nat, script: Script) returns (outcome: Outcome)
      requires Valid() && c !in calls && ForeignScript(script, c)
      modifies this
      ensures Valid() && c in calls && old(history) + [Request(c)] <= history
      ensures Machine() == Play(MoveTo(old(Machine()), c, Finding), c, script) && outcome == OutcomeOf(calls[c])
      ensures outcome == Refunded(COMPLETED) ==> hub.closes == 1
    {
      ghost var start := Machine();
      calls := calls[c := Finding];
      Log(Request(c), start);
      outcome := Proceed(c, script);
      RunKeepsInv(depositAmount, history);
    }
  }

  datatype SweepResult = SweepResult(expired: nat, refunded: nat, failed: nat)

  function Count(outcomes: seq<Outcome>, outcome: Outcome): nat {
    if |outcomes| == 0 then 0
    else Count(outcomes[..|outcomes| - 1], outcome) + if outcomes[|outcomes| - 1] == outcome then 1 else 0
  }

  function CountTrue(flags: seq<bool>): nat {
    if |flags| == 0 then 0 else CountTrue(flags[..|flags| - 1]) + if flags[|flags| - 1] then 1 else 0
  }

  ghost function Machines(sessions: seq<EscrowRefunds>): (machines: seq<State>)
    reads sessions
    ensures |machines| == |sessions| && forall i | 0 <= i < |sessions| :: machines[i] == sessions[i].Machine()
  {
    seq(|sessions|, i requires 0 <= i < |sessions| reads sessions => sessions[i].Machine())
  }

  /** Which of the sessions expireDue expires. */
  ghost function DueFlags(sessions: seq<EscrowRefunds>, now: int): (flags: seq<bool>)
    reads sessions
    ensures |flags| == |sessions|
    ensures forall i | 0 <= i < |sessions| :: flags[i] <==> IsDue(sessions[i].Machine(), sessions[i].expiresAt, now)
  {
    seq(|sessions|, i requires 0 <= i < |sessions| reads sessions =>
      IsDue(sessions[i].Machine(), sessions[i].expiresAt, now))
  }

  /** What expireDue makes of the sessions. */
  ghost function ExpiredMachines(sessions: seq<EscrowRefunds>, now: int): (machines: seq<State>)
    reads sessions
    ensures |machines| == |sessions|
    ensures forall i | 0 <= i < |sessions| ::
              machines[i] == AfterExpiry(sessions[i].Machine(), sessions[i].expiresAt, now)
  {
    seq(|sessions|, i requires 0 <= i < |sessions| reads sessions =>
      AfterExpiry(sessions[i].Machine(), sessions[i].expiresAt, now))
  }

  /** The history of a session once expireDue has run. */
  ghost function PastAfterExpiry(escrow: EscrowRefunds, now: int): seq<Event>
    reads escrow
  {
    escrow.history + if IsDue(escrow.Machine(), escrow.expiresAt, now) then [StatusBecomes(Expired)] else []
  }

  /** One call of `refund` on the escrow, played from `start` as its script says, with this answer. */
  ghost predicate RefundedBy(escrow: EscrowRefunds, past: seq<Event>, start: State, call: nat, script: Script,
      outcome: Outcome)
    reads escrow
  {
    && call !in start.calls && ForeignScript(script, call) && escrow.Valid() && past + [Request(call)] <= escrow.history
    && escrow.Machine() == Play(MoveTo(start, call, Finding), call, script)
    && call in escrow.calls && outcome == OutcomeOf(escrow.calls[call])
  }

  predicate Distinct(sessions: seq<EscrowRefunds>) {
    forall i, j | 0 <= i < j < |sessions| :: sessions[i] != sessions[j]
  }

  class RefundSweeper {
    const sweepBatch: nat
    var sweeping: bool

    constructor (sweepBatch: nat)
      ensures !sweeping && this.sweepBatch == sweepBatch
    {
      this.sweepBatch, sweeping := sweepBatch, false;
    }

    /** EscrowService.expireDue. */
    method ExpireDue(sessions: seq<EscrowRefunds>, now: int) returns (expired: nat)
      requires Distinct(sessions) && forall i | 0 <= i < |sessions| :: sessions[i].Valid()
      modifies sessions
      ensures forall i | 0 <= i < |sessions| ::
                && sessions[i].Valid() && sessions[i].calls == old(sessions[i].calls)
                && sessions[i].history == old(PastAfterExpiry(sessions[i], now))
      ensures Machines(sessions) == old(ExpiredMachines(sessions, now))
      ensures expired == CountTrue(old(DueFlags(sessions, now)))
    {
      hide Run, IsDue, AfterExpiry, PastAfterExpiry;
      ghost var flags := DueFlags(sessions, now);
      expired := 0;
      for i := 0 to |sessions|
        invariant forall j | 0 <= j < i ::
                    && sessions[j].Valid() && sessions[j].calls == old(sessions[j].calls)
                    && sessions[j].history == old(PastAfterExpiry(sessions[j], now))
                    && sessions[j].Machine() == old(AfterExpiry(sessions[j].Machine(), sessions[j].expiresAt, now))
        invariant forall j | i <= j < |sessions| :: unchanged(sessions[j])
        invariant expired == CountTrue(flags[..i])
      {
        var due := sessions[i].Expire(now);
        assert flags[..i + 1][..i] == flags[..i];
        expired := if due then expired + 1 else expired;
      }
      assert flags[..|sessions|] == flags;
    }

    /** EscrowService.findAwaitingRefund; the sessions come in the order in which they were closed. */
    method FindAwaitingRefund(sessions: seq<EscrowRefunds>) returns (pending: seq<nat>)
      ensures pending == Awaiting(Machines(sessions), sweepBatch)
      ensures forall i: nat | i < |sessions| ::
                if i in pending then sessions[i].status in {Expired, Cancelled} && !sessions[i].refundedAt
                else sessions[i].status !in {Expired, Cancelled} || sessions[i].refundedAt || |pending| == sweepBatch
    {
      pending := [];
      ghost var machines := Machines(sessions);
      for i := 0 to |sessions|
        invariant pending == Awaiting(machines[..i], sweepBatch)
      {
        assert machines[..i + 1][..i] == machines[..i];
        if |pending| < sweepBatch && AwaitsRefund(sessions[i].Machine()) {
          pending := pending + [i];
        }
      }
      assert machines[..|sessions|] == machines;
    }

    /** One turn of the loop. */
    method RefundOne(escrow: EscrowRefunds, call: nat, script: Script) returns (outcome: Outcome)
      requires escrow.Valid() && call !in escrow.calls && ForeignScript(script, call)
      modifies escrow
      ensures RefundedBy(escrow, old(escrow.history), old(escrow.Machine()), call, script, outcome)
    {
      outcome := escrow.Refund(call, script);
    }

    /** The loop of sweep: one failing escrow does not hold back the others. */
    method RefundAll(sessions: seq<EscrowRefunds>, pending: seq<nat>, call: nat, scripts: seq<Script>)
      returns (refunded: nat, failed: nat, ghost outcomes: seq<Outcome>)
      requires Distinct(sessions) && forall i | 0 <= i < |sessions| :: sessions[i].Valid() && call !in sessions[i].calls
      requires |scripts| == |sessions| && forall i | 0 <= i < |sessions| :: ForeignScript(scripts[i], call)
      requires forall k | 0 <= k < |pending| :: pending[k] < |sessions|
      requires forall j, k | 0 <= j < k < |pending| :: pending[j] < pending[k]
      modifies sessions
      ensures |outcomes| == |pending| && refunded + failed == |pending|
      ensures refunded == Count(outcomes, Refunded(COMPLETED))
      ensures forall k | 0 <= k < |pending| :: var i := pending[k];
                RefundedBy(sessions[i], old(sessions[i].history), old(sessions[i].Machine()), call, scripts[i],
                           outcomes[k])
      ensures forall i: nat | i < |sessions| && i !in pending :: unchanged(sessions[i])
    {
      hide Play, Run, ForeignScript, RefundedBy;
      refunded, failed, outcomes := 0, 0, [];
      for k := 0 to |pending|
        invariant |outcomes| == k && refunded + failed == k && refunded == Count(outcomes, Refunded(COMPLETED))
        invariant forall j | 0 <= j < k :: var i := pending[j];
                    RefundedBy(sessions[i], old(sessions[i].history), old(sessions[i].Machine()), call, scripts[i],
                               outcomes[j])
        invariant forall i: nat | i < |sessions| && i !in pending[..k] :: unchanged(sessions[i])
      {
        var i := pending[k];
        var outcome := RefundOne(sessions[i], call, scripts[i]);
        if outcome == Refunded(COMPLETED) {
          refunded := refunded + 1;
        } else {
          failed := failed + 1;
        }
        assert (outcomes + [outcome])[..k] == outcomes && pending[..k + 1] == pending[..k] + [i];
        outcomes := outcomes + [outcome];
      }
      assert pending[..|pending|] == pending;
    }

    /** sweep: expires what is due, then refunds the oldest sessions that await a refund, each once. */
    method Sweep(sessions: seq<EscrowRefunds>, now: int, call: nat, scripts: seq<Script>)
      returns (result: SweepResult, ghost outcomes: seq<Outcome>)
      requires Distinct(sessions) && forall i | 0 <= i < |sessions| :: sessions[i].Valid() && call !in sessions[i].calls
      requires |scripts| == |sessions| && forall i | 0 <= i < |sessions| :: ForeignScript(scripts[i], call)
      modifies this, sessions
      ensures sweeping == old(sweeping)
      ensures old(sweeping) ==>
                result == SweepResult(0, 0, 0) && forall i | 0 <= i < |sessions| :: unchanged(sessions[i])
      ensures !old(sweeping) ==>
                var machines := old(ExpiredMachines(sessions, now));
                var pending := Awaiting(machines, sweepBatch);
                && result.expired == CountTrue(old(DueFlags(sessions, now)))
                && |outcomes| == |pending| == result.refunded + result.failed
                && result.refunded == Count(outcomes, Refunded(COMPLETED))
                && (forall k | 0 <= k < |pending| :: var i := pending[k];
                      RefundedBy(sessions[i], old(PastAfterExpiry(sessions[i], now)), machines[i], call, scripts[i],
                                 outcomes[k]))
                && (forall i: nat | i < |sessions| && i !in pending ::
                      sessions[i].Valid() && sessions[i].Machine() == machines[i])
    {
      hide Play, Run, ForeignScript, Awaiting, AfterExpiry, IsDue, PastAfterExpiry, CountTrue, Count, RefundedBy;
      result, outcomes := SweepResult(0, 0, 0), [];
      if sweeping {
        return;
      }
      sweeping := true;
      var expired := ExpireDue(sessions, now);
      var pending := FindAwaitingRefund(sessions);
      ghost var machines := Machines(sessions);
      var refunded, failed;
      refunded, failed, outcomes := RefundAll(sessions, pending, call, scripts);
      result := SweepResult(expired, refunded, failed);
      sweeping := false;
    }
  }
}
