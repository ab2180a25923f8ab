/** The retry queue: one tick attempts every due row once, strictly one at a time. */
module SettlementRetry {
  import opened Base
  import opened Settlement
  import opened SettlementOutcome
  import opened SettlementService

  datatype RetryRunResult = RetryRunResult(ran: bool, attempted: nat, settled: nat, deadLettered: nat)

  function Count(statuses: seq<Status>, status: Status): nat {
    if |statuses| == 0 then 0
    else Count(statuses[..|statuses| - 1], status) + if statuses[|statuses| - 1] == status then 1 else 0
  }

  lemma CountSnoc(statuses: seq<Status>, last: Status, status: Status)
    ensures Count(statuses + [last], status) == Count(statuses, status) + if last == status then 1 else 0
  {
    assert (statuses + [last])[..|statuses|] == statuses;
  }

  /** The result after one more attempt, which ended in this status. */
  function Counted(r: RetryRunResult, status: Status): RetryRunResult {
    r.(attempted := r.attempted + 1,
       settled := r.settled + if status == SETTLED then 1 else 0,
       deadLettered := r.deadLettered + if status == DEAD_LETTER then 1 else 0)
  }

  /** A row as findDueRetries returns it: at rest, retrying, its time come. */
  predicate IsDue(row: SettlementRow, now: int)
    reads row
  {
    row.status.RETRYING? && row.nextRetryAt.Some? && row.nextRetryAt.value <= now
  }

  /** A row before its attempt. */
  datatype Before = Before(row: Row, chain: Chain, history: seq<Event>)

  ghost function Snapshot(row: SettlementRow): Before
    reads row
  {
    Before(row.Machine().row, row.chain, row.history)
  }

  /** The row went through exactly one attempt, made at `now` with the answers of its script. */
  ghost predicate AttemptedOnce(row: SettlementRow, before: Before, now: int, script: Script)
    reads row
  {
    && row.Valid() && row.phase.Idle? && row.ScriptedSince(|before.history| + 2, script)
    && before.history + [Due(now), Begin(now)] <= row.history
    && (forall i | |before.history| + 2 <= i < |row.history| :: !row.history[i].Begin?)
    && (before.row.txHash.Some? ==> before.row.txHash.value < |before.chain.txs|)
    && (row.Machine().row, row.chain) == Outcome(row.cfg, before.row, before.chain, now, script)
  }

  class SettlementRetryService {
    const batchSize: nat
    var running: bool

    constructor (batchSize: nat)
      ensures !running && this.batchSize == batchSize
    {
      this.batchSize, running := batchSize, false;
    }

    method AttemptDue(settlement: SettlementRow, now: int, script: Script)
      requires settlement.Valid() && settlement.phase.Idle? && IsDue(settlement, now)
      modifies settlement
      ensures AttemptedOnce(settlement, old(Snapshot(settlement)), now, script)
    {
      hide Outcome, Run;
      settlement.Retry(now, script);
    }

    method ProcessDue(now: int, paused: bool, due: seq<SettlementRow>, scripts: seq<Script>)
      returns (result: RetryRunResult, ghost outcomes: seq<Status>)
      requires |scripts| == |due| <= batchSize
      requires forall i | 0 <= i < |due| :: due[i].Valid() && due[i].phase.Idle? && IsDue(due[i], now)
      requires forall i, j | 0 <= i < j < |due| :: due[i] != due[j]
      modifies this, due
      ensures running == old(running)
      ensures old(running) || paused ==>
                result == RetryRunResult(false, 0, 0, 0) && forall i | 0 <= i < |due| :: unchanged(due[i])
      ensures !old(running) && !paused ==>
                && result.ran && result.attempted == |due|
                && (forall i | 0 <= i < |due| :: AttemptedOnce(due[i], old(Snapshot(due[i])), now, scripts[i]))
                && |outcomes| == |due| && (forall i | 0 <= i < |due| :: outcomes[i] == due[i].status)
                && result.settled == Count(outcomes, SETTLED)
                && result.deadLettered == Count(outcomes, DEAD_LETTER)
    {
      hide AttemptedOnce, SettlementRow.Valid;
      result, outcomes := RetryRunResult(false, 0, 0, 0), [];
      if running || paused {
        return;
      }
      running := true;
      result := result.(ran := true);
      for i := 0 to |due|
        invariant running && result.ran && result.attempted == i == |outcomes|
        invariant forall j | 0 <= j < i ::
                    AttemptedOnce(due[j], old(Snapshot(due[j])), now, scripts[j]) && outcomes[j] == due[j].status
        invariant forall j | i <= j < |due| :: unchanged(due[j])
        invariant result.settled == Count(outcomes, SETTLED)
        invariant result.deadLettered == Count(outcomes, DEAD_LETTER)
      {
        var settlement := due[i];
        AttemptDue(settlement, now, scripts[i]);
        result := Counted(result, settlement.status);
        CountSnoc(outcomes, settlement.status, SETTLED);
        CountSnoc(outcomes, settlement.status, DEAD_LETTER);
        outcomes := outcomes + [settlement.status];
      }
      running := false;
    }
  }
}
