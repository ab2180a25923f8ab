/**
 The settlement service as it runs, with the chain moving at every `await`. Each method is a run of
 the machine in Settlement: the object's history of events leads from a new row to its state, so
 everything proved of runs holds of the object.
 */
module SettlementService {
  import opened Base
  import opened Settlement
  import opened SettlementOutcome

  /** The result of confirmEarlierTransaction: a hash, null, undefined, or a throw. */
  datatype Earlier = Confirmed(hash: Hash) | StillPending | NothingToWaitFor | LookupThrew(failure: Failure)

  datatype Sent = Sent(hash: Hash) | SendThrew(failure: Failure)

  function SeenBy(earlier: Earlier): Seen {
    match earlier
    case Confirmed(_) => Payment
    case StillPending => Undecided
    case NothingToWaitFor => Nothing
    case LookupThrew(failure) => Failure(failure)
  }

  function SeenOf(sent: Sent): Seen {
    if sent.Sent? then Payment else Failure(sent.failure)
  }

  /** An attempt's events give the answers of its script; a wait nothing resolves times out. */
  ghost predicate Scripted(e: Event, script: Script) {
    match e
    case OnChain(_) => true
    case ReceiptRead(reply) => reply == script.receipt.reply
    case DepthRead(reply) => reply == script.depth.reply
    case LookupRead(reply) => reply == script.lookup.reply
    case GasChecked(reply) => reply == script.gas.reply
    case Broadcast(reply) => reply == script.broadcast.reply
    case HashSaved => true
    case Waited(reply) => reply == script.wait.reply || (script.wait.reply.Answers? && reply == Throws(Transient))
    case _ => false
  }

  class SettlementRow {
    const cfg: Config
    var status: Status
    var attempts: int
    var nextRetryAt: Option<int>
    var txHash: Option<Hash>
    var settledAt: Option<int>
    var lastError: Option<Failure>
    var chain: Chain
    ghost const startHeight: nat
    ghost var phase: Phase
    ghost var tally: Tally
    ghost var history: seq<Event>

    ghost function Machine(): State
      reads this
    {
      State(Row(status, attempts, nextRetryAt, txHash, settledAt, lastError), chain, phase, tally)
    }

    ghost predicate Valid()
      reads this
    {
      ValidConfig(cfg) && Machine() == Run(cfg, Created(startHeight), history)
    }

    /** The recorded hash is one of the chain's. */
    ghost predicate HashFits()
      reads this
    {
      txHash.Some? ==> txHash.value < |chain.txs|
    }

    ghost predicate ScriptedSince(from: nat, script: Script)
      reads this
    {
      from <= |history| && forall i | from <= i < |history| :: Scripted(history[i], script)
    }

    constructor (cfg: Config, height: nat)
      requires ValidConfig(cfg)
      ensures Valid() && this.cfg == cfg && Machine() == Created(height)
    {
      this.cfg := cfg;
      status, attempts := PENDING, 0;
      nextRetryAt, txHash, settledAt, lastError := None, None, None, None;
      chain := Chain(height, []);
      startHeight := height;
      phase, tally, history := Idle, Tally(0, 0, 0), [];
    }

    /** Records the event whose effect, the state `t`, the fields now show. */
    ghost method Log(e: Event, before: State, t: State)
      requires ValidConfig(cfg) && before == Run(cfg, Created(startHeight), history) && t == Step(cfg, before, e)
      requires Machine() == t.(phase := phase, tally := tally)
      modifies this`phase, this`tally, this`history
      ensures Valid() && history == old(history) + [e] && Machine() == t
    {
      RunSnoc(cfg, Created(startHeight), history, e);
      phase, tally, history := t.phase, t.tally, history + [e];
    }

    /** Time passes at an `await`: the chain moves, the row does not. */
    method Meanwhile(steps: seq<ChainStep>)
      requires Valid()
      modifies this`chain, this`history, this`phase, this`tally
      ensures Valid() && phase == old(phase) && tally == old(tally) && |chain.txs| == |old(chain).txs|
      ensures chain == After(cfg, old(chain), steps)
      ensures old(history) <= history
      ensures forall i | |old(history)| <= i < |history| :: history[i].OnChain?
    {
      for k := 0 to |steps|
        invariant Valid() && phase == old(phase) && tally == old(tally) && |chain.txs| == |old(chain).txs|
        invariant chain == After(cfg, old(chain), steps[..k])
        invariant old(history) <= history
        invariant forall i | |old(history)| <= i < |history| :: history[i].OnChain?
      {
        assert steps[..k + 1][..k] == steps[..k];
        ghost var before := Machine();
        MoveKeepsDead(chain, cfg.confirmations, steps[k]);
        chain := Move(chain, cfg.confirmations, steps[k]);
        Log(OnChain(steps[k]), before, Step(cfg, before, OnChain(steps[k])));
      }
      assert steps[..|steps|] == steps;
    }

    /**
     The look at the previous transaction. `last` is the event that ends the look: its effect on the
     row is left to the caller.
     */
    method ConfirmEarlierTransaction(now: int, script: Script) returns (earlier: Earlier, ghost last: Event)
      requires Valid()
      requires phase == if txHash.None? then CheckGas(now) else AskReceipt(now)
      requires txHash.Some? ==> txHash.value < |chain.txs|
      modifies this`chain, this`history, this`phase, this`tally
      ensures Valid() && Scripted(last, script)
      ensures old(history) <= history && forall i | |old(history)| <= i < |history| :: Scripted(history[i], script)
      ensures match earlier
              case Confirmed(hash) => txHash == Some(hash) && Step(cfg, Machine(), last) == Settled(Machine(), now)
              case StillPending => Step(cfg, Machine(), last) == KeepWaiting(cfg, Machine(), now)
              case NothingToWaitFor => phase == CheckGas(now)
              case LookupThrew(failure) => Step(cfg, Machine(), last) == Failed(cfg, Machine(), now, failure)
      ensures Finding(SeenBy(earlier), chain, txHash) == Look(cfg, txHash, old(chain), script)
    {
      hide Run, Move, After, OnWait, Failed;
      last := HashSaved;
      if txHash.None? {
        return NothingToWaitFor, last;
      }
      var hash := txHash.value;

      Meanwhile(script.receipt.meanwhile);
      last := ReceiptRead(script.receipt.reply);
      if script.receipt.reply.Throws? {
        return LookupThrew(script.receipt.reply.failure), last;
      }
      var receipt := chain.txs[hash];
      ghost var before := Machine();
      Log(last, before, Step(cfg, before, last));
      if receipt.Mined? && receipt.ok {
        Meanwhile(script.depth.meanwhile);
        last := DepthRead(script.depth.reply);
        if script.depth.reply.Throws? {
          return LookupThrew(script.depth.reply.failure), last;
        }
        var depth := chain.Depth(receipt.block);
        return if depth >= cfg.confirmations then Confirmed(hash) else StillPending, last;
      }
      if receipt.Mined? {
        return NothingToWaitFor, last;
      }

      Meanwhile(script.lookup.meanwhile);
      last := LookupRead(script.lookup.reply);
      if script.lookup.reply.Throws? {
        return LookupThrew(script.lookup.reply.failure), last;
      }
      if !chain.txs[hash].Dropped? {
        return StillPending, last;
      }
      before := Machine();
      Log(last, before, Step(cfg, before, last));
      return NothingToWaitFor, last;
    }

    /** Gas check and broadcast; the hash is saved before anything waits for it. */
    method Send(now: int, script: Script) returns (sent: Sent, ghost last: Event)
      requires Valid() && phase == CheckGas(now)
      modifies this`chain, this`txHash, this`history, this`phase, this`tally
      ensures Valid() && Scripted(last, script)
      ensures old(history) <= history && forall i | |old(history)| <= i < |history| :: Scripted(history[i], script)
      ensures match sent
              case Sent(hash) => txHash == Some(hash) && Step(cfg, Machine(), last) == Settled(Machine(), now)
              case SendThrew(failure) => Step(cfg, Machine(), last) == Failed(cfg, Machine(), now, failure)
      ensures Finding(SeenOf(sent), chain, txHash) == Sending(cfg, old(txHash), old(chain), script)
    {
      hide Run, Move, After, OnReceipt, OnDepth, OnLookup, OnWait, Awaited, Look;
      Meanwhile(script.gas.meanwhile);
      last := GasChecked(script.gas.reply);
      if script.gas.reply.Throws? {
        return SendThrew(script.gas.reply.failure), last;
      }
      ghost var before := Machine();
      Log(last, before, Step(cfg, before, last));

      Meanwhile(script.broadcast.meanwhile);
      last := Broadcast(script.broadcast.reply);
      if script.broadcast.reply.Throws? {
        return SendThrew(script.broadcast.reply.failure), last;
      }
      var hash := RecordBroadcast(now, script);
      sent, last := WaitFor(now, hash, script);
    }

    /** The broadcast that went out, and the save of its hash. */
    method RecordBroadcast(now: int, script: Script) returns (hash: Hash)
      requires Valid() && phase == Broadcasting(now) && script.broadcast.reply.Answers?
      modifies this`chain, this`txHash, this`history, this`phase, this`tally
      ensures Valid() && phase == Waiting(now, hash) && txHash == Some(hash) && hash < |chain.txs|
      ensures hash == |old(chain.txs)|
      ensures chain == After(cfg, old(chain).(txs := old(chain).txs + [Pending]), script.saved)
      ensures old(history) <= history && forall i | |old(history)| <= i < |history| :: Scripted(history[i], script)
    {
      hide Run, Move, After, OnReceipt, OnDepth, OnLookup, OnWait, Failed;
      ghost var before := Machine();
      hash := |chain.txs|;
      chain := chain.(txs := chain.txs + [Pending]);
      Log(Broadcast(Answers), before, Step(cfg, before, Broadcast(Answers)));

      Meanwhile(script.saved);
      before := Machine();
      txHash := Some(hash);
      Log(HashSaved, before, Step(cfg, before, HashSaved));
    }

    /** waitFor: resolves at the required depth, rejects on a revert or when nothing resolves it. */
    method WaitFor(now: int, hash: Hash, script: Script) returns (sent: Sent, ghost last: Event)
      requires Valid() && phase == Waiting(now, hash) && txHash == Some(hash) && hash < |chain.txs|
      modifies this`chain, this`history, this`phase, this`tally
      ensures Valid() && Scripted(last, script)
      ensures old(history) <= history && forall i | |old(history)| <= i < |history| :: Scripted(history[i], script)
      ensures match sent
              case Sent(h) => txHash == Some(h) && Step(cfg, Machine(), last) == Settled(Machine(), now)
              case SendThrew(failure) => Step(cfg, Machine(), last) == Failed(cfg, Machine(), now, failure)
      ensures Finding(SeenOf(sent), chain, txHash) == Awaited(cfg, old(chain), hash, script)
    {
      Meanwhile(script.wait.meanwhile);
      last := Waited(script.wait.reply);
      if script.wait.reply.Throws? {
        return SendThrew(script.wait.reply.failure), last;
      }
      var tx := chain.txs[hash];
      if tx.Mined? && !tx.ok {
        return SendThrew(CallException), last;
      }
      if tx.Mined? && chain.Depth(tx.block) >= cfg.confirmations {
        return Sent(hash), last;
      }
      last := Waited(Throws(Transient));
      return SendThrew(Transient), last;
    }

    method Settle(now: int, ghost last: Event)
      requires Valid() && Step(cfg, Machine(), last) == Settled(Machine(), now)
      modifies this
      ensures Valid() && phase.Idle? && history == old(history) + [last] && chain == old(chain)
      ensures Machine().row == Row(SETTLED, old(attempts), None, old(txHash), Some(now), None)
    {
      ghost var before := Machine();
      status := SETTLED;
      settledAt := Some(now);
      nextRetryAt := None;
      lastError := None;
      Log(last, before, Settled(before, now));
    }

    /** `row` is the row the attempt found. */
    method Fail(now: int, failure: Failure, ghost last: Event, ghost row: Row)
      requires Valid() && Step(cfg, Machine(), last) == Failed(cfg, Machine(), now, failure)
      requires Machine().row == row.(attempts := row.attempts + 1, txHash := txHash)
      modifies this
      ensures Valid() && phase.Idle? && history == old(history) + [last] && chain == old(chain)
      ensures Machine().row == Written(cfg, row, now, Finding(Failure(failure), chain, old(txHash)))
    {
      hide Step, Run, Written, After, Failure.NonRetryable;
      ghost var before := Machine();
      FailureIsWritten(cfg, before, row, now, failure);
      WriteFailure(now, failure);
      Log(last, before, Failed(cfg, before, now, failure));
    }

    method WriteFailure(now: int, failure: Failure)
      modifies this`lastError, this`nextRetryAt, this`status
      ensures Machine() == Failed(cfg, old(Machine()), now, failure).(phase := phase, tally := tally)
    {
      lastError := Some(failure);
      nextRetryAt := None;
      if failure.NonRetryable() {
        status := REJECTED;
      } else if attempts >= cfg.maxAttempts {
        status := DEAD_LETTER;
      } else {
        status := RETRYING;
        nextRetryAt := Some(now + BackoffMs(cfg, attempts));
      }
    }

    /** The earlier transaction may still pay: only wait, and give the attempt back. */
    method WaitLonger(now: int, ghost last: Event)
      requires Valid() && Step(cfg, Machine(), last) == KeepWaiting(cfg, Machine(), now)
      modifies this
      ensures Valid() && phase.Idle? && history == old(history) + [last] && chain == old(chain)
      ensures Machine().row == old(Machine()).row.(attempts := old(attempts) - 1, status := RETRYING,
                                                   nextRetryAt := Some(now + cfg.baseDelayMs))
    {
      ghost var before := Machine();
      attempts := attempts - 1;
      status := RETRYING;
      nextRetryAt := Some(now + cfg.baseDelayMs);
      Log(last, before, KeepWaiting(cfg, before, now));
    }

    /** The attempt is counted first. */
    method BeginAttempt(now: int)
      requires Valid() && phase == Ready
      modifies this`attempts, this`phase, this`tally, this`history
      ensures Valid() && HashFits() && history == old(history) + [Begin(now)] && attempts == old(attempts) + 1
      ensures phase == if txHash.None? then CheckGas(now) else AskReceipt(now)
    {
      ghost var before := Machine();
      AlwaysSafe(cfg, startHeight, history);
      attempts := attempts + 1;
      Log(Begin(now), before, Step(cfg, before, Begin(now)));
    }

    /** One attempt: it never throws, its outcome is written to the row. */
    method Attempt(now: int, script: Script)
      requires Valid() && phase == Ready
      modifies this
      ensures Valid() && phase.Idle?
      ensures old(history) + [Begin(now)] <= history && ScriptedSince(|old(history)| + 1, script)
      ensures old(HashFits()) && (Machine().row, chain) == Outcome(cfg, old(Machine()).row, old(chain), now, script)
    {
      hide Run, Step, After, Look, Sending, Settled, KeepWaiting, Failed, Scripted;
      ghost var row := Machine().row;
      BeginAttempt(now);
      var earlier: Earlier;
      ghost var last: Event;
      earlier, last := ConfirmEarlierTransaction(now, script);
      match earlier
      case StillPending =>
        WaitLonger(now, last);
      case Confirmed(hash) =>
        Settle(now, last);
      case LookupThrew(failure) =>
        Fail(now, failure, last, row);
      case NothingToWaitFor =>
        var sent: Sent;
        sent, last := Send(now, script);
        match sent {
          case Sent(hash) => Settle(now, last);
          case SendThrew(failure) => Fail(now, failure, last, row);
        }
    }

    /** settleBatch after the row is written: the first attempt. */
    method SettleBatch(now: int, script: Script)
      requires Valid() && phase.Idle? && status.PENDING?
      modifies this
      ensures Valid() && phase.Idle?
      ensures old(history) + [Submit, Begin(now)] <= history && ScriptedSince(|old(history)| + 2, script)
      ensures old(HashFits()) && (Machine().row, chain) == Outcome(cfg, old(Machine()).row, old(chain), now, script)
    {
      ghost var before := Machine();
      Log(Submit, before, Step(cfg, before, Submit));
      Attempt(now, script);
    }

    /** The queue's attempt on a row findDueRetries returned. */
    method Retry(now: int, script: Script)
      requires Valid() && phase.Idle?
      requires status.RETRYING? && nextRetryAt.Some? && nextRetryAt.value <= now
      modifies this
      ensures Valid() && phase.Idle?
      ensures old(history) + [Due(now), Begin(now)] <= history && ScriptedSince(|old(history)| + 2, script)
      ensures old(HashFits()) && (Machine().row, chain) == Outcome(cfg, old(Machine()).row, old(chain), now, script)
    {
      ghost var before := Machine();
      Log(Due(now), before, Step(cfg, before, Due(now)));
      Attempt(now, script);
    }

    /** The operator's replay; false when the source answers with a conflict. */
    method ReplayNow(now: int, paused: bool, script: Script) returns (accepted: bool)
      requires Valid() && phase.Idle?
      modifies this
      ensures Valid() && phase.Idle?
      ensures accepted <==> old(status.DEAD_LETTER? || status.REJECTED?) && !paused
      ensures !accepted ==> history == old(history)
      ensures accepted ==>
                && old(history) + [Replay, Begin(now)] <= history && ScriptedSince(|old(history)| + 2, script)
                && old(HashFits())
                && (Machine().row, chain)
                    == Outcome(cfg, old(Machine()).row.(attempts := 0), old(chain), now, script)
    {
      if !status.DEAD_LETTER? && !status.REJECTED? {
        return false;
      }
      if paused {
        return false;
      }
      ghost var before := Machine();
      attempts := 0;
      Log(Replay, before, Step(cfg, before, Replay));
      Attempt(now, script);
      return true;
    }
  }

  lemma FailureIsWritten(cfg: Config, s: State, row: Row, now: int, failure: Failure)
    requires s.row == row.(attempts := row.attempts + 1, txHash := s.row.txHash)
    ensures Failed(cfg, s, now, failure).row == Written(cfg, row, now, Finding(Failure(failure), s.chain, s.row.txHash))
    ensures Failed(cfg, s, now, failure).chain == s.chain && Failed(cfg, s, now, failure).phase.Idle?
  {
    DoubledIsProduct(cfg.baseDelayMs, Min(Max(row.attempts, 0), 30));
  }

  lemma RunSnoc(cfg: Config, s: State, es: seq<Event>, e: Event)
    ensures Run(cfg, s, es + [e]) == Step(cfg, Run(cfg, s, es), e)
  {
    assert (es + [e])[..|es + [e]| - 1] == es;
  }
}
