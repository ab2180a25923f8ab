/**
 One settlement row, the chain its transactions go to, and the attempts that pay it. An attempt is
 a sequence of steps with the chain free to move between any two of them: blocks arrive, pending
 transactions are mined, revert or are dropped, and a mined one short of finality may be
 reorganised back to pending. Reverted and dropped transactions never come back; a broadcast either
 throws with nothing sent or yields a new hash.
 */
module Settlement {
  import opened Base

  // ---------------------------------------------------------------------------------------------
  // Chain
  // ---------------------------------------------------------------------------------------------

  type Hash = nat

  datatype Tx = Pending | Mined(ok: bool, block: nat) | Dropped
  {
    predicate Dead() {
      Dropped? || (Mined? && !ok)
    }

    predicate Paid() {
      Mined? && ok
    }
  }

  /** Transactions in broadcast order; a hash is the position of its transaction. */
  datatype Chain = Chain(height: nat, txs: seq<Tx>)
  {
    function Depth(block: nat): int {
      height - block + 1
    }
  }

  datatype ChainStep = NewBlock | Mine(hash: Hash, ok: bool) | Reorg(hash: Hash) | Drop(hash: Hash)

  function Move(c: Chain, confirmations: nat, step: ChainStep): Chain {
    match step
    case NewBlock => c.(height := c.height + 1)
    case Mine(h, ok) =>
      if h < |c.txs| && c.txs[h].Pending? then c.(txs := c.txs[h := Mined(ok, c.height)]) else c
    case Reorg(h) =>
      if h < |c.txs| && c.txs[h].Paid() && c.Depth(c.txs[h].block) < confirmations
      then c.(txs := c.txs[h := Pending]) else c
    case Drop(h) =>
      if h < |c.txs| && c.txs[h].Pending? then c.(txs := c.txs[h := Dropped]) else c
  }

  // ---------------------------------------------------------------------------------------------
  // Row and attempt
  // ---------------------------------------------------------------------------------------------

  datatype Status = PENDING | SETTLED | REJECTED | RETRYING | DEAD_LETTER

  /** `error.code` as far as the retry decision looks at it. */
  datatype Failure = CallException | InvalidArgument | UnsupportedOperation | Transient
  {
    predicate NonRetryable() {
      !Transient?
    }
  }

  datatype Row = Row(
    status: Status, attempts: int, nextRetryAt: Option<int>, txHash: Option<Hash>,
    settledAt: Option<int>, lastError: Option<Failure>)

  datatype Config = Config(maxAttempts: int, baseDelayMs: int, maxDelayMs: int, confirmations: nat)

  ghost predicate ValidConfig(cfg: Config) {
    cfg.maxAttempts >= 1 && cfg.baseDelayMs >= 0 && cfg.maxDelayMs >= 0 && cfg.confirmations >= 1
  }

  /** Where the running attempt stands: the answer it waits for next. */
  datatype Phase =
    | Idle
    | Ready
    | AskReceipt(now: int)
    | AskDepth(now: int, block: nat)
    | AskLookup(now: int)
    | CheckGas(now: int)
    | Broadcasting(now: int)
    | Saving(now: int, hash: Hash)
    | Waiting(now: int, hash: Hash)

  /** What an answer of the node or the database is: an answer, or a throw. */
  datatype Reply = Answers | Throws(failure: Failure)

  datatype Event =
    | OnChain(step: ChainStep)
    | Submit
    | Due(now: int)
    | Replay
    | Begin(now: int)
    | ReceiptRead(reply: Reply)
    | DepthRead(reply: Reply)
    | LookupRead(reply: Reply)
    | GasChecked(reply: Reply)
    | Broadcast(reply: Reply)
    | HashSaved
    | Waited(reply: Reply)

  /** Counted for the statements below: replays so far; broadcasts and backoff since the last fresh start. */
  datatype Tally = Tally(replays: nat, broadcasts: nat, backoff: int)

  datatype State = State(row: Row, chain: Chain, phase: Phase, tally: Tally)

  /** `base * 2 ** exponent`. */
  function Doubled(base: int, exponent: nat): int {
    if exponent == 0 then base else 2 * Doubled(base, exponent - 1)
  }

  function BackoffMs(cfg: Config, attempts: int): int {
    var exponent := Min(Max(attempts - 1, 0), 30);
    Min(Doubled(cfg.baseDelayMs, exponent), cfg.maxDelayMs)
  }

  function Settled(s: State, now: int): State {
    s.(row := s.row.(status := SETTLED, settledAt := Some(now), nextRetryAt := None, lastError := None),
       phase := Idle)
  }

  function KeepWaiting(cfg: Config, s: State, now: int): State {
    s.(row := s.row.(attempts := s.row.attempts - 1, status := RETRYING, nextRetryAt := Some(now + cfg.baseDelayMs)),
       phase := Idle)
  }

  function Failed(cfg: Config, s: State, now: int, failure: Failure): State {
    var row := s.row.(lastError := Some(failure), nextRetryAt := None);
    if failure.NonRetryable() then s.(row := row.(status := REJECTED), phase := Idle)
    else if row.attempts >= cfg.maxAttempts then s.(row := row.(status := DEAD_LETTER), phase := Idle)
    else
      var delay := BackoffMs(cfg, row.attempts);
      s.(row := row.(status := RETRYING, nextRetryAt := Some(now + delay)), phase := Idle,
         tally := s.tally.(backoff := s.tally.backoff + delay))
  }

  predicate Known(s: State) {
    s.row.txHash.Some? && s.row.txHash.value < |s.chain.txs|
  }

  /** One step; an event whose turn it is not changes nothing. */
  function Step(cfg: Config, s: State, e: Event): State {
    match e
    case OnChain(step) => s.(chain := Move(s.chain, cfg.confirmations, step))
    case Submit =>
      if s.phase.Idle? && s.row.status.PENDING? then s.(phase := Ready) else s
    case Due(now) =>
      if s.phase.Idle? && s.row.status.RETRYING? && s.row.nextRetryAt.Some? && s.row.nextRetryAt.value <= now
      then s.(phase := Ready) else s
    case Replay =>
      if s.phase.Idle? && (s.row.status.DEAD_LETTER? || s.row.status.REJECTED?)
      then s.(phase := Ready, row := s.row.(attempts := 0), tally := Tally(s.tally.replays + 1, 0, 0)) else s
    case Begin(now) =>
      if s.phase.Ready?
      then s.(row := s.row.(attempts := s.row.attempts + 1),
              phase := if s.row.txHash.None? then CheckGas(now) else AskReceipt(now)) else s
    case ReceiptRead(reply) => if s.phase.AskReceipt? && Known(s) then OnReceipt(cfg, s, s.phase.now, reply) else s
    case DepthRead(reply) => if s.phase.AskDepth? then OnDepth(cfg, s, s.phase.now, s.phase.block, reply) else s
    case LookupRead(reply) => if s.phase.AskLookup? && Known(s) then OnLookup(cfg, s, s.phase.now, reply) else s
    case GasChecked(reply) =>
      if !s.phase.CheckGas? then s
      else if reply.Throws? then Failed(cfg, s, s.phase.now, reply.failure)
      else s.(phase := Broadcasting(s.phase.now))
    case Broadcast(reply) =>
      if !s.phase.Broadcasting? then s
      else if reply.Throws? then Failed(cfg, s, s.phase.now, reply.failure)
      else s.(chain := s.chain.(txs := s.chain.txs + [Pending]), phase := Saving(s.phase.now, |s.chain.txs|),
              tally := s.tally.(broadcasts := s.tally.broadcasts + 1))
    case HashSaved =>
      if !s.phase.Saving? then s
      else s.(row := s.row.(txHash := Some(s.phase.hash)), phase := Waiting(s.phase.now, s.phase.hash))
    case Waited(reply) =>
      if s.phase.Waiting? && s.phase.hash < |s.chain.txs| then OnWait(cfg, s, s.phase.now, s.phase.hash, reply) else s
  }

  /** getTransactionReceipt: null unless mined. */
  function OnReceipt(cfg: Config, s: State, now: int, reply: Reply): State
    requires Known(s)
  {
    if reply.Throws? then Failed(cfg, s, now, reply.failure)
    else
      match s.chain.txs[s.row.txHash.value]
      case Mined(ok, block) => s.(phase := if ok then AskDepth(now, block) else CheckGas(now))
      case _ => s.(phase := AskLookup(now))
  }

  /** receipt.confirmations(): the height now, less the block the receipt was read with. */
  function OnDepth(cfg: Config, s: State, now: int, block: nat, reply: Reply): State {
    if reply.Throws? then Failed(cfg, s, now, reply.failure)
    else if s.chain.Depth(block) >= cfg.confirmations then Settled(s, now)
    else KeepWaiting(cfg, s, now)
  }

  /** getTransaction: null once the node no longer knows the hash. */
  function OnLookup(cfg: Config, s: State, now: int, reply: Reply): State
    requires Known(s)
  {
    if reply.Throws? then Failed(cfg, s, now, reply.failure)
    else if s.chain.txs[s.row.txHash.value].Dropped? then s.(phase := CheckGas(now))
    else KeepWaiting(cfg, s, now)
  }

  /** tx.wait(confirmations, timeout): resolves when deep enough, rejects on a revert or a timeout. */
  function OnWait(cfg: Config, s: State, now: int, hash: Hash, reply: Reply): State
    requires hash < |s.chain.txs|
  {
    if reply.Throws? then Failed(cfg, s, now, reply.failure)
    else
      match s.chain.txs[hash]
      case Mined(ok, block) =>
        if !ok then Failed(cfg, s, now, CallException)
        else if s.chain.Depth(block) >= cfg.confirmations then Settled(s, now)
        else s
      case _ => s
  }

  function Run(cfg: Config, s: State, es: seq<Event>): State {
    if |es| == 0 then s else Step(cfg, Run(cfg, s, es[..|es| - 1]), es[|es| - 1])
  }

  function Created(height: nat): State {
    State(Row(PENDING, 0, None, None, None, None), Chain(height, []), Idle, Tally(0, 0, 0))
  }

  lemma {:induction false} RunAppend(cfg: Config, s: State, es: seq<Event>, fs: seq<Event>)
    ensures Run(cfg, s, es + fs) == Run(cfg, Run(cfg, s, es), fs)
  {
    if |fs| == 0 {
      assert es + fs == es;
    } else {
      RunAppend(cfg, s, es, fs[..|fs| - 1]);
      assert (es + fs)[..|es + fs| - 1] == es + fs[..|fs| - 1];
    }
  }

  // ---------------------------------------------------------------------------------------------
  // Paid at most once
  // ---------------------------------------------------------------------------------------------

  /** The one transaction that may still pay: the recorded one, or the one about to be recorded. */
  function Live(s: State): Option<Hash> {
    if s.phase.Saving? then Some(s.phase.hash) else s.row.txHash
  }

  predicate OthersDead(s: State) {
    forall h | 0 <= h < |s.chain.txs| && Some(h) != Live(s) :: s.chain.txs[h].Dead()
  }

  predicate PhaseFits(s: State) {
    match s.phase
    case AskReceipt(_) => s.row.txHash.Some?
    case AskDepth(_, _) => s.row.txHash.Some?
    case AskLookup(_) => s.row.txHash.Some?
    case CheckGas(_) => NothingAlive(s)
    case Broadcasting(_) => NothingAlive(s)
    case Saving(_, h) => h < |s.chain.txs|
    case Waiting(_, h) => s.row.txHash == Some(h)
    case _ => true
  }

  predicate NothingAlive(s: State) {
    forall h | 0 <= h < |s.chain.txs| :: s.chain.txs[h].Dead()
  }

  predicate Safe(s: State) {
    && (s.row.txHash.Some? ==> s.row.txHash.value < |s.chain.txs|)
    && (s.row.status.SETTLED? ==> s.row.txHash.Some?)
    && OthersDead(s) && PhaseFits(s)
  }

  lemma MoveKeepsDead(c: Chain, confirmations: nat, step: ChainStep)
    ensures |Move(c, confirmations, step).txs| == |c.txs|
    ensures forall h | 0 <= h < |c.txs| && c.txs[h].Dead() :: Move(c, confirmations, step).txs[h] == c.txs[h]
  {
  }

  lemma StepIsSafe(cfg: Config, s: State, e: Event)
    requires Safe(s)
    ensures Safe(Step(cfg, s, e))
  {
    if e.OnChain? {
      MoveKeepsDead(s.chain, cfg.confirmations, e.step);
    }
  }

  lemma {:induction false} AlwaysSafe(cfg: Config, height: nat, es: seq<Event>)
    ensures Safe(Run(cfg, Created(height), es))
    decreases |es|
  {
    if |es| > 0 {
      AlwaysSafe(cfg, height, es[..|es| - 1]);
      StepIsSafe(cfg, Run(cfg, Created(height), es[..|es| - 1]), es[|es| - 1]);
    }
  }

  /**
   In every run, through timeouts, node errors, waits, replays and reorganisations, every hash ever
   broadcast other than the recorded one is dead once no broadcast is being recorded, and at most
   one transaction has paid.
   */
  lemma PaidAtMostOnce(cfg: Config, height: nat, es: seq<Event>)
    ensures var s := Run(cfg, Created(height), es);
            && (!s.phase.Saving? ==>
                  forall h | 0 <= h < |s.chain.txs| && s.row.txHash != Some(h) :: s.chain.txs[h].Dead())
            && forall g, h | 0 <= g < |s.chain.txs| && 0 <= h < |s.chain.txs|
                             && s.chain.txs[g].Paid() && s.chain.txs[h].Paid() :: g == h
  {
    AlwaysSafe(cfg, height, es);
    var s := Run(cfg, Created(height), es);
    forall g, h | 0 <= g < |s.chain.txs| && 0 <= h < |s.chain.txs|
                  && s.chain.txs[g].Paid() && s.chain.txs[h].Paid()
      ensures g == h
    {
      assert Some(g) == Live(s) && Some(h) == Live(s);
    }
  }

  // ---------------------------------------------------------------------------------------------
  // Settled means paid for good
  // ---------------------------------------------------------------------------------------------

  predicate Final(cfg: Config, c: Chain, h: Hash) {
    h < |c.txs| && c.txs[h].Paid() && c.Depth(c.txs[h].block) >= cfg.confirmations
  }

  predicate SettledIsFinal(cfg: Config, s: State) {
    s.row.status.SETTLED? ==> s.row.txHash.Some? && Final(cfg, s.chain, s.row.txHash.value)
  }

  /** The receipt an attempt holds while it asks for the depth still describes the chain. */
  predicate ReceiptIsCurrent(s: State) {
    s.phase.AskDepth? && Known(s) ==> s.chain.txs[s.row.txHash.value] == Mined(true, s.phase.block)
  }

  /** No reorganisation falls between an attempt's two reads, the receipt and the depth. */
  ghost predicate NoReorgBetweenReads(cfg: Config, s: State, es: seq<Event>) {
    forall i | 0 <= i < |es| && es[i].OnChain? && es[i].step.Reorg? :: !Run(cfg, s, es[..i]).phase.AskDepth?
  }

  /** A settled row is at rest: nothing starts another attempt on it. */
  predicate SettledIsIdle(s: State) {
    s.row.status.SETTLED? ==> s.phase.Idle?
  }

  lemma StepKeepsFinality(cfg: Config, s: State, e: Event)
    requires Safe(s) && SettledIsFinal(cfg, s) && ReceiptIsCurrent(s) && SettledIsIdle(s)
    requires e.OnChain? && e.step.Reorg? ==> !s.phase.AskDepth?
    ensures var t := Step(cfg, s, e); SettledIsFinal(cfg, t) && ReceiptIsCurrent(t) && SettledIsIdle(t)
  {
  }

  lemma {:induction false} SettledIsFinalUnlessReorgBetweenReads(cfg: Config, height: nat, es: seq<Event>)
    requires NoReorgBetweenReads(cfg, Created(height), es)
    ensures var s := Run(cfg, Created(height), es);
            SettledIsFinal(cfg, s) && ReceiptIsCurrent(s) && SettledIsIdle(s)
    decreases |es|
  {
    if |es| > 0 {
      var before, last := es[..|es| - 1], es[|es| - 1];
      forall i | 0 <= i < |before| && before[i].OnChain? && before[i].step.Reorg?
        ensures !Run(cfg, Created(height), before[..i]).phase.AskDepth?
      {
        assert es[..i] == before[..i] && es[i] == before[i];
      }
      SettledIsFinalUnlessReorgBetweenReads(cfg, height, before);
      AlwaysSafe(cfg, height, before);
      StepKeepsFinality(cfg, Run(cfg, Created(height), before), last);
    }
  }

  predicate BlocksExist(c: Chain) {
    forall h | 0 <= h < |c.txs| && c.txs[h].Mined? :: c.txs[h].block <= c.height
  }

  lemma {:induction false} BlocksAlwaysExist(cfg: Config, height: nat, es: seq<Event>)
    ensures BlocksExist(Run(cfg, Created(height), es).chain)
    decreases |es|
  {
    if |es| > 0 {
      BlocksAlwaysExist(cfg, height, es[..|es| - 1]);
    }
  }

  /** With one confirmation nothing mined can be reorganised, so no run can contain a reorg. */
  lemma {:induction false} OneConfirmationIsFinal(cfg: Config, height: nat, es: seq<Event>)
    requires cfg.confirmations == 1
    ensures var s := Run(cfg, Created(height), es);
            SettledIsFinal(cfg, s) && ReceiptIsCurrent(s) && SettledIsIdle(s)
    decreases |es|
  {
    if |es| > 0 {
      var before := es[..|es| - 1];
      OneConfirmationIsFinal(cfg, height, before);
      AlwaysSafe(cfg, height, before);
      BlocksAlwaysExist(cfg, height, before);
      var s, e := Run(cfg, Created(height), before), es[|es| - 1];
      if e.OnChain? && e.step.Reorg? {
        assert Move(s.chain, 1, e.step) == s.chain;
      } else {
        StepKeepsFinality(cfg, s, e);
      }
    }
  }

  function Blocks(n: nat): seq<Event> {
    seq(n, _ => OnChain(NewBlock))
  }

  lemma {:induction false} BlocksRaiseHeight(cfg: Config, s: State, n: nat)
    ensures Run(cfg, s, Blocks(n)) == s.(chain := s.chain.(height := s.chain.height + n))
  {
    if n > 0 {
      assert Blocks(n)[..n - 1] == Blocks(n - 1);
      BlocksRaiseHeight(cfg, s, n - 1);
    }
  }

  /** The run in which a row becomes settled although its transaction is back in the mempool. */
  function TornReads(cfg: Config): seq<Event> {
    [Submit, Begin(0), GasChecked(Answers), Broadcast(Answers), HashSaved, Waited(Throws(Transient)),
     Again(cfg), Begin(0), OnChain(Mine(0, true)), ReceiptRead(Answers), OnChain(Reorg(0))]
    + Blocks(cfg.confirmations) + [DepthRead(Answers)]
  }

  /** What starts the attempt after a timed-out first one: the backoff, or a replay of the dead letter. */
  function Again(cfg: Config): Event {
    if cfg.maxAttempts >= 2 then Due(BackoffMs(cfg, 1)) else Replay
  }

  lemma {:induction false} RunSteps(cfg: Config, s: State, e: Event, es: seq<Event>)
    ensures Run(cfg, s, [e] + es) == Run(cfg, Step(cfg, s, e), es)
  {
    RunAppend(cfg, s, [e], es);
    assert Run(cfg, s, [e]) == Step(cfg, Run(cfg, s, [e][..0]), e);
  }

  /** The states after the hash is saved, at the replayed attempt's first read, and after the reorg. */
  function TornStates(cfg: Config, height: nat): (r: (State, State, State))
    requires cfg.confirmations >= 2
    ensures r.2.phase == AskDepth(0, height) && r.2.chain == Chain(height, [Pending]) && r.2.row.txHash == Some(0)
  {
    var s1 := Step(cfg, Step(cfg, Step(cfg, Step(cfg, Step(cfg, Created(height), Submit), Begin(0)),
                                       GasChecked(Answers)), Broadcast(Answers)), HashSaved);
    assert s1.phase == Waiting(0, 0) && s1.chain == Chain(height, [Pending]) && s1.row.txHash == Some(0);
    var s2 := Step(cfg, Step(cfg, Step(cfg, s1, Waited(Throws(Transient))), Again(cfg)), Begin(0));
    assert s2.phase == AskReceipt(0) && s2.chain == s1.chain && s2.row.txHash == Some(0);
    (s1, s2, Step(cfg, Step(cfg, Step(cfg, s2, OnChain(Mine(0, true))), ReceiptRead(Answers)), OnChain(Reorg(0))))
  }

  lemma TornReadsSettleUnpaid(cfg: Config, height: nat)
    requires cfg.confirmations >= 2
    ensures var s := Run(cfg, Created(height), TornReads(cfg));
            && s.row.status.SETTLED? && s.row.txHash == Some(0) && s.chain.txs == [Pending]
            && !SettledIsFinal(cfg, s)
  {
    var c := cfg.confirmations;
    var last := Blocks(c) + [DepthRead(Answers)];
    var es := TornReads(cfg);
    var s0 := Created(height);
    assert es == [Submit] + ([Begin(0)] + ([GasChecked(Answers)] + ([Broadcast(Answers)] + ([HashSaved]
              + ([Waited(Throws(Transient))] + ([Again(cfg)] + ([Begin(0)] + ([OnChain(Mine(0, true))]
              + ([ReceiptRead(Answers)] + ([OnChain(Reorg(0))] + last))))))))));
    var (s1, s2, s3) := TornStates(cfg, height);
    UnrollTorn(cfg, s0, s1, s2, s3, last);
    RunAppend(cfg, s3, Blocks(c), [DepthRead(Answers)]);
    BlocksRaiseHeight(cfg, s3, c);
    var s4 := s3.(chain := s3.chain.(height := height + c));
    RunSteps(cfg, s4, DepthRead(Answers), []);
    assert [DepthRead(Answers)] + [] == [DepthRead(Answers)];
  }

  lemma UnrollTorn(cfg: Config, s0: State, s1: State, s2: State, s3: State, last: seq<Event>)
    requires s1 == Step(cfg, Step(cfg, Step(cfg, Step(cfg, Step(cfg, s0, Submit), Begin(0)), GasChecked(Answers)),
                                  Broadcast(Answers)), HashSaved)
    requires s2 == Step(cfg, Step(cfg, Step(cfg, s1, Waited(Throws(Transient))), Again(cfg)), Begin(0))
    requires s3 == Step(cfg, Step(cfg, Step(cfg, s2, OnChain(Mine(0, true))), ReceiptRead(Answers)), OnChain(Reorg(0)))
    ensures Run(cfg, s0, [Submit] + ([Begin(0)] + ([GasChecked(Answers)] + ([Broadcast(Answers)] + ([HashSaved]
              + ([Waited(Throws(Transient))] + ([Again(cfg)] + ([Begin(0)] + ([OnChain(Mine(0, true))]
              + ([ReceiptRead(Answers)] + ([OnChain(Reorg(0))] + last))))))))))) == Run(cfg, s3, last)
  {
    var e11 := [OnChain(Reorg(0))] + last;
    var e10 := [ReceiptRead(Answers)] + e11;
    var e9 := [OnChain(Mine(0, true))] + e10;
    var e8 := [Begin(0)] + e9;
    var e7 := [Again(cfg)] + e8;
    var e6 := [Waited(Throws(Transient))] + e7;
    var e5 := [HashSaved] + e6;
    var e4 := [Broadcast(Answers)] + e5;
    var e3 := [GasChecked(Answers)] + e4;
    var e2 := [Begin(0)] + e3;
    var a1 := Step(cfg, s0, Submit);
    var a2 := Step(cfg, a1, Begin(0));
    var a3 := Step(cfg, a2, GasChecked(Answers));
    var a4 := Step(cfg, a3, Broadcast(Answers));
    var a6 := Step(cfg, s1, Waited(Throws(Transient)));
    var a7 := Step(cfg, a6, Again(cfg));
    var a9 := Step(cfg, s2, OnChain(Mine(0, true)));
    var a10 := Step(cfg, a9, ReceiptRead(Answers));
    RunSteps(cfg, s0, Submit, e2);
    RunSteps(cfg, a1, Begin(0), e3);
    RunSteps(cfg, a2, GasChecked(Answers), e4);
    RunSteps(cfg, a3, Broadcast(Answers), e5);
    RunSteps(cfg, a4, HashSaved, e6);
    RunSteps(cfg, s1, Waited(Throws(Transient)), e7);
    RunSteps(cfg, a6, Again(cfg), e8);
    RunSteps(cfg, a7, Begin(0), e9);
    RunSteps(cfg, s2, OnChain(Mine(0, true)), e10);
    RunSteps(cfg, a9, ReceiptRead(Answers), e11);
    RunSteps(cfg, a10, OnChain(Reorg(0)), last);
  }

  /** `settled` means paid to the required depth in every run exactly when one confirmation is required. */
  lemma SettledIsAlwaysFinalIff(cfg: Config, height: nat)
    requires cfg.confirmations >= 1
    ensures (forall es :: SettledIsFinal(cfg, Run(cfg, Created(height), es))) <==> cfg.confirmations == 1
  {
    if cfg.confirmations == 1 {
      forall es
        ensures SettledIsFinal(cfg, Run(cfg, Created(height), es))
      {
        OneConfirmationIsFinal(cfg, height, es);
      }
    } else {
      TornReadsSettleUnpaid(cfg, height);
    }
  }

  lemma SettledStep(cfg: Config, s: State, e: Event)
    requires s.phase.Idle? && s.row.status.SETTLED?
    ensures var t := Step(cfg, s, e); t.row == s.row && t.phase.Idle? && |t.chain.txs| == |s.chain.txs|
  {
  }

  /** A settled row never changes again and sends nothing more. */
  lemma {:induction false} SettledIsAbsorbing(cfg: Config, s: State, es: seq<Event>)
    requires s.phase.Idle? && s.row.status.SETTLED?
    ensures var t := Run(cfg, s, es); t.row == s.row && t.phase.Idle? && |t.chain.txs| == |s.chain.txs|
    decreases |es|
  {
    if |es| > 0 {
      SettledIsAbsorbing(cfg, s, es[..|es| - 1]);
      SettledStep(cfg, Run(cfg, s, es[..|es| - 1]), es[|es| - 1]);
    }
  }

  // ---------------------------------------------------------------------------------------------
  // Bookkeeping of the retry queue
  // ---------------------------------------------------------------------------------------------

  function BackoffSum(cfg: Config, k: nat): int {
    if k == 0 then 0 else BackoffSum(cfg, k - 1) + BackoffMs(cfg, k)
  }

  predicate Booked(cfg: Config, s: State) {
    && 0 <= s.row.attempts <= cfg.maxAttempts
    && s.tally.broadcasts <= s.row.attempts
    && (match s.phase
        case Idle =>
          && (s.row.nextRetryAt.Some? <==> s.row.status.RETRYING?)
          && (s.row.status.RETRYING? ==> s.row.attempts < cfg.maxAttempts
                                         && s.tally.backoff == BackoffSum(cfg, s.row.attempts))
          && (s.row.status.PENDING? ==> s.row.attempts == 0 && s.tally.backoff == 0)
        case Ready => s.row.attempts < cfg.maxAttempts && s.tally.backoff == BackoffSum(cfg, s.row.attempts)
        case _ =>
          && s.row.attempts >= 1
          && s.tally.backoff == BackoffSum(cfg, s.row.attempts - 1)
          && (if s.phase.Saving? || s.phase.Waiting? then s.tally.broadcasts <= s.row.attempts
              else s.tally.broadcasts <= s.row.attempts - 1))
  }

  lemma StepIsBooked(cfg: Config, s: State, e: Event)
    requires ValidConfig(cfg) && Booked(cfg, s)
    ensures Booked(cfg, Step(cfg, s, e))
  {
    if !s.phase.Idle? && !s.phase.Ready? {
      hide Failed;
      forall failure
        ensures Booked(cfg, Failed(cfg, s, s.phase.now, failure))
      {
        FailureIsBooked(cfg, s, s.phase.now, failure);
      }
    }
  }

  lemma FailureIsBooked(cfg: Config, s: State, now: int, failure: Failure)
    requires ValidConfig(cfg) && Booked(cfg, s) && !s.phase.Idle? && !s.phase.Ready?
    ensures Booked(cfg, Failed(cfg, s, now, failure))
  {
  }

  /**
   Between attempts `nextRetryAt` is set exactly while retrying; a retrying row has attempts left; a
   fresh start allows at most `maxAttempts` counted attempts and as many broadcasts, waiting uses up
   none; and the delays given since a fresh start are those of its counted failures.
   */
  lemma {:induction false} AlwaysBooked(cfg: Config, height: nat, es: seq<Event>)
    requires ValidConfig(cfg)
    ensures Booked(cfg, Run(cfg, Created(height), es))
    decreases |es|
  {
    if |es| > 0 {
      AlwaysBooked(cfg, height, es[..|es| - 1]);
      StepIsBooked(cfg, Run(cfg, Created(height), es[..|es| - 1]), es[|es| - 1]);
    }
  }

  /** Over a whole run no more transactions are sent than `maxAttempts` for each fresh start. */
  lemma {:induction false} BroadcastsAreBounded(cfg: Config, height: nat, es: seq<Event>)
    requires ValidConfig(cfg)
    ensures var s := Run(cfg, Created(height), es);
            |s.chain.txs| <= cfg.maxAttempts * s.tally.replays + s.tally.broadcasts
            <= cfg.maxAttempts * (s.tally.replays + 1)
    decreases |es|
  {
    AlwaysBooked(cfg, height, es);
    MulSucc(cfg.maxAttempts, Run(cfg, Created(height), es).tally.replays);
    if |es| > 0 {
      var s, e := Run(cfg, Created(height), es[..|es| - 1]), es[|es| - 1];
      BroadcastsAreBounded(cfg, height, es[..|es| - 1]);
      StepCountsBroadcasts(cfg, s, e);
    }
  }

  lemma MulSucc(m: int, n: int)
    ensures m * (n + 1) == m * n + m
  {
  }

  lemma StepCountsBroadcasts(cfg: Config, s: State, e: Event)
    ensures var t := Step(cfg, s, e);
            if t.tally.replays == s.tally.replays
            then |t.chain.txs| - t.tally.broadcasts == |s.chain.txs| - s.tally.broadcasts
            else t.tally.replays == s.tally.replays + 1 && t.tally.broadcasts == 0 && |t.chain.txs| == |s.chain.txs|
  {
  }

  lemma {:induction false} DoubledIsProduct(base: int, exponent: nat)
    ensures Doubled(base, exponent) == base * Pow2(exponent)
  {
    if exponent > 0 {
      DoubledIsProduct(base, exponent - 1);
      var p := Pow2(exponent - 1);
      assert base * (2 * p) == 2 * (base * p);
    }
  }

  lemma {:induction false} DoubledMonotone(base: int, m: nat, n: nat)
    requires base >= 0 && m <= n
    ensures 0 <= Doubled(base, m) <= Doubled(base, n)
    decreases n
  {
    if m < n {
      DoubledMonotone(base, m, n - 1);
    } else if n > 0 {
      DoubledMonotone(base, n - 1, n - 1);
    }
  }

  lemma {:induction false} SumBelowDoubled(cfg: Config, k: nat)
    requires ValidConfig(cfg)
    ensures 0 <= BackoffSum(cfg, k) <= Doubled(cfg.baseDelayMs, k) - cfg.baseDelayMs
  {
    if k > 0 {
      SumBelowDoubled(cfg, k - 1);
      DoubledMonotone(cfg.baseDelayMs, Min(k - 1, 30), k - 1);
    }
  }

  lemma DelayBelowMax(cfg: Config, failures: nat)
    requires ValidConfig(cfg) && failures >= 1
    ensures BackoffMs(cfg, failures) <= cfg.maxDelayMs
  {
  }

  lemma NextMultiple(k: nat, m: int)
    requires k > 0
    ensures (k - 1) * m + m == k * m
  {
  }

  lemma {:induction false} SumBelowMax(cfg: Config, k: nat)
    requires ValidConfig(cfg)
    ensures BackoffSum(cfg, k) <= k * cfg.maxDelayMs
  {
    if k > 0 {
      SumBelowMax(cfg, k - 1);
      DelayBelowMax(cfg, k);
      NextMultiple(k, cfg.maxDelayMs);
    }
  }

  /** After k failures the summed backoff is at most min(base * (2^k - 1), k * max). */
  lemma BackoffIsBounded(cfg: Config, k: nat)
    requires ValidConfig(cfg)
    ensures 0 <= BackoffSum(cfg, k) <= Min(cfg.baseDelayMs * (Pow2(k) - 1), k * cfg.maxDelayMs)
  {
    SumBelowDoubled(cfg, k);
    SumBelowMax(cfg, k);
    DoubledIsProduct(cfg.baseDelayMs, k);
    MulSucc(cfg.baseDelayMs, Pow2(k) - 1);
  }
}
