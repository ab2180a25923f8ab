/**
 What an attempt makes of its row, from what its reads see: the chain as it stands at each `await`, and
 the answers. Nothing here uses the steps of the machine in Settlement except how the chain moves.
 */
module SettlementOutcome {
  import opened Base
  import opened Settlement

  /** What happens while one answer is awaited, and the answer. */
  datatype Await = Await(meanwhile: seq<ChainStep>, reply: Reply)

  /** The environment of one attempt. */
  datatype Script = Script(
    receipt: Await, depth: Await, lookup: Await, gas: Await, broadcast: Await, saved: seq<ChainStep>, wait: Await)

  /** What the reads of an attempt amount to. */
  datatype Seen = Payment | Undecided | Nothing | Failure(failure: Settlement.Failure)

  /** What was seen, with the chain and the recorded hash at that moment. */
  datatype Finding = Finding(seen: Seen, chain: Chain, txHash: Option<Hash>)

  /** The chain once these moves have happened. */
  function After(cfg: Config, c: Chain, steps: seq<ChainStep>): (after: Chain)
    ensures |after.txs| == |c.txs|
  {
    if |steps| == 0 then c
    else Move(After(cfg, c, steps[..|steps| - 1]), cfg.confirmations, steps[|steps| - 1])
  }

  /** A block has this many blocks on it, itself included. */
  predicate IsDeep(cfg: Config, c: Chain, block: nat) {
    c.height - block + 1 >= cfg.confirmations
  }

  /** Mined, successful and deep enough. */
  predicate HasPaid(cfg: Config, c: Chain, hash: Hash) {
    hash < |c.txs| && c.txs[hash].Mined? && c.txs[hash].ok && IsDeep(cfg, c, c.txs[hash].block)
  }

  predicate HasFailed(c: Chain, hash: Hash) {
    hash < |c.txs| && c.txs[hash].Mined? && !c.txs[hash].ok
  }

  /** The look at the transaction of an earlier attempt. */
  function Look(cfg: Config, txHash: Option<Hash>, c: Chain, script: Script): (found: Finding)
    requires txHash.Some? ==> txHash.value < |c.txs|
    ensures found.txHash == txHash && |found.chain.txs| == |c.txs|
  {
    if txHash.None? then Finding(Nothing, c, txHash)
    else
      var read := After(cfg, c, script.receipt.meanwhile);
      if script.receipt.reply.Throws? then Finding(Failure(script.receipt.reply.failure), read, txHash)
      else if !read.txs[txHash.value].Mined? then
        var later := After(cfg, read, script.lookup.meanwhile);
        if script.lookup.reply.Throws? then Finding(Failure(script.lookup.reply.failure), later, txHash)
        else Finding(if later.txs[txHash.value].Dropped? then Nothing else Undecided, later, txHash)
      else if HasFailed(read, txHash.value) then Finding(Nothing, read, txHash)
      else
        var later := After(cfg, read, script.depth.meanwhile);
        if script.depth.reply.Throws? then Finding(Failure(script.depth.reply.failure), later, txHash)
        else Finding(if IsDeep(cfg, later, read.txs[txHash.value].block) then Payment else Undecided, later, txHash)
  }

  /** The wait for a transaction: paid, reverted, or not decided in time. */
  function Awaited(cfg: Config, c: Chain, hash: Hash, script: Script): Finding {
    var end := After(cfg, c, script.wait.meanwhile);
    var seen :=
      if script.wait.reply.Throws? then Failure(script.wait.reply.failure)
      else if HasPaid(cfg, end, hash) then Payment
      else Failure(if HasFailed(end, hash) then CallException else Transient);
    Finding(seen, end, Some(hash))
  }

  /** A new transaction: the gas check, the broadcast, the save of its hash, the wait. */
  function Sending(cfg: Config, txHash: Option<Hash>, c: Chain, script: Script): Finding {
    var checked := After(cfg, c, script.gas.meanwhile);
    if script.gas.reply.Throws? then Finding(Failure(script.gas.reply.failure), checked, txHash)
    else
      var sent := After(cfg, checked, script.broadcast.meanwhile);
      if script.broadcast.reply.Throws? then Finding(Failure(script.broadcast.reply.failure), sent, txHash)
      else
        var more := sent.(txs := sent.txs + [Pending]);
        Awaited(cfg, After(cfg, more, script.saved), |sent.txs|, script)
  }

  /** A whole attempt: a new transaction only where the look finds nothing to wait for. */
  function Found(cfg: Config, txHash: Option<Hash>, c: Chain, script: Script): Finding
    requires txHash.Some? ==> txHash.value < |c.txs|
  {
    var look := Look(cfg, txHash, c, script);
    if look.seen.Nothing? then Sending(cfg, txHash, look.chain, script) else look
  }

  /** What the attempt writes to the row it found. */
  function Written(cfg: Config, row: Row, now: int, found: Finding): Row {
    match found.seen
    case Payment =>
      Row(SETTLED, row.attempts + 1, None, found.txHash, Some(now), None)
    case Failure(failure) =>
      var r := row.(attempts := row.attempts + 1, txHash := found.txHash, lastError := Some(failure));
      if failure in {CallException, InvalidArgument, UnsupportedOperation} then
        r.(status := REJECTED, nextRetryAt := None)
      else if row.attempts + 1 >= cfg.maxAttempts then
        r.(status := DEAD_LETTER, nextRetryAt := None)
      else
        var delay := Min(cfg.baseDelayMs * Pow2(Min(Max(row.attempts, 0), 30)), cfg.maxDelayMs);
        r.(status := RETRYING, nextRetryAt := Some(now + delay))
    case _ =>
      // still pending: only wait, and the attempt does not count
      row.(status := RETRYING, nextRetryAt := Some(now + cfg.baseDelayMs))
  }

  /** The row and the chain as an attempt leaves them. */
  function Outcome(cfg: Config, row: Row, c: Chain, now: int, script: Script): (Row, Chain)
    requires row.txHash.Some? ==> row.txHash.value < |c.txs|
  {
    var found := Found(cfg, row.txHash, c, script);
    (Written(cfg, row, now, found), found.chain)
  }

  // ---------------------------------------------------------------------------------------------
  // How an attempt ends
  // ---------------------------------------------------------------------------------------------

  /** The chain after these moves and then those. */
  lemma {:induction false} AfterBoth(cfg: Config, c: Chain, a: seq<ChainStep>, b: seq<ChainStep>)
    ensures After(cfg, c, a + b) == After(cfg, After(cfg, c, a), b)
  {
    if |b| == 0 {
      assert a + b == a;
    } else {
      AfterBoth(cfg, c, a, b[..|b| - 1]);
      assert (a + b)[..|a + b| - 1] == a + b[..|b| - 1];
    }
  }

  /** The earlier transaction was mined ok, and deep enough when its depth was read. */
  predicate EarlierPaid(cfg: Config, txHash: Option<Hash>, c: Chain, script: Script)
    requires txHash.Some? ==> txHash.value < |c.txs|
  {
    && txHash.Some? && script.receipt.reply.Answers? && script.depth.reply.Answers?
    && var read := After(cfg, c, script.receipt.meanwhile).txs[txHash.value];
       && read.Mined? && read.ok
       && IsDeep(cfg, After(cfg, c, script.receipt.meanwhile + script.depth.meanwhile), read.block)
  }

  /** There is no earlier transaction, or it was mined and reverted, or the node no longer knew it. */
  predicate NothingEarlier(cfg: Config, txHash: Option<Hash>, c: Chain, script: Script)
    requires txHash.Some? ==> txHash.value < |c.txs|
  {
    || txHash.None?
    || (script.receipt.reply.Answers? && HasFailed(After(cfg, c, script.receipt.meanwhile), txHash.value))
    || (&& script.receipt.reply.Answers? && script.lookup.reply.Answers?
        && !After(cfg, c, script.receipt.meanwhile).txs[txHash.value].Mined?
        && After(cfg, c, script.receipt.meanwhile + script.lookup.meanwhile).txs[txHash.value].Dropped?)
  }

  /** A new transaction was sent, and at the end of its wait it was mined ok and deep enough. */
  predicate NewOnePaid(cfg: Config, txHash: Option<Hash>, c: Chain, script: Script)
    requires txHash.Some? ==> txHash.value < |c.txs|
  {
    && NothingEarlier(cfg, txHash, c, script)
    && script.gas.reply.Answers? && script.broadcast.reply.Answers? && script.wait.reply.Answers?
    && var sent := After(cfg, Look(cfg, txHash, c, script).chain, script.gas.meanwhile + script.broadcast.meanwhile);
       HasPaid(cfg, After(cfg, sent.(txs := sent.txs + [Pending]), script.saved + script.wait.meanwhile), |c.txs|)
  }

  lemma LookIff(cfg: Config, txHash: Option<Hash>, c: Chain, script: Script)
    requires txHash.Some? ==> txHash.value < |c.txs|
    ensures Look(cfg, txHash, c, script).seen.Payment? <==> EarlierPaid(cfg, txHash, c, script)
    ensures Look(cfg, txHash, c, script).seen.Nothing? <==> NothingEarlier(cfg, txHash, c, script)
  {
    AfterBoth(cfg, c, script.receipt.meanwhile, script.depth.meanwhile);
    AfterBoth(cfg, c, script.receipt.meanwhile, script.lookup.meanwhile);
  }

  lemma SendingIff(cfg: Config, txHash: Option<Hash>, c: Chain, script: Script)
    ensures var sent := After(cfg, c, script.gas.meanwhile + script.broadcast.meanwhile);
            var end := After(cfg, sent.(txs := sent.txs + [Pending]), script.saved + script.wait.meanwhile);
            Sending(cfg, txHash, c, script).seen.Payment?
            <==> script.gas.reply.Answers? && script.broadcast.reply.Answers? && script.wait.reply.Answers?
                 && HasPaid(cfg, end, |c.txs|)
    ensures Sending(cfg, txHash, c, script).seen.Payment? || Sending(cfg, txHash, c, script).seen.Failure?
  {
    AfterBoth(cfg, c, script.gas.meanwhile, script.broadcast.meanwhile);
    var sent := After(cfg, c, script.gas.meanwhile + script.broadcast.meanwhile);
    AfterBoth(cfg, sent.(txs := sent.txs + [Pending]), script.saved, script.wait.meanwhile);
  }

  /** A row is settled by an attempt exactly when the earlier transaction, or the new one, has paid. */
  lemma SettledIff(cfg: Config, row: Row, c: Chain, now: int, script: Script)
    requires (row.txHash.Some? ==> row.txHash.value < |c.txs|) && !row.status.SETTLED?
    ensures var found := Found(cfg, row.txHash, c, script);
            Written(cfg, row, now, found) == Row(SETTLED, row.attempts + 1, None, found.txHash, Some(now), None)
            <==> EarlierPaid(cfg, row.txHash, c, script) || NewOnePaid(cfg, row.txHash, c, script)
    ensures Written(cfg, row, now, Found(cfg, row.txHash, c, script)).status.SETTLED?
            <==> EarlierPaid(cfg, row.txHash, c, script) || NewOnePaid(cfg, row.txHash, c, script)
  {
    LookIff(cfg, row.txHash, c, script);
    SendingIff(cfg, row.txHash, Look(cfg, row.txHash, c, script).chain, script);
  }

  /**
   A first attempt ends settled exactly when nothing threw and the chain it leaves holds its
   transaction, the last one, mined ok at the required depth.
   */
  lemma FirstAttemptSettlesIff(cfg: Config, row: Row, c: Chain, now: int, script: Script)
    requires row.txHash.None? && !row.status.SETTLED?
    ensures var found := Found(cfg, None, c, script);
            Written(cfg, row, now, found).status.SETTLED?
            <==> script.gas.reply.Answers? && script.broadcast.reply.Answers? && script.wait.reply.Answers?
                 && HasPaid(cfg, found.chain, |c.txs|)
  {
  }
}
