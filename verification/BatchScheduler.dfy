/**
 The batch scheduler: each tick groups the unsettled receipts by escrow, cuts the due ones into
 batches, opens a settlement for each batch and marks its receipts. While a tick awaits, receipts and
 settlements of other callers appear.
 */
module BatchScheduler {
  import opened Base
  import opened BatchStore
  import opened Receipts
  import Amount
  import BatchCalldata
  import CompactAcceptance
  import CompactCodec
  import Merkle

  // ---------------------------------------------------------------------------------------------
  // groupByEscrow
  // ---------------------------------------------------------------------------------------------

  datatype Group = Group(escrowId: string, rows: seq<Row>)

  /** Where a map that keeps insertion order holds the key; its size when it does not. */
  function Position(groups: seq<Group>, escrowId: string): (i: nat)
    ensures i <= |groups|
    ensures i < |groups| ==> groups[i].escrowId == escrowId
    ensures forall j | 0 <= j < i :: groups[j].escrowId != escrowId
  {
    if |groups| == 0 || groups[0].escrowId == escrowId then 0 else 1 + Position(groups[1..], escrowId)
  }

  /** The rows by escrow, escrows in the order of their first row. */
  function Groups(rows: seq<Row>): seq<Group> {
    if |rows| == 0 then []
    else
      var row, front := rows[|rows| - 1], Groups(rows[..|rows| - 1]);
      var at := Position(front, row.escrowId);
      if at < |front| then front[at := Group(row.escrowId, front[at].rows + [row])]
      else front + [Group(row.escrowId, [row])]
  }

  method GroupByEscrow(receipts: seq<Row>) returns (groups: seq<Group>)
    ensures groups == Groups(receipts) && AreGroups(groups, receipts)
  {
    groups := [];
    for i := 0 to |receipts|
      invariant groups == Groups(receipts[..i]) && AreGroups(groups, receipts[..i])
    {
      var row := receipts[i];
      assert receipts[..i + 1] == receipts[..i] + [row] && receipts[..i + 1][..i] == receipts[..i];
      ghost var before := groups;
      var at := Position(groups, row.escrowId);
      if at < |groups| {
        groups := groups[at := Group(row.escrowId, groups[at].rows + [row])];
      } else {
        groups := groups + [Group(row.escrowId, [row])];
      }
      GroupsGrow(before, receipts[..i], row, groups);
    }
    assert receipts[..|receipts|] == receipts;
  }

  /** The rows of one escrow, in order. */
  function OfEscrow(rows: seq<Row>, escrowId: string): (found: seq<Row>)
    ensures forall row | row in found :: row in rows && row.escrowId == escrowId
  {
    if |rows| == 0 then []
    else
      var front := OfEscrow(rows[..|rows| - 1], escrowId);
      if rows[|rows| - 1].escrowId == escrowId then front + [rows[|rows| - 1]] else front
  }

  /** One group for each escrow that has rows, holding all of them in order. */
  ghost predicate AreGroups(groups: seq<Group>, rows: seq<Row>) {
    && (forall i, j | 0 <= i < j < |groups| :: groups[i].escrowId != groups[j].escrowId)
    && (forall i | 0 <= i < |groups| ::
          |groups[i].rows| > 0 && groups[i].rows == OfEscrow(rows, groups[i].escrowId))
    && (forall e :: OfEscrow(rows, e) != [] ==> Position(groups, e) < |groups|)
  }

  lemma GroupsGrow(groups: seq<Group>, rows: seq<Row>, row: Row, after: seq<Group>)
    requires AreGroups(groups, rows)
    requires var at := Position(groups, row.escrowId);
             after == if at < |groups| then groups[at := Group(row.escrowId, groups[at].rows + [row])]
                      else groups + [Group(row.escrowId, [row])]
    ensures AreGroups(after, rows + [row])
  {
    assert (rows + [row])[..|rows|] == rows;
    forall e | OfEscrow(rows + [row], e) != []
      ensures Position(after, e) < |after|
    {
      var i := Position(groups, e);
      assert i < |groups| || e == row.escrowId;
      assert i < |after| && after[i].escrowId == e;
    }
  }

  lemma {:induction false} GroupsAreGroups(rows: seq<Row>)
    ensures AreGroups(Groups(rows), rows)
  {
    if |rows| > 0 {
      var n := |rows| - 1;
      GroupsAreGroups(rows[..n]);
      GroupsGrow(Groups(rows[..n]), rows[..n], rows[n], Groups(rows));
      assert rows == rows[..n] + [rows[n]];
    }
  }

  lemma {:induction false} OfEscrowDistinct(rows: seq<Row>, escrowId: string)
    requires DistinctRows(rows)
    ensures DistinctRows(OfEscrow(rows, escrowId))
  {
    if |rows| > 0 {
      OfEscrowDistinct(rows[..|rows| - 1], escrowId);
    }
  }

  predicate DistinctRows(rows: seq<Row>) {
    forall i, j | 0 <= i < j < |rows| :: rows[i].id != rows[j].id
  }

  // ---------------------------------------------------------------------------------------------
  // dueChunks
  // ---------------------------------------------------------------------------------------------

  predicate WindowElapsed(rows: seq<Row>, windowMs: int, now: int) {
    |rows| > 0 && now - rows[0].createdAt >= windowMs
  }

  /** How many of `n` rows fill whole batches. */
  function WholeBatches(n: nat, size: nat): (whole: nat)
    requires size > 0
    ensures whole <= n < whole + size
  {
    if n < size then 0 else size + WholeBatches(n - size, size)
  }

  /** How many of the rows are due: all once the window has elapsed, else the full batches. */
  function DueCount(rows: seq<Row>, windowMs: int, maxReceipts: nat, now: int): (due: nat)
    requires maxReceipts > 0
    ensures due <= |rows|
  {
    if WindowElapsed(rows, windowMs, now) then |rows| else WholeBatches(|rows|, maxReceipts)
  }

  /** Rows in the order of findUnsettled. */
  ghost predicate OldestFirst(rows: seq<Row>) {
    forall i, j | 0 <= i < j < |rows| :: IsOlder(rows[i], rows[j])
  }

  predicate IsOlder(a: Row, b: Row) {
    a.createdAt < b.createdAt || (a.createdAt == b.createdAt && a.id < b.id)
  }

  /** Some row has waited for the whole window. */
  ghost predicate HasOverdue(rows: seq<Row>, windowMs: int, now: int) {
    exists i :: 0 <= i < |rows| && now - rows[i].createdAt >= windowMs
  }

  lemma Multiple(size: nat, d: int)
    ensures d >= 1 ==> size * d >= size
    ensures d <= -1 ==> size * d + size <= 0
  {
  }

  lemma Quotient(n: nat, size: nat, q: nat, r: nat)
    requires size > 0 && n == size * q + r && r < size
    ensures n / size == q && n % size == r
  {
    Multiple(size, q - n / size);
    assert size * (q - n / size) == size * q - size * (n / size);
  }

  lemma {:induction false} WholeIsQuotient(n: nat, size: nat)
    requires size > 0
    ensures WholeBatches(n, size) == size * (n / size)
    ensures WholeBatches(n, size) == n <==> n % size == 0
  {
    if n < size {
      Quotient(n, size, 0, n);
    } else {
      var q, r := (n - size) / size, (n - size) % size;
      WholeIsQuotient(n - size, size);
      assert size * (q + 1) == size * q + size;
      Quotient(n, size, q + 1, r);
    }
  }

  /** What a tick owes an escrow: every row once one has waited for the window, else the full batches. */
  ghost function DueRows(rows: seq<Row>, windowMs: int, size: nat, now: int): nat
    requires size > 0
  {
    if HasOverdue(rows, windowMs, now) then |rows| else size * (|rows| / size)
  }

  /** Every row is due iff some row has waited for the window or the rows fill whole batches. */
  lemma DueIff(rows: seq<Row>, windowMs: int, size: nat, now: int)
    requires size > 0 && OldestFirst(rows)
    ensures DueCount(rows, windowMs, size, now) == DueRows(rows, windowMs, size, now)
    ensures DueCount(rows, windowMs, size, now) == |rows|
            <==> HasOverdue(rows, windowMs, now) || |rows| % size == 0
  {
    WholeIsQuotient(|rows|, size);
    if i :| 0 <= i < |rows| && now - rows[i].createdAt >= windowMs {
      assert i == 0 || IsOlder(rows[0], rows[i]);
    }
  }

  lemma NextStretch(rows: seq<Row>, i: nat, size: nat)
    requires size > 0 && i < |rows|
    ensures var end := Min(i + size, |rows|);
            rows[..i] + rows[i..end] == rows[..end] && |rows[i..end]| == end - i
            && (end < |rows| || end == i + size ==>
                  size + WholeBatches(|rows| - end, size) == WholeBatches(|rows| - i, size))
            && (end < i + size ==> WholeBatches(|rows| - i, size) == 0)
  {
  }

  /** The due rows, in order, in batches of at most `maxReceipts`, all but the last full. */
  method DueChunks(rows: seq<Row>, windowMs: int, maxReceipts: nat, now: int) returns (chunks: seq<seq<Row>>)
    requires |rows| > 0 && maxReceipts > 0
    ensures Concat(chunks) == rows[..DueCount(rows, windowMs, maxReceipts, now)]
    ensures forall k | 0 <= k < |chunks| :: 0 < |chunks[k]| <= maxReceipts
    ensures forall k | 0 <= k < |chunks| - 1 :: |chunks[k]| == maxReceipts
    ensures OldestFirst(rows) ==>
              && Concat(chunks) == rows[..DueRows(rows, windowMs, maxReceipts, now)]
              && (Concat(chunks) == rows <==> HasOverdue(rows, windowMs, now) || |rows| % maxReceipts == 0)
  {
    if OldestFirst(rows) {
      DueIff(rows, windowMs, maxReceipts, now);
    }
    hide OldestFirst, HasOverdue, DueRows;
    var windowElapsed := now - rows[0].createdAt >= windowMs;
    chunks := [];
    var i := 0;
    while i < |rows|
      invariant i <= |rows| ==> i + WholeBatches(|rows| - i, maxReceipts) == WholeBatches(|rows|, maxReceipts)
      invariant i <= |rows| ==>
                  Concat(chunks) == rows[..i] && forall k | 0 <= k < |chunks| :: |chunks[k]| == maxReceipts
      invariant i > |rows| ==> Concat(chunks) == rows[..DueCount(rows, windowMs, maxReceipts, now)]
      invariant forall k | 0 <= k < |chunks| :: 0 < |chunks[k]| <= maxReceipts
      invariant forall k | 0 <= k < |chunks| - 1 :: |chunks[k]| == maxReceipts
    {
      var end := Min(i + maxReceipts, |rows|);
      var chunk := rows[i..end];
      ConcatSnoc(chunks, chunk);
      NextStretch(rows, i, maxReceipts);
      if |chunk| == maxReceipts || windowElapsed {
        chunks := chunks + [chunk];
      }
      i := i + maxReceipts;
    }
    if i == |rows| {
      assert rows[..i] == rows;
    }
  }

  /** The rows cut in order into full batches and what is left. */
  function ChunksOf(rows: seq<Row>, size: nat): (chunks: seq<seq<Row>>)
    requires size > 0
    ensures Concat(chunks) == rows && forall k | 0 <= k < |chunks| :: 0 < |chunks[k]| <= size
  {
    if |rows| == 0 then []
    else if |rows| <= size then [rows]
    else
      ConcatCons(rows[..size], ChunksOf(rows[size..], size));
      [rows[..size]] + ChunksOf(rows[size..], size)
  }

  /** There is no other way to cut rows into full batches and a last one. */
  lemma {:induction false} CutIsUnique(chunks: seq<seq<Row>>, rows: seq<Row>, size: nat)
    requires size > 0 && Concat(chunks) == rows
    requires forall k | 0 <= k < |chunks| :: 0 < |chunks[k]| <= size
    requires forall k | 0 <= k < |chunks| - 1 :: |chunks[k]| == size
    ensures chunks == ChunksOf(rows, size)
    decreases |chunks|
  {
    if |chunks| == 1 {
      assert chunks[1..] == [] && Concat(chunks) == chunks[0] + Concat(chunks[1..]);
      assert chunks[0] == rows;
    } else if |chunks| > 1 {
      var rest := chunks[1..];
      assert rows[..size] == chunks[0] && rows[size..] == Concat(rest);
      assert |rest[0]| > 0 && Concat(rest) == rest[0] + Concat(rest[1..]);
      forall k | 0 <= k < |rest| - 1
        ensures |rest[k]| == size
      {
        assert rest[k] == chunks[k + 1];
      }
      CutIsUnique(rest, rows[size..], size);
      assert chunks == [chunks[0]] + rest;
    }
  }

  // ---------------------------------------------------------------------------------------------
  // settleChunk: the row of a batch
  // ---------------------------------------------------------------------------------------------

  datatype ChunkError = BadAmount(amount: Amount.AmountError) | BadBatch(pack: CompactCodec.PackError) | Thrown

  type Reader = string -> Result<int, Amount.AmountError>

  /** `texts.map(read)`, where `read` may throw. */
  method ReadAll(read: Reader, texts: seq<string>) returns (weis: Result<seq<int>, Amount.AmountError>)
    ensures weis.Ok? <==> forall i | 0 <= i < |texts| :: read(texts[i]).Ok?
    ensures weis.Ok? ==> |weis.value| == |texts| && forall i | 0 <= i < |texts| :: read(texts[i]) == Ok(weis.value[i])
  {
    var amounts: seq<int> := [];
    for i := 0 to |texts|
      invariant |amounts| == i && forall k | 0 <= k < i :: read(texts[k]) == Ok(amounts[k])
    {
      var wei := read(texts[i]);
      if wei.Err? {
        return Err(wei.error);
      }
      amounts := amounts + [wei.value];
    }
    return Ok(amounts);
  }

  function TextsOf(slips: seq<Slip>): (texts: seq<string>)
    ensures |texts| == |slips| && forall i | 0 <= i < |slips| :: texts[i] == slips[i].amount
  {
    seq(|slips|, i requires 0 <= i < |slips| => slips[i].amount)
  }

  method ParseAmounts(slips: seq<Slip>) returns (weis: Result<seq<int>, Amount.AmountError>)
    ensures weis.Ok? <==> AmountsParse(slips)
    ensures weis.Ok? ==> |weis.value| == |slips| && forall i | 0 <= i < |slips| :: weis.value[i] == WeiOf(slips[i])
  {
    weis := ReadAll(Amount.From, TextsOf(slips));
    assert forall i | 0 <= i < |slips| :: TextsOf(slips)[i] == slips[i].amount;
  }

  /** Amount.sum over amounts that are parsed already. */
  method AddUp(ghost slips: seq<Slip>, weis: seq<int>) returns (total: int)
    requires |weis| == |slips| && forall i | 0 <= i < |slips| :: weis[i] == WeiOf(slips[i])
    ensures total == TotalWei(slips)
  {
    total := 0;
    for i := 0 to |weis|
      invariant total == TotalWei(slips[..i])
    {
      assert slips[..i + 1][..i] == slips[..i];
      total := total + weis[i];
    }
    assert slips[..|weis|] == slips;
  }

  /** Every amount is one, and the compact codec accepts the batch. */
  predicate IsPackable(slips: seq<Slip>) {
    AmountsParse(slips) && CompactCodec.Pack(Packable(slips)).Ok?
  }

  /** Everything settleChunk computes before it calls settleBatch. */
  method Prepare(keccak: Merkle.Keccak, escrowId: string, slips: seq<Slip>)
    returns (settlement: Result<Settlement, ChunkError>)
    ensures settlement.Ok? <==> IsPackable(slips)
    ensures settlement.Ok? ==> settlement.value.escrowId == escrowId && Describes(keccak, slips, settlement.value)
  {
    var amounts := ParseAmounts(slips);
    if amounts.Err? {
      return Err(BadAmount(amounts.error));
    }
    var total := AddUp(slips, amounts.value);
    var receipts := seq(|slips|, i requires 0 <= i < |slips| && |amounts.value| == |slips| =>
      Receipt(slips[i].receiptHash, slips[i].fromAgent, slips[i].toAgent, amounts.value[i]));
    assert receipts == Packable(slips);
    var packed := BatchCalldata.PackReceiptsCompact(keccak, receipts);
    if packed.Err? {
      return Err(BadBatch(packed.error));
    }
    assert BatchCalldata.HashesOf(receipts) == HashesOf(slips);
    return Ok(Settlement(escrowId, packed.value.root, Amount.ToString(total), |slips|, packed.value.blob));
  }

  // ---------------------------------------------------------------------------------------------
  // Ticks
  // ---------------------------------------------------------------------------------------------

  /** What other callers do while a tick awaits. */
  datatype Other =
    | ReceiptCreated(escrowId: string, slip: Slip, createdAt: int)
    | SettlementOpened(settlement: Settlement)

  /** The environment of one batch: settleBatch may throw before it writes its row, not after. */
  datatype ChunkScript = ChunkScript(before: seq<Other>, throws: bool, attempting: seq<Other>)

  datatype InclusionProofOf = InclusionProofOf(index: nat, leafCount: nat, root: string, proof: seq<string>)

  datatype ProofError = NotSettled

  datatype RunResult = RunResult(ran: bool, scanned: nat, batches: nat, receipts: nat, failed: nat)

  /** A tick's time and bounds, and the environment of the k-th batch of each escrow. */
  datatype Tick = Tick(now: int, windowMs: int, maxReceipts: nat, script: (string, nat) -> ChunkScript)
  {
    /** The batches of an escrow that are due. */
    function Chunks(group: Group): (chunks: seq<seq<Row>>)
      requires maxReceipts > 0
      ensures |Concat(chunks)| <= |group.rows| && Concat(chunks) == group.rows[..|Concat(chunks)|]
    {
      ChunksOf(group.rows[..DueCount(group.rows, windowMs, maxReceipts, now)], maxReceipts)
    }

    predicate Fails(escrowId: string, chunk: seq<Row>, k: nat) {
      script(escrowId, k).throws || !IsPackable(SlipsIn(chunk))
    }

    /** From the k-th batch on, the first that throws; their number when none does. */
    function FirstFailure(escrowId: string, chunks: seq<seq<Row>>, k: nat): (f: nat)
      requires k <= |chunks|
      ensures k <= f <= |chunks|
      decreases |chunks| - k
    {
      if k == |chunks| || Fails(escrowId, chunks[k], k) then k else FirstFailure(escrowId, chunks, k + 1)
    }

    /** How many batches of the escrow the tick settles: those before its first failure. */
    function Settles(group: Group): (f: nat)
      requires maxReceipts > 0
      ensures f <= |Chunks(group)|
    {
      FirstFailure(group.escrowId, Chunks(group), 0)
    }

    predicate HasFailure(group: Group)
      requires maxReceipts > 0
    {
      Settles(group) < |Chunks(group)|
    }

    /** How many of the escrow's rows these batches hold. */
    function SettledRows(group: Group): (n: nat)
      requires maxReceipts > 0
      ensures n <= |group.rows|
    {
      ConcatCut(Chunks(group), Settles(group));
      |Concat(Chunks(group)[..Settles(group)])|
    }

    /** What one escrow adds to the result. */
    function Result(group: Group, before: RunResult): RunResult
      requires maxReceipts > 0
    {
      before.(batches := before.batches + Settles(group), receipts := before.receipts + SettledRows(group),
              failed := before.failed + if HasFailure(group) then 1 else 0)
    }

    /** The result once these escrows are done. */
    function After(groups: seq<Group>, start: RunResult): RunResult
      requires maxReceipts > 0
    {
      if |groups| == 0 then start else Result(groups[|groups| - 1], After(groups[..|groups| - 1], start))
    }
  }

  // What a tick settles of one escrow, from its rows alone.

  /** The k-th batch of the first `due` rows does not go through. */
  ghost predicate BatchFails(t: Tick, escrowId: string, rows: seq<Row>, due: nat, k: nat)
    requires due <= |rows| && t.maxReceipts * k < due
  {
    var slips := SlipsIn(rows[t.maxReceipts * k..Min(t.maxReceipts * k + t.maxReceipts, due)]);
    || t.script(escrowId, k).throws
    || !AmountsParse(slips) || !CompactAcceptance.IsAcceptable(Packable(slips))
  }

  /** None of the batches of the first `due` rows fails. */
  ghost predicate NothingFails(t: Tick, escrowId: string, rows: seq<Row>, due: nat)
    requires due <= |rows|
  {
    forall k: nat | t.maxReceipts * k < due :: !BatchFails(t, escrowId, rows, due, k)
  }

  /** Of the first `due` rows exactly the batches before the k-th go through. */
  ghost predicate StopsAt(t: Tick, escrowId: string, rows: seq<Row>, due: nat, k: nat)
    requires due <= |rows|
  {
    && (forall j: nat | j < k :: t.maxReceipts * j < due && !BatchFails(t, escrowId, rows, due, j))
    && (t.maxReceipts * k < due ==> BatchFails(t, escrowId, rows, due, k))
  }

  /** The tick settles the first `n` rows: the due ones, or those before the first batch that fails. */
  ghost predicate SettlesFirst(t: Tick, escrowId: string, rows: seq<Row>, n: nat)
    requires t.maxReceipts > 0
  {
    var due := DueRows(rows, t.windowMs, t.maxReceipts, t.now);
    due <= |rows| && exists k: nat :: StopsAt(t, escrowId, rows, due, k) && n == Min(t.maxReceipts * k, due)
  }

  lemma SliceOfTail(rows: seq<Row>, size: nat, from: nat)
    requires size <= |rows| && from < |rows| - size
    ensures rows[size..][from..Min(from + size, |rows| - size)]
         == rows[from + size..Min(from + size + size, |rows|)]
  {
  }

  lemma {:induction false} ChunkAt(rows: seq<Row>, size: nat, k: nat)
    requires size > 0
    ensures k < |ChunksOf(rows, size)| <==> size * k < |rows|
    ensures k < |ChunksOf(rows, size)| ==>
              ChunksOf(rows, size)[k] == rows[size * k..Min(size * k + size, |rows|)]
    decreases k
  {
    hide Concat;
    if k == 0 {
      assert size * k == 0;
    } else if |rows| <= size {
      Multiple(size, k);
    } else {
      var rest, at := rows[size..], size * (k - 1);
      ChunkAt(rest, size, k - 1);
      assert size * k == at + size;
      assert ChunksOf(rows, size)[1..] == ChunksOf(rest, size);
      if at < |rest| {
        SliceOfTail(rows, size, at);
      }
    }
  }

  lemma {:induction false} FirstChunksHold(rows: seq<Row>, size: nat, k: nat)
    requires size > 0 && k <= |ChunksOf(rows, size)|
    ensures |Concat(ChunksOf(rows, size)[..k])| == Min(size * k, |rows|)
  {
    hide ChunksOf;
    var chunks := ChunksOf(rows, size);
    if k > 0 {
      hide Concat;
      var at: nat := size * (k - 1);
      FirstChunksHold(rows, size, k - 1);
      ChunkAt(rows, size, k - 1);
      ConcatNext(chunks, k - 1);
      assert size * k == at + size && at < |rows|;
      assert |chunks[k - 1]| == Min(at + size, |rows|) - at;
    } else {
      assert chunks[..0] == [];
    }
  }

  lemma {:induction false} FirstFailureIff(t: Tick, escrowId: string, chunks: seq<seq<Row>>, k: nat, f: nat)
    requires k <= f <= |chunks|
    ensures t.FirstFailure(escrowId, chunks, k) == f <==>
              && (forall j | k <= j < f :: !t.Fails(escrowId, chunks[j], j))
              && (f < |chunks| ==> t.Fails(escrowId, chunks[f], f))
    decreases |chunks| - k
  {
    hide Tick.Fails;
    if k < f {
      FirstFailureIff(t, escrowId, chunks, k + 1, f);
    }
  }

  lemma FailsIff(t: Tick, escrowId: string, rows: seq<Row>, due: nat, k: nat)
    requires t.maxReceipts > 0 && due <= |rows| && t.maxReceipts * k < due
    ensures k < |ChunksOf(rows[..due], t.maxReceipts)|
    ensures t.Fails(escrowId, ChunksOf(rows[..due], t.maxReceipts)[k], k) <==> BatchFails(t, escrowId, rows, due, k)
  {
    hide CompactCodec.Pack, CompactAcceptance.IsAcceptable, AmountsParse, ChunksOf;
    var size := t.maxReceipts;
    ChunkAt(rows[..due], size, k);
    assert rows[..due][size * k..Min(size * k + size, due)] == rows[size * k..Min(size * k + size, due)];
    CompactAcceptance.PackIff(Packable(SlipsIn(rows[size * k..Min(size * k + size, due)])));
  }

  lemma StopsIff(t: Tick, escrowId: string, rows: seq<Row>, due: nat, k: nat)
    requires t.maxReceipts > 0 && due <= |rows|
    ensures var chunks := ChunksOf(rows[..due], t.maxReceipts);
            StopsAt(t, escrowId, rows, due, k) <==> k <= |chunks| && t.FirstFailure(escrowId, chunks, 0) == k
  {
    var size, chunks := t.maxReceipts, ChunksOf(rows[..due], t.maxReceipts);
    forall j: nat
      ensures j < |chunks| <==> size * j < due
      ensures j < |chunks| ==> (t.Fails(escrowId, chunks[j], j) <==> BatchFails(t, escrowId, rows, due, j))
    {
      ChunkAt(rows[..due], size, j);
      if size * j < due {
        FailsIff(t, escrowId, rows, due, j);
      }
    }
    if k > |chunks| {
      assert !(size * |chunks| < due);
    } else {
      FirstFailureIff(t, escrowId, chunks, 0, k);
    }
  }

  /** The rows of an escrow that a tick settles are the due ones, up to the first batch that fails. */
  lemma SettledRowsIff(t: Tick, group: Group, n: nat)
    requires t.maxReceipts > 0 && OldestFirst(group.rows)
    ensures SettlesFirst(t, group.escrowId, group.rows, n) <==> n == t.SettledRows(group)
  {
    var rows, due := group.rows, DueRows(group.rows, t.windowMs, t.maxReceipts, t.now);
    DueIff(rows, t.windowMs, t.maxReceipts, t.now);
    var chunks, f := ChunksOf(rows[..due], t.maxReceipts), t.Settles(group);
    assert chunks == t.Chunks(group);
    StopsIff(t, group.escrowId, rows, due, f);
    FirstChunksHold(rows[..due], t.maxReceipts, f);
    forall k: nat | StopsAt(t, group.escrowId, rows, due, k)
      ensures k == f
    {
      StopsIff(t, group.escrowId, rows, due, k);
    }
  }

  /** With nothing failing, every row of an escrow that has an overdue row is settled. */
  lemma NoneWaits(t: Tick, escrowId: string, rows: seq<Row>)
    requires t.maxReceipts > 0 && HasOverdue(rows, t.windowMs, t.now)
    requires NothingFails(t, escrowId, rows, |rows|)
    ensures SettlesFirst(t, escrowId, rows, |rows|)
  {
    var size, chunks := t.maxReceipts, ChunksOf(rows, t.maxReceipts);
    forall j: nat
      ensures j < |chunks| <==> size * j < |rows|
    {
      ChunkAt(rows, size, j);
    }
    assert !(size * |chunks| < |rows|);
    assert StopsAt(t, escrowId, rows, |rows|, |chunks|);
  }

  lemma {:induction false} OfEscrowIsOrdered(rows: seq<Row>, escrowId: string)
    requires OldestFirst(rows)
    ensures OldestFirst(OfEscrow(rows, escrowId))
  {
    if |rows| > 0 {
      var front, last := rows[..|rows| - 1], rows[|rows| - 1];
      OfEscrowIsOrdered(front, escrowId);
      forall i | 0 <= i < |OfEscrow(front, escrowId)|
        ensures IsOlder(OfEscrow(front, escrowId)[i], last)
      {
        assert OfEscrow(front, escrowId)[i] in front;
      }
    }
  }

  type Choice = Group -> bool

  ghost function EscrowsWhere(chosen: Choice, groups: seq<Group>): set<string> {
    set i | 0 <= i < |groups| && chosen(groups[i]) :: groups[i].escrowId
  }

  lemma EscrowsGrow(chosen: Choice, groups: seq<Group>)
    requires |groups| > 0
    requires forall i, j | 0 <= i < j < |groups| :: groups[i].escrowId != groups[j].escrowId
    ensures var front, last := groups[..|groups| - 1], groups[|groups| - 1];
            && last.escrowId !in EscrowsWhere(chosen, front)
            && EscrowsWhere(chosen, groups)
                == EscrowsWhere(chosen, front) + (if chosen(last) then {last.escrowId} else {})
  {
    var front := groups[..|groups| - 1];
    assert forall i | 0 <= i < |front| :: front[i] == groups[i];
  }

  ghost function Failing(t: Tick): Choice
    requires t.maxReceipts > 0
  {
    group => t.HasFailure(group)
  }

  /** The escrows with a batch that fails. */
  ghost function FailingEscrows(t: Tick, groups: seq<Group>): set<string>
    requires t.maxReceipts > 0
  {
    EscrowsWhere(Failing(t), groups)
  }

  /** `failed` counts the escrows that have a failing batch, each once. */
  lemma {:induction false} FailedCountsEscrows(t: Tick, groups: seq<Group>, start: RunResult)
    requires t.maxReceipts > 0
    requires forall i, j | 0 <= i < j < |groups| :: groups[i].escrowId != groups[j].escrowId
    ensures t.After(groups, start).failed == start.failed + |FailingEscrows(t, groups)|
  {
    if |groups| > 0 {
      var front, last := groups[..|groups| - 1], groups[|groups| - 1];
      FailedCountsEscrows(t, front, start);
      EscrowsGrow(Failing(t), groups);
    }
  }

  /** findUnsettled: the oldest `limit` rows that wait for a batch, ordered by createdAt and id. */
  ghost predicate IsUnsettledQuery(receipts: map<nat, Row>, limit: nat, rows: seq<Row>) {
    && (forall k | 0 <= k < |rows| ::
          rows[k].id in receipts && receipts[rows[k].id] == rows[k] && rows[k].settlementId.None?)
    && OldestFirst(rows)
    && |rows| <= limit
    && (forall id | id in receipts && receipts[id].settlementId.None? ::
          receipts[id] in rows || (|rows| == limit && forall k | 0 <= k < |rows| :: IsOlder(rows[k], receipts[id])))
  }

  function IdsOf(rows: seq<Row>): (ids: seq<nat>)
    ensures |ids| == |rows| && forall k | 0 <= k < |rows| :: ids[k] == rows[k].id
  {
    seq(|rows|, k requires 0 <= k < |rows| => rows[k].id)
  }

  function SlipsIn(rows: seq<Row>): (slips: seq<Slip>)
    ensures |slips| == |rows| && forall k | 0 <= k < |rows| :: slips[k] == rows[k].slip
  {
    seq(|rows|, k requires 0 <= k < |rows| => rows[k].slip)
  }

  /** The rows are as the table has them, and wait for a batch. */
  ghost predicate AreWaiting(receipts: map<nat, Row>, rows: seq<Row>) {
    && (forall k | 0 <= k < |rows| ::
          rows[k].id in receipts && receipts[rows[k].id] == rows[k] && rows[k].settlementId.None?)
    && DistinctRows(rows)
  }

  ghost predicate AreSettled(receipts: map<nat, Row>, rows: seq<Row>) {
    forall k | 0 <= k < |rows| :: rows[k].id in receipts && receipts[rows[k].id].settlementId.Some?
  }

  /** Rows may have been added; those outside `touched` are unchanged, and settled ones stay so. */
  ghost predicate OnlyTouches(before: map<nat, Row>, after: map<nat, Row>, touched: seq<Row>) {
    && (forall id | id in before :: id in after && (id !in IdsOf(touched) ==> after[id] == before[id]))
    && (forall id | id in before && before[id].settlementId.Some? :: after[id] == before[id])
  }

  lemma Untouched(receipts: map<nat, Row>)
    ensures OnlyTouches(receipts, receipts, [])
  {
  }

  predicate Within(rows: seq<Row>, others: seq<Row>) {
    forall k | 0 <= k < |rows| :: rows[k] in others
  }

  lemma TouchesCompose(a: map<nat, Row>, b: map<nat, Row>, c: map<nat, Row>, first: seq<Row>, second: seq<Row>,
      both: seq<Row>)
    requires OnlyTouches(a, b, first) && OnlyTouches(b, c, second) && Within(first, both) && Within(second, both)
    ensures OnlyTouches(a, c, both)
  {
    forall id | id in a && id !in IdsOf(both)
      ensures id !in IdsOf(first) && id !in IdsOf(second)
    {
      NotInPart(first, both, id);
      NotInPart(second, both, id);
    }
  }

  lemma NotInPart(part: seq<Row>, whole: seq<Row>, id: nat)
    requires Within(part, whole) && id !in IdsOf(whole)
    ensures id !in IdsOf(part)
  {
    forall k | 0 <= k < |part|
      ensures IdsOf(part)[k] != id
    {
      var j :| 0 <= j < |whole| && whole[j] == part[k];
      assert IdsOf(whole)[j] == part[k].id;
    }
  }

  /** Rows with other ids are waiting still. */
  lemma StillWaiting(before: map<nat, Row>, after: map<nat, Row>, touched: seq<Row>, rows: seq<Row>)
    requires OnlyTouches(before, after, touched) && AreWaiting(before, rows)
    requires forall k, j | 0 <= k < |rows| && 0 <= j < |touched| :: rows[k].id != touched[j].id
    ensures AreWaiting(after, rows)
  {
    forall k | 0 <= k < |rows|
      ensures rows[k].id !in IdsOf(touched)
    {
    }
  }

  lemma BatchIsAttached(check: Check, store: Store, sid: nat, settlement: Settlement, chunk: seq<Row>)
    requires SoundFor(check, store) && sid !in store.members && |chunk| > 0 && AreWaiting(store.receipts, chunk)
    requires forall k | 0 <= k < |chunk| :: chunk[k].escrowId == settlement.escrowId
    requires check(SlipsIn(chunk), settlement)
    ensures var t := Batched(store, sid, settlement, IdsOf(chunk));
            && SoundFor(check, t) && OnlyTouches(store.receipts, t.receipts, chunk) && AreSettled(t.receipts, chunk)
            && t.receipts.Keys == store.receipts.Keys
  {
    assert SlipsOf(store.receipts, IdsOf(chunk)) == SlipsIn(chunk);
    BatchKeepsSound(check, store, sid, settlement, IdsOf(chunk));
    ChunkIsMarked(store.receipts, sid, chunk);
  }

  lemma ChunkIsMarked(receipts: map<nat, Row>, sid: nat, chunk: seq<Row>)
    requires AreWaiting(receipts, chunk)
    ensures var after := MarkAll(receipts, IdsOf(chunk), sid);
            OnlyTouches(receipts, after, chunk) && AreSettled(after, chunk) && after.Keys == receipts.Keys
  {
    MarkAllMarks(receipts, IdsOf(chunk), sid);
    assert forall k | 0 <= k < |chunk| :: IdsOf(chunk)[k] == chunk[k].id;
  }

  /** Rows that describe their receipts pass the check. */
  ghost predicate Admits(keccak: Merkle.Keccak, check: Check) {
    forall slips, settlement {:trigger Describes(keccak, slips, settlement)} ::
      Describes(keccak, slips, settlement) ==> check(slips, settlement)
  }

  lemma SettledMore(before: map<nat, Row>, after: map<nat, Row>, due: seq<Row>, n: nat, chunk: seq<Row>)
    requires OnlyTouches(before, after, chunk) && n + |chunk| <= |due| && chunk == due[n..n + |chunk|]
    requires AreSettled(before, due[..n]) && AreSettled(after, chunk)
    ensures AreSettled(after, due[..n + |chunk|])
  {
    forall k | 0 <= k < n + |chunk|
      ensures due[k].id in after && after[due[k].id].settlementId.Some?
    {
      if k < n {
        assert due[..n][k] == due[k];
      } else {
        assert chunk[k - n] == due[k];
      }
    }
  }

  /** Of the due rows the first `n` are settled and the others wait; nothing else was touched. */
  ghost predicate Reached(start: map<nat, Row>, now: map<nat, Row>, due: seq<Row>, n: nat) {
    n <= |due| && OnlyTouches(start, now, due) && AreSettled(now, due[..n]) && AreWaiting(now, due[n..])
  }


  lemma ConcatNext<T>(parts: seq<seq<T>>, k: nat)
    requires k < |parts|
    ensures Concat(parts[..k + 1]) == Concat(parts[..k]) + parts[k]
  {
    ConcatSnoc(parts[..k], parts[k]);
    assert parts[..k + 1] == parts[..k] + [parts[k]];
  }

  lemma ConcatCut<T>(parts: seq<seq<T>>, k: nat)
    requires k <= |parts|
    ensures Concat(parts) == Concat(parts[..k]) + Concat(parts[k..])
  {
    ConcatAppend(parts[..k], parts[k..]);
    assert parts == parts[..k] + parts[k..];
  }

  /** Where a part stands in the whole. */
  lemma PartInPlace<T>(parts: seq<seq<T>>, k: nat)
    requires k < |parts|
    ensures var n := |Concat(parts[..k])|;
            && n + |parts[k]| == |Concat(parts[..k + 1])| <= |Concat(parts)|
            && Concat(parts)[n..n + |parts[k]|] == parts[k]
  {
    ConcatNext(parts, k);
    ConcatCut(parts, k + 1);
  }

  /** The first `k` batches, of `n` rows, are settled, each with a settlement of its own; the other rows wait. */
  ghost predicate Progress(start: map<nat, Row>, made: map<nat, seq<nat>>, now: map<nat, Row>,
                           members: map<nat, seq<nat>>, due: seq<Row>, n: nat, chunks: seq<seq<Row>>, k: nat)
  {
    k <= |chunks| && Reached(start, now, due, n) && HaveBatches(made, members, chunks, k)
  }

  ghost predicate HaveBatches(made: map<nat, seq<nat>>, members: map<nat, seq<nat>>, chunks: seq<seq<Row>>, k: nat)
    requires k <= |chunks|
  {
    |members| == |made| + k && Keeps(made, members) && forall j | 0 <= j < k :: HasBatch(members, chunks[j])
  }

  lemma ProgressBegins(now: map<nat, Row>, members: map<nat, seq<nat>>, due: seq<Row>, chunks: seq<seq<Row>>)
    requires AreWaiting(now, due)
    ensures Progress(now, members, now, members, due, 0, chunks, 0)
  {
    assert due[0..] == due;
  }

  predicate IsStretch(chunk: seq<Row>, due: seq<Row>, n: nat) {
    n + |chunk| <= |due| && chunk == due[n..n + |chunk|]
  }

  lemma PrefixWaits(now: map<nat, Row>, rows: seq<Row>, n: nat)
    requires n <= |rows| && AreWaiting(now, rows)
    ensures AreWaiting(now, rows[..n])
  {
  }

  lemma StretchWaits(now: map<nat, Row>, due: seq<Row>, n: nat, chunk: seq<Row>)
    requires IsStretch(chunk, due, n) && AreWaiting(now, due[n..])
    ensures AreWaiting(now, chunk) && Within(chunk, due)
  {
    assert forall j | 0 <= j < |chunk| :: chunk[j] == due[n..][j] == due[n + j];
  }

  lemma ReachedMore(start: map<nat, Row>, before: map<nat, Row>, after: map<nat, Row>, due: seq<Row>, n: nat,
      chunk: seq<Row>)
    requires IsStretch(chunk, due, n)
    requires Reached(start, before, due, n) && OnlyTouches(before, after, chunk) && AreSettled(after, chunk)
    ensures Reached(start, after, due, n + |chunk|)
  {
    var m := n + |chunk|;
    assert forall j | 0 <= j < |chunk| :: chunk[j] == due[n + j];
    TouchesCompose(start, before, after, due, chunk, due);
    assert forall k | 0 <= k < |due[m..]| :: due[m..][k] == due[n..][|chunk| + k];
    assert forall k | 0 <= k < |chunk| :: chunk[k] == due[n..][k];
    StillWaiting(before, after, chunk, due[m..]);
    SettledMore(before, after, due, n, chunk);
  }

  lemma HaveOneMore(made: map<nat, seq<nat>>, before: map<nat, seq<nat>>, after: map<nat, seq<nat>>,
      chunks: seq<seq<Row>>, k: nat)
    requires k < |chunks| && HaveBatches(made, before, chunks, k) && BatchAdded(before, after, chunks[k])
    ensures HaveBatches(made, after, chunks, k + 1)
  {
    AfterBatchAdded(before, after, chunks[k]);
    BatchesKept(before, after, chunks);
  }

  lemma ReachedStill(start: map<nat, Row>, before: map<nat, Row>, after: map<nat, Row>, due: seq<Row>, n: nat)
    requires Reached(start, before, due, n) && OnlyTouches(before, after, [])
    ensures Reached(start, after, due, n)
  {
    TouchesCompose(start, before, after, due, [], due);
    StillWaiting(before, after, [], due[n..]);
  }

  // How far a tick has come: `done(group)` counts the rows of a group that it settles.

  ghost predicate GroupHandled(now: map<nat, Row>, rows: seq<Row>, n: nat) {
    n <= |rows| && AreSettled(now, rows[..n]) && AreWaiting(now, rows[n..])
  }

  type Counter = Group -> nat

  ghost predicate TickReached(start: map<nat, Row>, now: map<nat, Row>, groups: seq<Group>, pending: seq<Row>,
                              done: Counter, g: nat)
    requires g <= |groups|
  {
    && OnlyTouches(start, now, pending)
    && (forall i | 0 <= i < g :: GroupHandled(now, groups[i].rows, done(groups[i])))
    && (forall i | g <= i < |groups| :: AreWaiting(now, groups[i].rows))
  }

  lemma NextGroupWaits(start: map<nat, Row>, now: map<nat, Row>, groups: seq<Group>, pending: seq<Row>,
      done: Counter, g: nat)
    requires g < |groups| && TickReached(start, now, groups, pending, done, g)
    ensures AreWaiting(now, groups[g].rows)
  {
  }

  lemma TickBegins(now: map<nat, Row>, groups: seq<Group>, pending: seq<Row>, done: Counter)
    requires AreWaiting(now, pending) && AreGroups(groups, pending)
    ensures TickReached(now, now, groups, pending, done, 0)
  {
    forall i | 0 <= i < |groups|
      ensures AreWaiting(now, groups[i].rows)
    {
      OfEscrowDistinct(pending, groups[i].escrowId);
      assert forall k | 0 <= k < |groups[i].rows| :: groups[i].rows[k] in pending;
    }
  }

  /** Rows waiting at once under one id are one row, so groups of different escrows share no id. */
  lemma OtherGroupKept(before: map<nat, Row>, after: map<nat, Row>, touched: seq<Row>, rows: seq<Row>, e: string)
    requires AreWaiting(before, rows) && AreWaiting(before, touched) && OnlyTouches(before, after, touched)
    requires forall k | 0 <= k < |rows| :: rows[k].escrowId != e
    requires forall k | 0 <= k < |touched| :: touched[k].escrowId == e
    ensures AreWaiting(after, rows)
  {
    StillWaiting(before, after, touched, rows);
  }

  lemma HandledGroupKept(before: map<nat, Row>, after: map<nat, Row>, touched: seq<Row>, rows: seq<Row>, e: string,
                         n: nat)
    requires GroupHandled(before, rows, n)
    requires AreWaiting(before, touched) && OnlyTouches(before, after, touched)
    requires forall k | 0 <= k < |rows| :: rows[k].escrowId != e
    requires forall k | 0 <= k < |touched| :: touched[k].escrowId == e
    ensures GroupHandled(after, rows, n)
  {
    OtherGroupKept(before, after, touched, rows[n..], e);
  }

  lemma TickAdvances(start: map<nat, Row>, before: map<nat, Row>, after: map<nat, Row>, groups: seq<Group>,
                     pending: seq<Row>, done: Counter, g: nat)
    requires AreGroups(groups, pending) && g < |groups|
    requires TickReached(start, before, groups, pending, done, g)
    requires OnlyTouches(before, after, groups[g].rows) && GroupHandled(after, groups[g].rows, done(groups[g]))
    ensures TickReached(start, after, groups, pending, done, g + 1)
  {
    var touched, e := groups[g].rows, groups[g].escrowId;
    GroupEscrow(groups, pending, g);
    assert Within(touched, pending) by {
      assert forall k | 0 <= k < |touched| :: touched[k] in pending;
    }
    TouchesCompose(start, before, after, pending, touched, pending);
    forall i | 0 <= i < |groups| && i != g
      ensures if i < g then GroupHandled(after, groups[i].rows, done(groups[i])) else AreWaiting(after, groups[i].rows)
    {
      GroupEscrow(groups, pending, i);
      if i < g {
        HandledGroupKept(before, after, touched, groups[i].rows, e, done(groups[i]));
      } else {
        OtherGroupKept(before, after, touched, groups[i].rows, e);
      }
    }
  }

  lemma EveryEscrowHandled(start: map<nat, Row>, now: map<nat, Row>, groups: seq<Group>, pending: seq<Row>,
      done: Counter)
    requires AreGroups(groups, pending) && TickReached(start, now, groups, pending, done, |groups|)
    ensures forall e {:trigger OfEscrow(pending, e)} :: OfEscrow(pending, e) != [] ==>
              GroupHandled(now, OfEscrow(pending, e), done(Group(e, OfEscrow(pending, e))))
  {
    forall e | OfEscrow(pending, e) != []
      ensures GroupHandled(now, OfEscrow(pending, e), done(Group(e, OfEscrow(pending, e))))
    {
      var i := Position(groups, e);
      assert groups[i] == Group(e, OfEscrow(pending, e));
    }
  }

  lemma GroupEscrow(groups: seq<Group>, pending: seq<Row>, i: nat)
    requires AreGroups(groups, pending) && i < |groups|
    ensures |groups[i].rows| > 0
    ensures forall k | 0 <= k < |groups[i].rows| :: groups[i].rows[k].escrowId == groups[i].escrowId
  {
    assert forall k | 0 <= k < |groups[i].rows| :: groups[i].rows[k] in OfEscrow(pending, groups[i].escrowId);
  }

  // Batches once made stay.

  /** Some settlement has exactly these rows, in this order. */
  ghost predicate HasBatch(members: map<nat, seq<nat>>, chunk: seq<Row>) {
    exists sid :: sid in members && members[sid] == IdsOf(chunk)
  }

  /** Every settlement of the one table is in the other, as it was. */
  ghost predicate Keeps<V>(before: map<nat, V>, after: map<nat, V>) {
    forall sid | sid in before :: sid in after && after[sid] == before[sid]
  }

  lemma KeepsItself<V>(table: map<nat, V>)
    ensures Keeps(table, table)
  {
  }

  lemma KeepsOn<V>(a: map<nat, V>, b: map<nat, V>, c: map<nat, V>)
    requires Keeps(a, b) && Keeps(b, c)
    ensures Keeps(a, c)
  {
  }

  /** One new settlement, with exactly these rows. */
  ghost predicate BatchAdded(before: map<nat, seq<nat>>, after: map<nat, seq<nat>>, chunk: seq<Row>) {
    exists sid: nat :: sid !in before && after == before[sid := IdsOf(chunk)]
  }

  lemma AfterBatchAdded(before: map<nat, seq<nat>>, after: map<nat, seq<nat>>, chunk: seq<Row>)
    requires BatchAdded(before, after, chunk)
    ensures HasBatch(after, chunk) && Keeps(before, after) && |after| == |before| + 1
  {
    var sid: nat :| sid !in before && after == before[sid := IdsOf(chunk)];
    assert after[sid] == IdsOf(chunk);
  }

  ghost predicate BatchesMade(members: map<nat, seq<nat>>, t: Tick, group: Group)
    requires t.maxReceipts > 0
  {
    forall k | 0 <= k < t.Settles(group) :: HasBatch(members, t.Chunks(group)[k])
  }

  lemma BatchesKept(before: map<nat, seq<nat>>, after: map<nat, seq<nat>>, chunks: seq<seq<Row>>)
    requires Keeps(before, after)
    ensures forall k | 0 <= k < |chunks| && HasBatch(before, chunks[k]) :: HasBatch(after, chunks[k])
  {
    forall k | 0 <= k < |chunks| && HasBatch(before, chunks[k])
      ensures HasBatch(after, chunks[k])
    {
      var sid :| sid in before && before[sid] == IdsOf(chunks[k]);
      assert after[sid] == IdsOf(chunks[k]);
    }
  }

  lemma MadeStays(before: map<nat, seq<nat>>, after: map<nat, seq<nat>>, t: Tick, groups: seq<Group>)
    requires t.maxReceipts > 0 && Keeps(before, after)
    ensures forall i | 0 <= i < |groups| && BatchesMade(before, t, groups[i]) :: BatchesMade(after, t, groups[i])
  {
    forall i | 0 <= i < |groups| && BatchesMade(before, t, groups[i])
      ensures BatchesMade(after, t, groups[i])
    {
      BatchesKept(before, after, t.Chunks(groups[i]));
    }
  }

  lemma EveryBatchMade(members: map<nat, seq<nat>>, t: Tick, groups: seq<Group>, pending: seq<Row>)
    requires t.maxReceipts > 0 && AreGroups(groups, pending)
    requires forall i | 0 <= i < |groups| :: BatchesMade(members, t, groups[i])
    ensures forall e {:trigger OfEscrow(pending, e)} :: OfEscrow(pending, e) != [] ==>
              BatchesMade(members, t, Group(e, OfEscrow(pending, e)))
  {
    forall e | OfEscrow(pending, e) != []
      ensures BatchesMade(members, t, Group(e, OfEscrow(pending, e)))
    {
      var i := Position(groups, e);
      assert groups[i] == Group(e, OfEscrow(pending, e));
    }
  }

  ghost function Done(t: Tick): Counter
    requires t.maxReceipts > 0
  {
    group => t.SettledRows(group)
  }

  /** Rows past the due ones wait as they did. */
  lemma DueHandled(before: map<nat, Row>, after: map<nat, Row>, rows: seq<Row>, due: nat, n: nat)
    requires due <= |rows| && AreWaiting(before, rows) && Reached(before, after, rows[..due], n)
    ensures GroupHandled(after, rows, n) && OnlyTouches(before, after, rows)
  {
    StillWaiting(before, after, rows[..due], rows[due..]);
    TouchesCompose(before, after, after, rows[..due], [], rows);
    assert rows[..due][..n] == rows[..n];
    forall k | n <= k < |rows|
      ensures rows[k].id in after && after[rows[k].id] == rows[k] && rows[k].settlementId.None?
    {
      if k < due {
        assert rows[..due][n..][k - n] == rows[k];
      } else {
        assert rows[due..][k - due] == rows[k];
      }
    }
  }

  /** batch.findIndex((row) => row.id === id), for a row that is there. */
  method FindIndex(batch: seq<Row>, id: nat) returns (index: nat)
    requires exists k :: 0 <= k < |batch| && batch[k].id == id
    ensures index < |batch| && batch[index].id == id
  {
    index := 0;
    while batch[index].id != id
      invariant exists k :: index <= k < |batch| && batch[k].id == id
      decreases |batch| - index
    {
      index := index + 1;
    }
  }

  class SettlementBatchScheduler {
    const keccak: Merkle.Keccak
    ghost const check: Check
    const windowMs: int
    const maxReceipts: nat
    const scanLimit: nat
    var running: bool
    var paused: bool
    var receipts: map<nat, Row>
    var settlements: map<nat, Settlement>
    var nextReceiptId: nat
    var nextSettlementId: nat
    ghost var members: map<nat, seq<nat>>

    ghost function Tables(): Store
      reads this
    {
      Store(receipts, settlements, members)
    }

    ghost predicate Valid()
      reads this
    {
      && maxReceipts > 0 && Admits(keccak, check)
      && SoundFor(check, Tables())
      && (forall id | id in receipts :: id < nextReceiptId)
      && (forall sid | sid in settlements :: sid < nextSettlementId)
      && (forall sid | sid in members :: sid in settlements)
    }

    constructor (keccak: Merkle.Keccak, windowMs: int, maxReceipts: nat, scanLimit: nat)
      requires maxReceipts > 0
      ensures Valid() && Tables() == EMPTY && !running && check == DescribedBy(keccak)
      ensures this.keccak == keccak && this.windowMs == windowMs && this.maxReceipts == maxReceipts
              && this.scanLimit == scanLimit
    {
      this.keccak, this.windowMs, this.maxReceipts, this.scanLimit := keccak, windowMs, maxReceipts, scanLimit;
      check := DescribedBy(keccak);
      running, paused := false, false;
      receipts, settlements, members := map[], map[], map[];
      nextReceiptId, nextSettlementId := 0, 0;
    }

    /** ReceiptsService.create. */
    method CreateReceipt(escrowId: string, slip: Slip, createdAt: int) returns (id: nat)
      requires Valid()
      modifies this`receipts, this`nextReceiptId
      ensures Valid() && id !in old(receipts)
      ensures receipts == old(receipts)[id := Row(id, escrowId, slip, createdAt, None, None)]
      ensures Tables() == Created(old(Tables()), id, escrowId, slip, createdAt)
    {
      id := nextReceiptId;
      CreationKeepsSound(check, Tables(), id, escrowId, slip, createdAt);
      receipts := receipts[id := Row(id, escrowId, slip, createdAt, None, None)];
      nextReceiptId := id + 1;
    }

    /** The row settleBatch writes. */
    method OpenSettlement(settlement: Settlement) returns (sid: nat)
      requires Valid()
      modifies this`settlements, this`nextSettlementId
      ensures Valid() && sid !in old(settlements) && sid in settlements && sid !in members
      ensures settlements == old(settlements)[sid := settlement]
    {
      sid := nextSettlementId;
      OtherSettlementKeepsSound(check, Tables(), sid, settlement);
      settlements := settlements[sid := settlement];
      nextSettlementId := sid + 1;
    }

    /** Other callers act; no row they find changes. */
    method Meanwhile(others: seq<Other>)
      requires Valid()
      modifies this`receipts, this`nextReceiptId, this`settlements, this`nextSettlementId
      ensures Valid() && OnlyTouches(old(receipts), receipts, [])
      ensures Keeps(old(settlements), settlements)
    {
      for i := 0 to |others|
        invariant Valid() && OnlyTouches(old(receipts), receipts, [])
        invariant Keeps(old(settlements), settlements)
      {
        match others[i]
        case ReceiptCreated(escrowId, slip, createdAt) => var _ := CreateReceipt(escrowId, slip, createdAt);
        case SettlementOpened(settlement) => var _ := OpenSettlement(settlement);
      }
    }

    /** ReceiptsService.markSettled: the order of the ids becomes the leaf order. */
    method MarkSettled(receiptIds: seq<nat>, sid: nat)
      modifies this`receipts
      ensures receipts == MarkAll(old(receipts), receiptIds, sid)
    {
      for batchIndex := 0 to |receiptIds|
        invariant receipts == MarkAll(old(receipts), receiptIds[..batchIndex], sid)
      {
        var id := receiptIds[batchIndex];
        assert receiptIds[..batchIndex + 1][..batchIndex] == receiptIds[..batchIndex];
        receipts := MarkOne(receipts, id, sid, batchIndex);
      }
      assert receiptIds[..|receiptIds|] == receiptIds;
    }

    /** The receipts of a chunk become the members of its settlement. */
    method Attach(chunk: seq<Row>, sid: nat, ghost settlement: Settlement)
      requires Valid() && sid in settlements && settlements[sid] == settlement && sid !in members
      requires |chunk| > 0 && AreWaiting(receipts, chunk)
      requires forall k | 0 <= k < |chunk| :: chunk[k].escrowId == settlement.escrowId
      requires check(SlipsIn(chunk), settlement)
      modifies this`receipts, this`members
      ensures Valid() && OnlyTouches(old(receipts), receipts, chunk) && AreSettled(receipts, chunk)
      ensures BatchAdded(old(members), members, chunk)
    {
      ghost var store := Tables();
      var ids := IdsOf(chunk);
      BatchIsAttached(check, store, sid, settlement, chunk);
      MarkSettled(ids, sid);
      members := members[sid := ids];
      assert Tables() == Batched(store, sid, settlement, ids) by {
        assert settlements == settlements[sid := settlement];
      }
    }

    /** The row of a chunk, or what settleChunk throws before it has one. */
    method PrepareRow(escrowId: string, slips: seq<Slip>) returns (settlement: Result<Settlement, ChunkError>)
      requires Admits(keccak, check)
      ensures settlement.Ok? <==> IsPackable(slips)
      ensures settlement.Ok? ==> settlement.value.escrowId == escrowId && check(slips, settlement.value)
    {
      settlement := Prepare(keccak, escrowId, slips);
    }

    /** SettlementService.settleBatch: writes its row and makes the first attempt, or throws before that. */
    method SettleBatch(settlement: Settlement, script: ChunkScript) returns (sid: Option<nat>)
      requires Valid()
      modifies this`receipts, this`nextReceiptId, this`settlements, this`nextSettlementId
      ensures Valid() && OnlyTouches(old(receipts), receipts, [])
      ensures (sid.None? <==> script.throws) && Keeps(old(settlements), settlements)
      ensures sid.Some? ==> sid.value in settlements && settlements[sid.value] == settlement && sid.value !in members
    {
      Meanwhile(script.before);
      if script.throws {
        return None;
      }
      var id := OpenSettlement(settlement);
      Meanwhile(script.attempting);
      return Some(id);
    }

    /** settleChunk: false when it throws. */
    method SettleChunk(escrowId: string, chunk: seq<Row>, script: ChunkScript) returns (settled: bool)
      requires Valid() && |chunk| > 0 && AreWaiting(receipts, chunk)
      requires forall k | 0 <= k < |chunk| :: chunk[k].escrowId == escrowId
      modifies this`receipts, this`nextReceiptId, this`settlements, this`nextSettlementId, this`members
      ensures Valid() && OnlyTouches(old(receipts), receipts, if settled then chunk else [])
      ensures settled ==> AreSettled(receipts, chunk)
      ensures settled <==> !script.throws && IsPackable(SlipsIn(chunk))
      ensures if settled then BatchAdded(old(members), members, chunk) else members == old(members)
      ensures Keeps(old(settlements), settlements)
    {
      hide IsPackable, SoundFor, AreWaiting, OnlyTouches, AreSettled, BatchAdded, Keeps;
      Untouched(receipts);
      KeepsItself(settlements);
      var prepared := PrepareRow(escrowId, SlipsIn(chunk));
      if prepared.Err? {
        return false;
      }
      ghost var before := receipts;
      var sid := SettleBatch(prepared.value, script);
      if sid.None? {
        return false;
      }
      StillWaiting(before, receipts, [], chunk);
      ghost var middle := receipts;
      Attach(chunk, sid.value, prepared.value);
      TouchesCompose(before, middle, receipts, [], chunk, chunk);
      return true;
    }

    /** The k-th batch of an escrow. */
    method SettleNext(escrowId: string, chunks: seq<seq<Row>>, k: nat, t: Tick, ghost start: map<nat, Row>,
                      ghost made: map<nat, seq<nat>>, ghost due: seq<Row>, ghost n: nat)
      returns (settled: bool)
      requires Valid() && k < |chunks| && |chunks[k]| > 0 && IsStretch(chunks[k], due, n)
      requires Progress(start, made, receipts, members, due, n, chunks, k)
      requires forall j | 0 <= j < |due| :: due[j].escrowId == escrowId
      modifies this`receipts, this`nextReceiptId, this`settlements, this`nextSettlementId, this`members
      ensures Valid() && (settled <==> !t.Fails(escrowId, chunks[k], k))
      ensures if settled then Progress(start, made, receipts, members, due, n + |chunks[k]|, chunks, k + 1)
              else Progress(start, made, receipts, members, due, n, chunks, k)
      ensures Keeps(old(settlements), settlements)
    {
      hide IsPackable, SoundFor, AreSettled, OnlyTouches, AreWaiting;
      ghost var before, batches := receipts, members;
      StretchWaits(receipts, due, n, chunks[k]);
      settled := SettleChunk(escrowId, chunks[k], t.script(escrowId, k));
      if settled {
        ReachedMore(start, before, receipts, due, n, chunks[k]);
        HaveOneMore(made, batches, members, chunks, k);
      } else {
        ReachedStill(start, before, receipts, due, n);
      }
    }

    /** The due batches of one escrow, until one fails. */
    method SettleChunks(escrowId: string, chunks: seq<seq<Row>>, t: Tick, result: RunResult, ghost due: seq<Row>)
      returns (after: RunResult, settled: nat, ghost n: nat)
      requires Valid() && due == Concat(chunks) && AreWaiting(receipts, due)
      requires forall k | 0 <= k < |chunks| :: |chunks[k]| > 0
      requires forall j | 0 <= j < |due| :: due[j].escrowId == escrowId
      modifies this`receipts, this`nextReceiptId, this`settlements, this`nextSettlementId, this`members
      ensures Valid() && Progress(old(receipts), old(members), receipts, members, due, n, chunks, settled)
      ensures settled == t.FirstFailure(escrowId, chunks, 0) && n == |Concat(chunks[..settled])|
      ensures after == result.(batches := result.batches + settled, receipts := result.receipts + n,
                               failed := result.failed + if settled < |chunks| then 1 else 0)
      ensures Keeps(old(settlements), settlements)
    {
      hide IsPackable, SoundFor, HaveBatches, AreSettled, OnlyTouches, AreWaiting, Keeps;
      after, settled, n := result, 0, 0;
      KeepsItself(settlements);
      ProgressBegins(receipts, members, due, chunks);
      assert chunks[..0] == [];
      while settled < |chunks|
        invariant settled <= |chunks|
        invariant t.FirstFailure(escrowId, chunks, settled) == t.FirstFailure(escrowId, chunks, 0)
        invariant n == |Concat(chunks[..settled])|
        invariant Valid() && Progress(old(receipts), old(members), receipts, members, due, n, chunks, settled)
        invariant after == result.(batches := result.batches + settled, receipts := result.receipts + n)
        invariant Keeps(old(settlements), settlements)
      {
        PartInPlace(chunks, settled);
        ghost var before := settlements;
        var done := SettleNext(escrowId, chunks, settled, t, old(receipts), old(members), due, n);
        KeepsOn(old(settlements), before, settlements);
        if !done {
          after := after.(failed := after.failed + 1);
          return;
        }
        after := after.(batches := after.batches + 1, receipts := after.receipts + |chunks[settled]|);
        n, settled := n + |chunks[settled]|, settled + 1;
      }
    }

    /** The due batches of one escrow. */
    method SettleGroup(group: Group, t: Tick, result: RunResult) returns (after: RunResult)
      requires Valid() && |group.rows| > 0 && AreWaiting(receipts, group.rows) && t.maxReceipts > 0
      requires forall k | 0 <= k < |group.rows| :: group.rows[k].escrowId == group.escrowId
      modifies this`receipts, this`nextReceiptId, this`settlements, this`nextSettlementId, this`members
      ensures Valid() && OnlyTouches(old(receipts), receipts, group.rows)
      ensures GroupHandled(receipts, group.rows, t.SettledRows(group))
      ensures after == t.Result(group, result) && |members| == |old(members)| + t.Settles(group)
      ensures BatchesMade(members, t, group) && Keeps(old(members), members) && Keeps(old(settlements), settlements)
    {
      hide IsPackable, SoundFor, AreSettled, OnlyTouches, AreWaiting, HasBatch, Keeps;
      var chunks := DueChunks(group.rows, t.windowMs, t.maxReceipts, t.now);
      CutIsUnique(chunks, Concat(chunks), t.maxReceipts);
      ghost var before := receipts;
      PrefixWaits(receipts, group.rows, |Concat(chunks)|);
      ghost var settled, n;
      after, settled, n := SettleChunks(group.escrowId, chunks, t, result, Concat(chunks));
      DueHandled(before, receipts, group.rows, |Concat(chunks)|, n);
    }

    /** The escrows with pending rows, one after the other. */
    method SettleGroups(groups: seq<Group>, t: Tick, result: RunResult, ghost pending: seq<Row>)
      returns (after: RunResult)
      requires Valid() && AreWaiting(receipts, pending) && AreGroups(groups, pending) && t.maxReceipts > 0
      modifies this`receipts, this`nextReceiptId, this`settlements, this`nextSettlementId, this`members
      ensures Valid() && TickReached(old(receipts), receipts, groups, pending, Done(t), |groups|)
      ensures after == t.After(groups, result)
      ensures |members| - |old(members)| == after.batches - result.batches
      ensures forall i | 0 <= i < |groups| :: BatchesMade(members, t, groups[i])
      ensures Keeps(old(members), members) && Keeps(old(settlements), settlements)
    {
      hide IsPackable, SoundFor, AreWaiting, OnlyTouches, GroupHandled, BatchesMade, AreGroups, Keeps, TickReached;
      hide Tick.Settles, Tick.SettledRows, Tick.HasFailure;
      after := result;
      TickBegins(receipts, groups, pending, Done(t));
      KeepsItself(members);
      KeepsItself(settlements);
      for g := 0 to |groups|
        invariant Valid() && TickReached(old(receipts), receipts, groups, pending, Done(t), g)
        invariant after == t.After(groups[..g], result)
        invariant |members| - |old(members)| == after.batches - result.batches
        invariant forall i | 0 <= i < g :: BatchesMade(members, t, groups[i])
        invariant Keeps(old(members), members) && Keeps(old(settlements), settlements)
      {
        ghost var before, made, rows := receipts, members, settlements;
        GroupEscrow(groups, pending, g);
        NextGroupWaits(old(receipts), receipts, groups, pending, Done(t), g);
        after := SettleGroup(groups[g], t, after);
        TickAdvances(old(receipts), before, receipts, groups, pending, Done(t), g);
        MadeStays(made, members, t, groups[..g]);
        KeepsOn(old(members), made, members);
        KeepsOn(old(settlements), rows, settlements);
        assert groups[..g + 1][..g] == groups[..g];
      }
      assert groups[..|groups|] == groups;
    }

    /** This tick. */
    function ThisTick(now: int, script: (string, nat) -> ChunkScript): Tick {
      Tick(now, windowMs, maxReceipts, script)
    }

    /**
     What a tick does to the tables: of every escrow the batches before its first failing one are
     settled, whatever the other escrows do; its other rows wait, and every other row is left as it was.
     */
    ghost predicate TickDone(before: map<nat, Row>, pending: seq<Row>, t: Tick)
      requires t.maxReceipts > 0
      reads this`receipts, this`members
    {
      && OnlyTouches(before, receipts, pending)
      && (forall e {:trigger OfEscrow(pending, e)} :: OfEscrow(pending, e) != [] ==>
            && GroupHandled(receipts, OfEscrow(pending, e), t.SettledRows(Group(e, OfEscrow(pending, e))))
            && BatchesMade(members, t, Group(e, OfEscrow(pending, e))))
    }

    /**
     Of every escrow the due rows up to the first failing batch are settled and the others wait; in
     particular none waits if one was overdue and no batch fails.
     */
    ghost predicate SettlesWhatIsDue(pending: seq<Row>, t: Tick)
      requires t.maxReceipts > 0
      reads this`receipts
    {
      && (forall e, n {:trigger SettlesFirst(t, e, OfEscrow(pending, e), n)} ::
            SettlesFirst(t, e, OfEscrow(pending, e), n) ==> GroupHandled(receipts, OfEscrow(pending, e), n))
      && (forall e {:trigger OfEscrow(pending, e)} ::
            HasOverdue(OfEscrow(pending, e), t.windowMs, t.now)
            && NothingFails(t, e, OfEscrow(pending, e), |OfEscrow(pending, e)|) ==>
              AreSettled(receipts, OfEscrow(pending, e)))
    }

    lemma DueIsSettled(before: map<nat, Row>, pending: seq<Row>, t: Tick)
      requires t.maxReceipts > 0 && OldestFirst(pending) && TickDone(before, pending, t)
      ensures SettlesWhatIsDue(pending, t)
    {
      forall e, n: nat | SettlesFirst(t, e, OfEscrow(pending, e), n)
        ensures GroupHandled(receipts, OfEscrow(pending, e), n)
      {
        OfEscrowIsOrdered(pending, e);
        SettledRowsIff(t, Group(e, OfEscrow(pending, e)), n);
      }
      forall e | HasOverdue(OfEscrow(pending, e), t.windowMs, t.now)
                 && NothingFails(t, e, OfEscrow(pending, e), |OfEscrow(pending, e)|)
        ensures AreSettled(receipts, OfEscrow(pending, e))
      {
        var rows := OfEscrow(pending, e);
        NoneWaits(t, e, rows);
        assert GroupHandled(receipts, rows, |rows|) && rows[..|rows|] == rows;
      }
    }

    /** A tick that runs. */
    method Run(pending: seq<Row>, t: Tick) returns (result: RunResult)
      requires Valid() && AreWaiting(receipts, pending) && t.maxReceipts > 0
      modifies this`receipts, this`nextReceiptId, this`settlements, this`nextSettlementId, this`members
      ensures Valid() && TickDone(old(receipts), pending, t)
      ensures result == t.After(Groups(pending), RunResult(true, |pending|, 0, 0, 0))
      ensures result.batches == |members| - |old(members)|
      ensures Keeps(old(members), members) && Keeps(old(settlements), settlements)
    {
      var groups := GroupByEscrow(pending);
      result := SettleGroups(groups, t, RunResult(true, |pending|, 0, 0, 0), pending);
      EveryEscrowHandled(old(receipts), receipts, groups, pending, Done(t));
      EveryBatchMade(members, t, groups, pending);
    }

    /** One tick, unless one is running or the rail is paused. `pending` is the answer of findUnsettled. */
    method RunOnce(now: int, pending: seq<Row>, script: (string, nat) -> ChunkScript) returns (result: RunResult)
      requires Valid() && IsUnsettledQuery(receipts, scanLimit, pending)
      modifies this
      ensures Valid() && paused == old(paused) && running == old(running)
      ensures check == DescribedBy(keccak) ==> Sound(keccak, Tables())
      ensures old(running) || paused ==> result == RunResult(false, 0, 0, 0, 0) && Tables() == old(Tables())
      ensures !old(running) && !paused ==>
                && TickDone(old(receipts), pending, ThisTick(now, script))
                && result == ThisTick(now, script).After(Groups(pending), RunResult(true, |pending|, 0, 0, 0))
                && Keeps(old(members), members) && Keeps(old(settlements), settlements)
                && result.batches == |members| - |old(members)|
                && result.failed == |FailingEscrows(ThisTick(now, script), Groups(pending))|
                && SettlesWhatIsDue(pending, ThisTick(now, script))
    {
      if running || paused {
        return RunResult(false, 0, 0, 0, 0);
      }
      running := true;
      result := Run(pending, ThisTick(now, script));
      GroupsAreGroups(pending);
      FailedCountsEscrows(ThisTick(now, script), Groups(pending), RunResult(true, |pending|, 0, 0, 0));
      DueIsSettled(old(receipts), pending, ThisTick(now, script));
      running := false;
    }

    /** ReceiptsService.inclusionProof of a row it found; `batch` is the answer of its query. */
    method InclusionProof(receipt: Row, batch: seq<Row>) returns (proof: Result<InclusionProofOf, ProofError>)
      requires Valid() && Merkle.PrintsNodes(keccak) && check == DescribedBy(keccak)
      requires receipt.id in receipts && receipts[receipt.id] == receipt
      requires receipt.settlementId.Some? ==> IsBatchQuery(receipts, receipt.settlementId.value, batch)
      ensures proof.Ok? <==> receipt.settlementId.Some?
      ensures proof.Ok? ==>
                && receipt.settlementId.value in settlements
                && proof.value.root == settlements[receipt.settlementId.value].receiptsHash
                && Merkle.Verify(keccak, receipt.slip.receiptHash, proof.value.proof, proof.value.root)
                && Some(proof.value.index) == receipt.batchIndex && proof.value.leafCount == |batch|
    {
      if receipt.settlementId.None? {
        return Err(NotSettled);
      }
      var leaves := LeavesOf(batch);
      InclusionVerifies(keccak, Tables(), receipt.id, batch);
      QueriedIndex(check, Tables(), receipt.id, batch);
      var index := FindIndex(batch, receipt.id);
      var root := Merkle.MerkleRoot(keccak, leaves);
      var path := Merkle.MerkleProof(keccak, leaves, index);
      return Ok(InclusionProofOf(index, |leaves|, root.value, path.value));
    }
  }
}
