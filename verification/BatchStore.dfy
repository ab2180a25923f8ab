/**
 The receipts and settlement tables as the batch scheduler leaves them: which receipts a settlement
 pays, in which order, and what its row says about them.
 */
module BatchStore {
  import opened Base
  import opened Receipts
  import Amount
  import CompactCodec
  import CompactTheorems
  import Merkle

  /** What a receipt row says and never changes. */
  datatype Slip = Slip(receiptHash: string, fromAgent: string, toAgent: string, amount: string)

  datatype Row = Row(
    id: nat, escrowId: string, slip: Slip, createdAt: int, settlementId: Option<nat>, batchIndex: Option<nat>)

  datatype Settlement = Settlement(
    escrowId: string, receiptsHash: string, totalAmount: string, receiptCount: nat, packedReceipts: string)

  /**
   Receipts and settlements by id. `members` lists, for each settlement the scheduler opened, its
   receipts in leaf order.
   */
  datatype Store = Store(receipts: map<nat, Row>, settlements: map<nat, Settlement>, members: map<nat, seq<nat>>)

  type Check = (seq<Slip>, Settlement) -> bool

  // ---------------------------------------------------------------------------------------------
  // What a settlement row must say of its receipts
  // ---------------------------------------------------------------------------------------------

  function WeiOf(slip: Slip): int {
    var wei := Amount.From(slip.amount);
    if wei.Ok? then wei.value else 0
  }

  function TotalWei(slips: seq<Slip>): int {
    if |slips| == 0 then 0 else TotalWei(slips[..|slips| - 1]) + WeiOf(slips[|slips| - 1])
  }

  /** One receipt more adds its amount. */
  lemma TotalOfOneMore(slips: seq<Slip>, slip: Slip)
    ensures TotalWei([]) == 0
    ensures Amount.From(slip.amount).Ok? ==>
              TotalWei(slips + [slip]) == TotalWei(slips) + Amount.From(slip.amount).value
  {
    assert (slips + [slip])[..|slips|] == slips;
  }

  function Packable(slips: seq<Slip>): (receipts: seq<Receipt>)
    ensures |receipts| == |slips|
    ensures forall i | 0 <= i < |slips| ::
      receipts[i] == Receipt(slips[i].receiptHash, slips[i].fromAgent, slips[i].toAgent, WeiOf(slips[i]))
  {
    seq(|slips|, i requires 0 <= i < |slips| =>
      Receipt(slips[i].receiptHash, slips[i].fromAgent, slips[i].toAgent, WeiOf(slips[i])))
  }

  function HashesOf(slips: seq<Slip>): (hashes: seq<string>)
    ensures |hashes| == |slips|
    ensures forall i | 0 <= i < |slips| :: hashes[i] == slips[i].receiptHash
  {
    seq(|slips|, i requires 0 <= i < |slips| => slips[i].receiptHash)
  }

  predicate AmountsParse(slips: seq<Slip>) {
    forall i | 0 <= i < |slips| :: Amount.From(slips[i].amount).Ok?
  }

  /** The settlement row that settleChunk writes for these receipts. */
  predicate Describes(keccak: Merkle.Keccak, slips: seq<Slip>, settlement: Settlement) {
    && AmountsParse(slips)
    && CompactCodec.Pack(Packable(slips)) == Ok(settlement.packedReceipts)
    && Merkle.RootOf(keccak, HashesOf(slips)) == Ok(settlement.receiptsHash)
    && settlement.totalAmount == Amount.ToString(TotalWei(slips))
    && settlement.receiptCount == |slips|
  }

  // ---------------------------------------------------------------------------------------------
  // The invariant
  // ---------------------------------------------------------------------------------------------

  predicate AllPresent(receipts: map<nat, Row>, ids: seq<nat>) {
    forall k | 0 <= k < |ids| :: ids[k] in receipts
  }

  function SlipsOf(receipts: map<nat, Row>, ids: seq<nat>): (slips: seq<Slip>)
    requires AllPresent(receipts, ids)
    ensures |slips| == |ids| && forall k | 0 <= k < |ids| :: slips[k] == receipts[ids[k]].slip
  {
    seq(|ids|, k requires 0 <= k < |ids| => receipts[ids[k]].slip)
  }

  /** The members of a settlement point back at it, in order, and its row describes them. */
  ghost predicate SettlementIsSound(check: Check, store: Store, sid: nat)
    requires sid in store.members
  {
    var ids := store.members[sid];
    && sid in store.settlements && |ids| > 0 && AllPresent(store.receipts, ids)
    && (forall k | 0 <= k < |ids| ::
          var row := store.receipts[ids[k]];
          row.settlementId == Some(sid) && row.batchIndex == Some(k) && row.escrowId == store.settlements[sid].escrowId)
    && check(SlipsOf(store.receipts, ids), store.settlements[sid])
  }

  ghost predicate RowIsSound(store: Store, id: nat)
    requires id in store.receipts
  {
    var row := store.receipts[id];
    && row.id == id
    && (row.settlementId.None? ==> row.batchIndex.None?)
    && (row.settlementId.Some? ==>
          && row.settlementId.value in store.members
          && row.batchIndex.Some? && row.batchIndex.value < |store.members[row.settlementId.value]|
          && store.members[row.settlementId.value][row.batchIndex.value] == id)
  }

  ghost predicate SoundFor(check: Check, store: Store) {
    && (forall sid | sid in store.members :: SettlementIsSound(check, store, sid))
    && (forall id | id in store.receipts :: RowIsSound(store, id))
  }

  function DescribedBy(keccak: Merkle.Keccak): Check {
    (slips, settlement) => Describes(keccak, slips, settlement)
  }

  ghost predicate Sound(keccak: Merkle.Keccak, store: Store) {
    SoundFor(DescribedBy(keccak), store)
  }

  // ---------------------------------------------------------------------------------------------
  // Statements
  // ---------------------------------------------------------------------------------------------

  const EMPTY := Store(map[], map[], map[])

  /** receiptRepo.save(create(...)): a new row, not settled. */
  function Created(store: Store, id: nat, escrowId: string, slip: Slip, createdAt: int): Store {
    store.(receipts := store.receipts[id := Row(id, escrowId, slip, createdAt, None, None)])
  }

  /** One update of markSettled. */
  function MarkOne(receipts: map<nat, Row>, id: nat, sid: nat, batchIndex: nat): map<nat, Row> {
    if id in receipts then receipts[id := receipts[id].(settlementId := Some(sid), batchIndex := Some(batchIndex))]
    else receipts
  }

  function MarkAll(receipts: map<nat, Row>, ids: seq<nat>, sid: nat): map<nat, Row> {
    if |ids| == 0 then receipts
    else MarkOne(MarkAll(receipts, ids[..|ids| - 1], sid), ids[|ids| - 1], sid, |ids| - 1)
  }

  /** settleBatch's row and the marks of its receipts. */
  function Batched(store: Store, sid: nat, settlement: Settlement, ids: seq<nat>): Store {
    Store(MarkAll(store.receipts, ids, sid), store.settlements[sid := settlement], store.members[sid := ids])
  }

  predicate Distinct(ids: seq<nat>) {
    forall i, j | 0 <= i < j < |ids| :: ids[i] != ids[j]
  }

  /** Receipts that exist and wait for a batch. */
  predicate AllUnsettled(receipts: map<nat, Row>, ids: seq<nat>) {
    forall k | 0 <= k < |ids| :: ids[k] in receipts && receipts[ids[k]].settlementId.None?
  }

  lemma {:induction false} MarkAllMarks(receipts: map<nat, Row>, ids: seq<nat>, sid: nat)
    requires Distinct(ids) && AllPresent(receipts, ids)
    ensures MarkAll(receipts, ids, sid).Keys == receipts.Keys
    ensures forall k | 0 <= k < |ids| ::
      MarkAll(receipts, ids, sid)[ids[k]] == receipts[ids[k]].(settlementId := Some(sid), batchIndex := Some(k))
    ensures forall id | id in receipts && id !in ids :: MarkAll(receipts, ids, sid)[id] == receipts[id]
  {
    if |ids| > 0 {
      var front, last := ids[..|ids| - 1], ids[|ids| - 1];
      MarkAllMarks(receipts, front, sid);
      assert ids == front + [last];
    }
  }

  lemma CreationKeepsSound(check: Check, store: Store, id: nat, escrowId: string, slip: Slip, createdAt: int)
    requires SoundFor(check, store) && id !in store.receipts
    ensures SoundFor(check, Created(store, id, escrowId, slip, createdAt))
  {
    var t := Created(store, id, escrowId, slip, createdAt);
    forall sid | sid in t.members
      ensures SettlementIsSound(check, t, sid)
    {
      assert SettlementIsSound(check, store, sid);
      assert SlipsOf(t.receipts, t.members[sid]) == SlipsOf(store.receipts, store.members[sid]);
    }
    forall r | r in t.receipts
      ensures RowIsSound(t, r)
    {
      if r != id { assert RowIsSound(store, r); }
    }
  }

  /** A settlement row without receipts, which other callers of settleBatch write. */
  lemma OtherSettlementKeepsSound(check: Check, store: Store, sid: nat, settlement: Settlement)
    requires SoundFor(check, store) && sid !in store.settlements
    ensures SoundFor(check, store.(settlements := store.settlements[sid := settlement]))
  {
    var t := store.(settlements := store.settlements[sid := settlement]);
    forall s | s in t.members
      ensures SettlementIsSound(check, t, s)
    {
      assert SettlementIsSound(check, store, s);
    }
    forall r | r in t.receipts
      ensures RowIsSound(t, r)
    {
      assert RowIsSound(store, r);
    }
  }

  /** Opening a settlement for receipts that wait, and marking them in its leaf order. */
  lemma BatchKeepsSound(check: Check, store: Store, sid: nat, settlement: Settlement, ids: seq<nat>)
    requires SoundFor(check, store) && sid !in store.members
    requires |ids| > 0 && Distinct(ids) && AllUnsettled(store.receipts, ids) && AllPresent(store.receipts, ids)
    requires forall k | 0 <= k < |ids| :: store.receipts[ids[k]].escrowId == settlement.escrowId
    requires check(SlipsOf(store.receipts, ids), settlement)
    ensures SoundFor(check, Batched(store, sid, settlement, ids))
  {
    var t := Batched(store, sid, settlement, ids);
    MarkAllMarks(store.receipts, ids, sid);
    forall s | s in t.members
      ensures SettlementIsSound(check, t, s)
    {
      if s == sid {
        assert SlipsOf(t.receipts, ids) == SlipsOf(store.receipts, ids);
      } else {
        OldSettlementStays(check, store, sid, settlement, ids, s);
      }
    }
    forall r | r in t.receipts
      ensures RowIsSound(t, r)
    {
      assert RowIsSound(store, r);
      if r in ids {
        var k :| 0 <= k < |ids| && ids[k] == r;
      }
    }
  }

  lemma OldSettlementStays(check: Check, store: Store, sid: nat, settlement: Settlement, ids: seq<nat>, s: nat)
    requires SoundFor(check, store) && sid !in store.members && s in store.members
    requires Distinct(ids) && AllUnsettled(store.receipts, ids) && AllPresent(store.receipts, ids)
    ensures SettlementIsSound(check, Batched(store, sid, settlement, ids), s)
  {
    var t := Batched(store, sid, settlement, ids);
    MarkAllMarks(store.receipts, ids, sid);
    assert SettlementIsSound(check, store, s);
    var earlier := store.members[s];
    forall k | 0 <= k < |earlier|
      ensures earlier[k] in t.receipts && t.receipts[earlier[k]] == store.receipts[earlier[k]]
    {
      assert store.receipts[earlier[k]].settlementId == Some(s);
    }
    assert SlipsOf(t.receipts, earlier) == SlipsOf(store.receipts, earlier);
  }

  // ---------------------------------------------------------------------------------------------
  // What holds of every sound store
  // ---------------------------------------------------------------------------------------------

  /** No receipt is in two settlements, or twice in one. */
  lemma ReceiptInOneSettlement(keccak: Merkle.Keccak, store: Store, s: nat, i: nat, t: nat, j: nat)
    requires Sound(keccak, store) && s in store.members && t in store.members
    requires i < |store.members[s]| && j < |store.members[t]| && store.members[s][i] == store.members[t][j]
    ensures s == t && i == j
  {
    assert SettlementIsSound(DescribedBy(keccak), store, s);
    assert SettlementIsSound(DescribedBy(keccak), store, t);
  }

  /** The receipts of a settlement, as the batch packed them. */
  function BatchOf(store: Store, sid: nat): seq<Receipt>
    requires sid in store.members && AllPresent(store.receipts, store.members[sid])
  {
    Packable(SlipsOf(store.receipts, store.members[sid]))
  }

  /**
   The blob of a settlement decodes to exactly its receipts in batchIndex order, and its total parses
   to the sum of their wei.
   */
  lemma BatchIsFaithful(keccak: Merkle.Keccak, store: Store, sid: nat)
    requires Sound(keccak, store) && sid in store.members
    ensures sid in store.settlements && AllPresent(store.receipts, store.members[sid])
    ensures var settlement := store.settlements[sid]; var ids := store.members[sid];
            && CompactCodec.Unpack(settlement.packedReceipts) == Ok(LowerReceipts(BatchOf(store, sid)))
            && Amount.From(settlement.totalAmount) == Ok(TotalWei(SlipsOf(store.receipts, ids)))
            && settlement.receiptCount == |ids|
  {
    assert SettlementIsSound(DescribedBy(keccak), store, sid);
    CompactTheorems.RoundTrip(BatchOf(store, sid));
    Amount.PrintingRoundTrips(TotalWei(SlipsOf(store.receipts, store.members[sid])));
  }

  /** The rows of a settlement, ordered by batchIndex, createdAt and id. */
  ghost predicate IsBatchQuery(receipts: map<nat, Row>, sid: nat, rows: seq<Row>) {
    && (forall k | 0 <= k < |rows| ::
          rows[k].id in receipts && receipts[rows[k].id] == rows[k] && rows[k].settlementId == Some(sid))
    && (forall id | id in receipts && receipts[id].settlementId == Some(sid) ::
          exists k :: 0 <= k < |rows| && rows[k].id == id)
    && (forall i, j | 0 <= i < j < |rows| :: ComesBefore(rows[i], rows[j]))
  }

  predicate ComesBefore(a: Row, b: Row) {
    var i, j := IndexKey(a), IndexKey(b);
    i < j || (i == j && (a.createdAt < b.createdAt || (a.createdAt == b.createdAt && a.id < b.id)))
  }

  /** Rows without a batchIndex sort last. */
  function IndexKey(row: Row): int {
    if row.batchIndex.Some? then row.batchIndex.value else 0x8000_0000
  }

  /** The query returns the members in leaf order. */
  lemma QueryIsLeafOrder(check: Check, store: Store, sid: nat, rows: seq<Row>)
    requires SoundFor(check, store) && sid in store.members && IsBatchQuery(store.receipts, sid, rows)
    ensures |rows| == |store.members[sid]|
    ensures forall k | 0 <= k < |rows| :: rows[k].id == store.members[sid][k] && rows[k].batchIndex == Some(k)
  {
    RowsAreMembers(check, store, sid, rows);
    AllIndices(IndicesOf(rows), |store.members[sid]|);
  }

  function IndicesOf(rows: seq<Row>): (indices: seq<nat>)
    requires forall k | 0 <= k < |rows| :: rows[k].batchIndex.Some?
    ensures |indices| == |rows| && forall k | 0 <= k < |rows| :: indices[k] == rows[k].batchIndex.value
  {
    seq(|rows|, k requires 0 <= k < |rows| => rows[k].batchIndex.value)
  }

  lemma RowsAreMembers(check: Check, store: Store, sid: nat, rows: seq<Row>)
    requires SoundFor(check, store) && sid in store.members && IsBatchQuery(store.receipts, sid, rows)
    ensures forall k | 0 <= k < |rows| ::
      && rows[k].batchIndex.Some? && rows[k].batchIndex.value < |store.members[sid]|
      && store.members[sid][rows[k].batchIndex.value] == rows[k].id
    ensures var indices := IndicesOf(rows);
            && (forall i, j | 0 <= i < j < |indices| :: indices[i] < indices[j])
            && (forall k | 0 <= k < |store.members[sid]| :: k in indices)
  {
    var ids := store.members[sid];
    forall k | 0 <= k < |rows|
      ensures rows[k].batchIndex.Some? && rows[k].batchIndex.value < |ids|
              && ids[rows[k].batchIndex.value] == rows[k].id
    {
      assert RowIsSound(store, rows[k].id);
    }
    forall k | 0 <= k < |ids|
      ensures k in IndicesOf(rows)
    {
      MemberIsQueried(check, store, sid, rows, k);
    }
    forall i, j | 0 <= i < j < |rows|
      ensures rows[i].batchIndex.value < rows[j].batchIndex.value
    {
      assert ComesBefore(rows[i], rows[j]);
    }
  }

  lemma MemberIsQueried(check: Check, store: Store, sid: nat, rows: seq<Row>, k: nat)
    requires SoundFor(check, store) && sid in store.members && IsBatchQuery(store.receipts, sid, rows)
    requires k < |store.members[sid]| && forall j | 0 <= j < |rows| :: rows[j].batchIndex.Some?
    ensures k in IndicesOf(rows)
  {
    var ids := store.members[sid];
    assert SettlementIsSound(check, store, sid);
    assert store.receipts[ids[k]].settlementId == Some(sid);
    var j :| 0 <= j < |rows| && rows[j].id == ids[k];
    assert IndicesOf(rows)[j] == k;
  }

  lemma FirstIsBelow(indices: seq<nat>, n: nat)
    requires forall k | 0 <= k < |indices| :: indices[k] < n
    ensures |indices| > 0 ==> indices[0] < n
  {
  }

  /** Increasing numbers below n that include all of them are 0, 1, 2, ... */
  lemma {:induction false} AllIndices(indices: seq<nat>, n: nat)
    requires forall k | 0 <= k < |indices| :: indices[k] < n
    requires forall i, j | 0 <= i < j < |indices| :: indices[i] < indices[j]
    requires forall k | 0 <= k < n :: k in indices
    ensures |indices| == n && forall k | 0 <= k < n :: indices[k] == k
  {
    if n > 0 {
      assert n - 1 in indices;
      var front := indices[..|indices| - 1];
      assert indices[|indices| - 1] == n - 1;
      assert indices == front + [n - 1];
      forall k | 0 <= k < n - 1
        ensures k in front
      {
        assert k in indices;
      }
      AllIndices(front, n - 1);
    } else {
      FirstIsBelow(indices, n);
    }
  }

  function LeavesOf(rows: seq<Row>): (leaves: seq<string>)
    ensures |leaves| == |rows| && forall k | 0 <= k < |rows| :: leaves[k] == rows[k].slip.receiptHash
  {
    seq(|rows|, k requires 0 <= k < |rows| => rows[k].slip.receiptHash)
  }

  lemma QueriedLeaves(check: Check, store: Store, sid: nat, rows: seq<Row>)
    requires SoundFor(check, store) && sid in store.members && IsBatchQuery(store.receipts, sid, rows)
    ensures AllPresent(store.receipts, store.members[sid])
    ensures LeavesOf(rows) == HashesOf(SlipsOf(store.receipts, store.members[sid]))
  {
    assert SettlementIsSound(check, store, sid);
    QueryIsLeafOrder(check, store, sid, rows);
  }

  /** Where a settled receipt stands in its batch. */
  lemma QueriedIndex(check: Check, store: Store, id: nat, rows: seq<Row>)
    requires SoundFor(check, store) && id in store.receipts && store.receipts[id].settlementId.Some?
    requires IsBatchQuery(store.receipts, store.receipts[id].settlementId.value, rows)
    ensures var row := store.receipts[id];
            && row.settlementId.value in store.members
            && row.batchIndex.Some? && row.batchIndex.value < |rows| && rows[row.batchIndex.value] == row
    ensures forall k | 0 <= k < |rows| :: rows[k].id == id ==> store.receipts[id].batchIndex == Some(k)
  {
    assert RowIsSound(store, id);
    QueryIsLeafOrder(check, store, store.receipts[id].settlementId.value, rows);
  }

  lemma LeavesOfDescribed(keccak: Merkle.Keccak, slips: seq<Slip>, settlement: Settlement, leaves: seq<string>,
      index: nat)
    requires Merkle.PrintsNodes(keccak)
    requires Describes(keccak, slips, settlement) && leaves == HashesOf(slips) && index < |leaves|
    ensures Merkle.RootOf(keccak, leaves) == Ok(settlement.receiptsHash)
    ensures Merkle.ProofOf(keccak, leaves, index).Ok?
    ensures Merkle.Verify(keccak, leaves[index], Merkle.ProofOf(keccak, leaves, index).value, settlement.receiptsHash)
  {
    Merkle.Completeness(keccak, leaves, index);
  }

  /** inclusionProof of a settled receipt: the root it rebuilds is the settlement's, and its proof verifies. */
  lemma InclusionVerifies(keccak: Merkle.Keccak, store: Store, id: nat, rows: seq<Row>)
    requires Merkle.PrintsNodes(keccak)
    requires Sound(keccak, store) && id in store.receipts && store.receipts[id].settlementId.Some?
    requires IsBatchQuery(store.receipts, store.receipts[id].settlementId.value, rows)
    ensures var row := store.receipts[id];
            && row.settlementId.value in store.settlements
            && row.batchIndex.Some? && row.batchIndex.value < |rows| && rows[row.batchIndex.value] == row
    ensures var row := store.receipts[id]; var settlement := store.settlements[row.settlementId.value];
            var proof := Merkle.ProofOf(keccak, LeavesOf(rows), row.batchIndex.value);
            && Merkle.RootOf(keccak, LeavesOf(rows)) == Ok(settlement.receiptsHash)
            && proof.Ok? && Merkle.Verify(keccak, row.slip.receiptHash, proof.value, settlement.receiptsHash)
  {
    var row := store.receipts[id];
    var sid := row.settlementId.value;
    QueriedIndex(DescribedBy(keccak), store, id, rows);
    assert SettlementIsSound(DescribedBy(keccak), store, sid);
    QueriedLeaves(DescribedBy(keccak), store, sid, rows);
    LeavesOfDescribed(keccak, SlipsOf(store.receipts, store.members[sid]), store.settlements[sid], LeavesOf(rows),
                      row.batchIndex.value);
  }
}
