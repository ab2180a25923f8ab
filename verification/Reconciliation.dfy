/** The comparison of the ledger's open sessions with the escrow contract. */
module Reconciliation {
  import opened Base
  import EscrowHub

  /** An open session; `hubId` is the id it has on the contract. */
  datatype OpenSession = OpenSession(id: string, hubId: EscrowHub.EscrowId, deposit: nat, released: int)

  /** A settled settlement of one of the sessions. */
  datatype Settled = Settled(escrowId: string, amount: int)

  datatype Mismatch =
    | MissingOnChain(escrowId: string, ledger: int)
    | InactiveOnChain(escrowId: string, ledger: int)
    | DepositMismatch(escrowId: string, ledger: int, onChain: int)
    | SpentMismatch(escrowId: string, ledger: int, onChain: int)
    | HubBalanceShortfall(ledger: int, onChain: int)

  // ---------------------------------------------------------------------------------------------
  // What the ledger says
  // ---------------------------------------------------------------------------------------------

  function SettledOf(rows: seq<Settled>, id: string): int {
    if |rows| == 0 then 0
    else
      var last := rows[|rows| - 1];
      SettledOf(rows[..|rows| - 1], id) + if last.escrowId == id then last.amount else 0
  }

  /** settledByEscrow. */
  method SettledByEscrow(rows: seq<Settled>) returns (totals: map<string, int>)
    ensures forall id :: (if id in totals then totals[id] else 0) == SettledOf(rows, id)
  {
    totals := map[];
    for i := 0 to |rows|
      invariant forall id :: (if id in totals then totals[id] else 0) == SettledOf(rows[..i], id)
    {
      var row := rows[i];
      assert rows[..i + 1][..i] == rows[..i];
      totals := totals[row.escrowId := (if row.escrowId in totals then totals[row.escrowId] else 0) + row.amount];
    }
    assert rows[..|rows|] == rows;
  }

  function Spent(rows: seq<Settled>, s: OpenSession): int {
    SettledOf(rows, s.id) + s.released
  }

  function Remaining(rows: seq<Settled>, s: OpenSession): nat {
    if s.deposit > Spent(rows, s) then s.deposit - Spent(rows, s) else 0
  }

  function LedgerLocked(rows: seq<Settled>, open: seq<OpenSession>): nat {
    if |open| == 0 then 0 else LedgerLocked(rows, open[..|open| - 1]) + Remaining(rows, open[|open| - 1])
  }

  /** One settled row more, and one open session more. */
  lemma OneRowMore(rows: seq<Settled>, row: Settled, id: string, open: seq<OpenSession>, s: OpenSession)
    ensures SettledOf([], id) == 0 && LedgerLocked(rows, []) == 0
    ensures SettledOf(rows + [row], id) == SettledOf(rows, id) + if row.escrowId == id then row.amount else 0
    ensures LedgerLocked(rows, open + [s])
         == LedgerLocked(rows, open) + Max(s.deposit - (SettledOf(rows, s.id) + s.released), 0)
  {
    assert (rows + [row])[..|rows|] == rows;
    assert (open + [s])[..|open|] == open;
  }

  // ---------------------------------------------------------------------------------------------
  // compare
  // ---------------------------------------------------------------------------------------------

  /** The contract knows the escrow, has it active, and agrees on deposit and spent. */
  predicate Agrees(rows: seq<Settled>, s: OpenSession, w: EscrowHub.World) {
    && s.hubId in w.escrows && w.escrows[s.hubId].createdAt != 0
    && w.escrows[s.hubId].active
    && w.escrows[s.hubId].deposit == s.deposit
    && w.escrows[s.hubId].spent == Spent(rows, s)
  }

  predicate IsReport(rows: seq<Settled>, s: OpenSession, w: EscrowHub.World, m: Mismatch) {
    var known := s.hubId in w.escrows && w.escrows[s.hubId].createdAt != 0;
    match m
    case MissingOnChain(id, ledger) => id == s.id && !known && ledger == s.deposit
    case InactiveOnChain(id, ledger) =>
      id == s.id && known && !w.escrows[s.hubId].active && ledger == s.deposit - Spent(rows, s)
    case DepositMismatch(id, ledger, onChain) =>
      id == s.id && known && ledger == s.deposit != onChain == w.escrows[s.hubId].deposit
    case SpentMismatch(id, ledger, onChain) =>
      id == s.id && known && ledger == Spent(rows, s) != onChain == w.escrows[s.hubId].spent
    case HubBalanceShortfall(_, _) => false
  }

  /** The mismatches of one session; `w` is the contract as it is read. */
  method CheckSession(ghost rows: seq<Settled>, s: OpenSession, spent: int,
      w: EscrowHub.World) returns (found: seq<Mismatch>)
    requires spent == Spent(rows, s)
    ensures found == [] <==> Agrees(rows, s, w)
    ensures forall m :: m in found <==> IsReport(rows, s, w, m)
    ensures if s.hubId !in w.escrows || w.escrows[s.hubId].createdAt == 0
            then found == [MissingOnChain(s.id, s.deposit)]
            else
              var escrow := w.escrows[s.hubId];
              && (InactiveOnChain(s.id, s.deposit - spent) in found <==> !escrow.active)
              && (DepositMismatch(s.id, s.deposit, escrow.deposit) in found <==> s.deposit != escrow.deposit)
              && (SpentMismatch(s.id, spent, escrow.spent) in found <==> spent != escrow.spent)
              && forall m | m in found ::
                   m == InactiveOnChain(s.id, s.deposit - spent) || m == SpentMismatch(s.id, spent, escrow.spent)
                   || m == DepositMismatch(s.id, s.deposit, escrow.deposit)
  {
    if s.hubId !in w.escrows || w.escrows[s.hubId].createdAt == 0 {
      return [MissingOnChain(s.id, s.deposit)];
    }
    var onChain := w.escrows[s.hubId];
    found := [];
    if !onChain.active {
      found := found + [InactiveOnChain(s.id, s.deposit - spent)];
    }
    if onChain.deposit != s.deposit {
      found := found + [DepositMismatch(s.id, s.deposit, onChain.deposit)];
    }
    if onChain.spent != spent {
      found := found + [SpentMismatch(s.id, spent, onChain.spent)];
    }
  }

  predicate AllAgree(rows: seq<Settled>, open: seq<OpenSession>, snapshots: seq<EscrowHub.World>)
    requires |open| <= |snapshots|
  {
    forall i | 0 <= i < |open| :: Agrees(rows, open[i], snapshots[i])
  }

  ghost predicate Reported(rows: seq<Settled>, open: seq<OpenSession>, snapshots: seq<EscrowHub.World>, m: Mismatch)
    requires |open| <= |snapshots|
  {
    exists i :: 0 <= i < |open| && IsReport(rows, open[i], snapshots[i], m)
  }

  /**
   compare: `open` are the oldest of `totalOpen` open sessions, `snapshots` the contract at each session's
   read and `last` the contract when its balance is read.
   */
  method Compare(open: seq<OpenSession>, totalOpen: nat, rows: seq<Settled>, snapshots: seq<EscrowHub.World>,
      last: EscrowHub.World)
    returns (mismatches: seq<Mismatch>, locked: nat)
    requires |snapshots| == |open|
    ensures locked == LedgerLocked(rows, open)
    ensures forall m ::
              m in mismatches <==>
                Reported(rows, open, snapshots, m)
                || (m == HubBalanceShortfall(locked, last.balance) && totalOpen <= |open| && last.balance < locked)
    ensures mismatches == [] <==>
              AllAgree(rows, open, snapshots) && (totalOpen <= |open| ==> locked <= last.balance)
  {
    var settled := SettledByEscrow(rows);
    mismatches, locked := [], 0;
    for i := 0 to |open|
      invariant locked == LedgerLocked(rows, open[..i])
      invariant forall m :: m in mismatches <==> Reported(rows, open[..i], snapshots, m)
      invariant mismatches == [] <==> AllAgree(rows, open[..i], snapshots)
    {
      var s := open[i];
      var spent := (if s.id in settled then settled[s.id] else 0) + s.released;
      assert spent == Spent(rows, s);
      locked := locked + if s.deposit > spent then s.deposit - spent else 0;
      var found := CheckSession(rows, s, spent, snapshots[i]);
      NextSession(rows, open, snapshots, i, mismatches, found);
      assert open[..i + 1][..i] == open[..i];
      mismatches := mismatches + found;
    }
    assert open[..|open|] == open;
    if totalOpen <= |open| && last.balance < locked {
      mismatches := mismatches + [HubBalanceShortfall(locked, last.balance)];
    }
  }

  lemma NextSession(rows: seq<Settled>, open: seq<OpenSession>, snapshots: seq<EscrowHub.World>, i: nat,
      before: seq<Mismatch>, found: seq<Mismatch>)
    requires i < |open| <= |snapshots|
    requires forall m :: m in before <==> Reported(rows, open[..i], snapshots, m)
    requires before == [] <==> AllAgree(rows, open[..i], snapshots)
    requires forall m :: m in found <==> IsReport(rows, open[i], snapshots[i], m)
    requires found == [] <==> Agrees(rows, open[i], snapshots[i])
    ensures forall m :: m in before + found <==> Reported(rows, open[..i + 1], snapshots, m)
    ensures before + found == [] <==> AllAgree(rows, open[..i + 1], snapshots)
  {
    forall m
      ensures Reported(rows, open[..i + 1], snapshots, m)
         <==> Reported(rows, open[..i], snapshots, m) || IsReport(rows, open[i], snapshots[i], m)
    {
      if Reported(rows, open[..i + 1], snapshots, m) {
        var k :| 0 <= k < i + 1 && IsReport(rows, open[..i + 1][k], snapshots[k], m);
        assert k < i ==> open[..i][k] == open[..i + 1][k];
      }
      if Reported(rows, open[..i], snapshots, m) {
        var k :| 0 <= k < i && IsReport(rows, open[..i][k], snapshots[k], m);
        assert open[..i + 1][k] == open[..i][k];
      }
      if IsReport(rows, open[i], snapshots[i], m) {
        assert open[..i + 1][i] == open[i];
      }
    }
    if AllAgree(rows, open[..i + 1], snapshots) {
      assert open[..i + 1][i] == open[i];
      assert forall k | 0 <= k < i :: open[..i][k] == open[..i + 1][k];
    }
  }

  // ---------------------------------------------------------------------------------------------
  // What a shortfall means when every session agrees at its own read
  // ---------------------------------------------------------------------------------------------

  predicate DistinctHubIds(open: seq<OpenSession>) {
    forall i, j | 0 <= i < j < |open| :: open[i].hubId != open[j].hubId
  }

  function HubIds(open: seq<OpenSession>): (ids: set<EscrowHub.EscrowId>) {
    set i | 0 <= i < |open| :: open[i].hubId
  }

  /** What the contract has locked in these escrows. */
  ghost function LockedFor(w: EscrowHub.World, ids: set<EscrowHub.EscrowId>): nat {
    EscrowHub.Total(ids, id => EscrowHub.LockedIn(w, id))
  }

  lemma LockedForSplit(w: EscrowHub.World, ids: set<EscrowHub.EscrowId>, id: EscrowHub.EscrowId)
    requires id in ids
    ensures LockedFor(w, ids) == EscrowHub.LockedIn(w, id) + LockedFor(w, ids - {id})
  {
    EscrowHub.TotalSplit(ids, x => EscrowHub.LockedIn(w, x), id);
  }

  lemma {:induction false} LockedForUnion(w: EscrowHub.World, a: set<EscrowHub.EscrowId>, b: set<EscrowHub.EscrowId>)
    requires a !! b
    ensures LockedFor(w, a + b) == LockedFor(w, a) + LockedFor(w, b)
    decreases a
  {
    if a == {} {
      assert a + b == b;
    } else {
      var id :| id in a;
      LockedForSplit(w, a, id);
      LockedForSplit(w, a + b, id);
      assert a + b - {id} == (a - {id}) + b;
      LockedForUnion(w, a - {id}, b);
    }
  }

  lemma {:induction false} NothingElsewhere(w: EscrowHub.World, ids: set<EscrowHub.EscrowId>)
    requires ids !! w.escrows.Keys
    ensures LockedFor(w, ids) == 0
    decreases ids
  {
    if ids != {} {
      var id :| id in ids;
      LockedForSplit(w, ids, id);
      NothingElsewhere(w, ids - {id});
    }
  }

  /** What the balance holds apart from these sessions: other escrows, withheld fees, ether sent in. */
  ghost function HeldForOthers(open: seq<OpenSession>, w: EscrowHub.World): nat {
    LockedFor(w, w.escrows.Keys - HubIds(open)) + EscrowHub.FeesWithheld(w) + w.received
  }

  lemma BalanceSplits(open: seq<OpenSession>, w: EscrowHub.World)
    requires EscrowHub.Solvent(w)
    ensures w.balance == LockedFor(w, HubIds(open)) + HeldForOthers(open, w)
  {
    var keys, ids := w.escrows.Keys, HubIds(open);
    LockedForUnion(w, keys, ids - keys);
    LockedForUnion(w, ids, keys - ids);
    assert keys + (ids - keys) == ids + (keys - ids);
    NothingElsewhere(w, ids - keys);
    EscrowHub.TotalAgree(keys, id => EscrowHub.LockedIn(w, id), id => EscrowHub.LockedIn(w, id));
  }

  /** By how much the sessions' escrows hold less at the end than each held at its own read. */
  function Dropped(open: seq<OpenSession>, snapshots: seq<EscrowHub.World>, last: EscrowHub.World): int
    requires |open| <= |snapshots|
  {
    if |open| == 0 then 0
    else
      var k := |open| - 1;
      Dropped(open[..k], snapshots, last)
      + EscrowHub.LockedIn(snapshots[k], open[k].hubId) - EscrowHub.LockedIn(last, open[k].hubId)
  }

  predicate AllBalanced(snapshots: seq<EscrowHub.World>) {
    forall i | 0 <= i < |snapshots| ::
      && snapshots[i].accounts.Keys == snapshots[i].escrows.Keys
      && forall id | id in snapshots[i].escrows ::
           EscrowHub.Balanced(snapshots[i].escrows[id], snapshots[i].accounts[id])
  }

  lemma AgreeingRemains(rows: seq<Settled>, s: OpenSession, w: EscrowHub.World)
    requires Agrees(rows, s, w) && s.hubId in w.accounts
    requires EscrowHub.Balanced(w.escrows[s.hubId], w.accounts[s.hubId])
    ensures Remaining(rows, s) == EscrowHub.LockedIn(w, s.hubId)
  {
  }

  lemma HubIdsOfFront(open: seq<OpenSession>)
    requires |open| > 0 && DistinctHubIds(open)
    ensures var last := open[|open| - 1].hubId;
            last in HubIds(open) && HubIds(open) - {last} == HubIds(open[..|open| - 1])
    ensures DistinctHubIds(open[..|open| - 1])
  {
  }

  lemma {:induction false} DropIsTheDifference(rows: seq<Settled>, open: seq<OpenSession>,
      snapshots: seq<EscrowHub.World>, last: EscrowHub.World)
    requires |open| <= |snapshots| && DistinctHubIds(open) && AllBalanced(snapshots) && AllAgree(rows, open, snapshots)
    ensures Dropped(open, snapshots, last) == LedgerLocked(rows, open) - LockedFor(last, HubIds(open))
  {
    if |open| > 0 {
      var k := |open| - 1;
      HubIdsOfFront(open);
      DropIsTheDifference(rows, open[..k], snapshots, last);
      assert Agrees(rows, open[k], snapshots[k]);
      AgreeingRemains(rows, open[k], snapshots[k]);
      LockedForSplit(last, HubIds(open), open[k].hubId);
    }
  }

  lemma {:induction false} DropNeedsASession(open: seq<OpenSession>, snapshots: seq<EscrowHub.World>,
      last: EscrowHub.World)
    requires |open| <= |snapshots| && Dropped(open, snapshots, last) > 0
    ensures exists i :: 0 <= i < |open| && HoldsLess(open[i], snapshots[i], last)
  {
    var k := |open| - 1;
    if !HoldsLess(open[k], snapshots[k], last) {
      DropNeedsASession(open[..k], snapshots, last);
      var i :| 0 <= i < k && HoldsLess(open[..k][i], snapshots[i], last);
      assert open[..k][i] == open[i];
    }
  }

  /** The session's escrow was closed, or paid from, or taken back by a failed call, between the two. */
  predicate HoldsLess(s: OpenSession, before: EscrowHub.World, after: EscrowHub.World) {
    EscrowHub.LockedIn(after, s.hubId) < EscrowHub.LockedIn(before, s.hubId)
  }

  function WorldAt(owner: EscrowHub.Address, balance: nat, es: seq<EscrowHub.Event>, point: nat): EscrowHub.World
    requires point <= |es|
  {
    EscrowHub.Run(owner, EscrowHub.Deployed(balance), es[..point]).world
  }

  /** Each snapshot is the contract at some point of one run. */
  predicate ReadDuring(owner: EscrowHub.Address, balance: nat, es: seq<EscrowHub.Event>, points: seq<nat>,
      snapshots: seq<EscrowHub.World>)
  {
    && |points| == |snapshots|
    && forall i | 0 <= i < |points| :: points[i] <= |es| && snapshots[i] == WorldAt(owner, balance, es, points[i])
  }

  /**
   Each session is read at a moment of its own, and agrees there; the balance is read at the end. The
   balance check fires exactly when the sessions' escrows have lost more since their reads than the
   contract holds for everything else, and so only when some escrow holds less than at its read.
   */
  lemma ShortfallIff(owner: EscrowHub.Address, balance: nat, es: seq<EscrowHub.Event>, points: seq<nat>,
      rows: seq<Settled>, open: seq<OpenSession>, snapshots: seq<EscrowHub.World>)
    requires |snapshots| == |open| && DistinctHubIds(open) && ReadDuring(owner, balance, es, points, snapshots)
    requires AllAgree(rows, open, snapshots)
    ensures var last := WorldAt(owner, balance, es, |es|);
            && (last.balance < LedgerLocked(rows, open)
                <==> Dropped(open, snapshots, last) > HeldForOthers(open, last))
            && (last.balance < LedgerLocked(rows, open)
                ==> exists i :: 0 <= i < |open| && HoldsLess(open[i], snapshots[i], last))
  {
    var last := WorldAt(owner, balance, es, |es|);
    EscrowHub.SolventForever(owner, balance, es[..|es|]);
    forall i | 0 <= i < |snapshots|
      ensures EscrowHub.Solvent(snapshots[i])
    {
      EscrowHub.SolventForever(owner, balance, es[..points[i]]);
    }
    BalanceSplits(open, last);
    DropIsTheDifference(rows, open, snapshots, last);
    if last.balance < LedgerLocked(rows, open) {
      DropNeedsASession(open, snapshots, last);
    }
  }

  /**
   On one snapshot of a reachable contract, sessions that agree one by one leave no shortfall: the
   balance check can only fire together with a mismatch of some session.
   */
  lemma AgreementRulesOutShortfall(owner: EscrowHub.Address, balance: nat, es: seq<EscrowHub.Event>,
      rows: seq<Settled>, open: seq<OpenSession>)
    requires DistinctHubIds(open)
    requires var w := EscrowHub.Run(owner, EscrowHub.Deployed(balance), es).world;
             forall i | 0 <= i < |open| :: Agrees(rows, open[i], w)
    ensures LedgerLocked(rows, open) <= EscrowHub.Run(owner, EscrowHub.Deployed(balance), es).world.balance
  {
    assert es[..|es|] == es;
    var w := WorldAt(owner, balance, es, |es|);
    ShortfallIff(owner, balance, es, seq(|open|, _ => |es|), rows, open, seq(|open|, _ => w));
  }

  // ---------------------------------------------------------------------------------------------
  // A closed escrow between the reads
  // ---------------------------------------------------------------------------------------------

  lemma {:induction false} DropOfOne(open: seq<OpenSession>, w: EscrowHub.World, last: EscrowHub.World, k: nat)
    requires k < |open| && DistinctHubIds(open) && EscrowHub.LockedIn(last, open[k].hubId) == 0
    requires forall id | id != open[k].hubId :: EscrowHub.LockedIn(last, id) == EscrowHub.LockedIn(w, id)
    ensures Dropped(open, seq(|open|, _ => w), last) == EscrowHub.LockedIn(w, open[k].hubId)
  {
    var n := |open| - 1;
    SameSnapshots(open[..n], seq(|open|, _ => w), seq(n, _ => w), last);
    if k < n {
      DropOfOne(open[..n], w, last, k);
    } else {
      NoDrop(open[..n], w, last);
    }
  }

  lemma {:induction false} SameSnapshots(open: seq<OpenSession>, a: seq<EscrowHub.World>, b: seq<EscrowHub.World>,
      last: EscrowHub.World)
    requires |open| <= |a| && |open| <= |b| && a[..|open|] == b[..|open|]
    ensures Dropped(open, a, last) == Dropped(open, b, last)
  {
    if |open| > 0 {
      var n := |open| - 1;
      assert a[..n] == a[..|open|][..n] && b[..n] == b[..|open|][..n];
      assert a[n] == a[..|open|][n] && b[n] == b[..|open|][n];
      SameSnapshots(open[..n], a, b, last);
    }
  }

  lemma {:induction false} NoDrop(open: seq<OpenSession>, w: EscrowHub.World, last: EscrowHub.World)
    requires forall i | 0 <= i < |open| ::
               EscrowHub.LockedIn(last, open[i].hubId) == EscrowHub.LockedIn(w, open[i].hubId)
    ensures Dropped(open, seq(|open|, _ => w), last) == 0
  {
    if |open| > 0 {
      var n := |open| - 1;
      SameSnapshots(open[..n], seq(|open|, _ => w), seq(n, _ => w), last);
      NoDrop(open[..n], w, last);
    }
  }

  lemma CloseMovesOne(w: EscrowHub.World, open: seq<OpenSession>, k: nat)
    requires k < |open| && EscrowHub.Solvent(w) && open[k].hubId in w.escrows && w.escrows[open[k].hubId].active
    requires !EscrowHub.Close(w, open[k].hubId).Reverts?
    ensures var last := EscrowHub.Close(w, open[k].hubId).world;
            && EscrowHub.LockedIn(last, open[k].hubId) == 0
            && (forall other | other != open[k].hubId ::
                  EscrowHub.LockedIn(last, other) == EscrowHub.LockedIn(w, other))
            && HeldForOthers(open, last) == HeldForOthers(open, w)
  {
    var id := open[k].hubId;
    var last := EscrowHub.Close(w, id).world;
    assert last.escrows.Keys == w.escrows.Keys;
    EscrowHub.TotalAgree(w.escrows.Keys - HubIds(open), x => EscrowHub.LockedIn(w, x),
        x => EscrowHub.LockedIn(last, x));
    EscrowHub.TotalAgree(w.escrows.Keys, x => EscrowHub.AccountOf(w, x).fees, x => EscrowHub.AccountOf(last, x).fees);
  }

  /** The owner's close of an escrow, which a reachable contract never refuses. */
  lemma CloseTakesOne(owner: EscrowHub.Address, balance: nat, es: seq<EscrowHub.Event>, open: seq<OpenSession>, k: nat)
    requires k < |open|
    requires var w := WorldAt(owner, balance, es, |es|);
             open[k].hubId in w.escrows && w.escrows[open[k].hubId].active
    ensures var id := open[k].hubId;
            var later := es + [EscrowHub.Invoke(EscrowHub.EmergencyClose(owner, id))];
            var w, last := WorldAt(owner, balance, es, |es|), WorldAt(owner, balance, later, |later|);
            && EscrowHub.LockedIn(last, id) == 0
            && (forall other | other != id :: EscrowHub.LockedIn(last, other) == EscrowHub.LockedIn(w, other))
            && HeldForOthers(open, last) == HeldForOthers(open, w)
  {
    var id, close := open[k].hubId, EscrowHub.Invoke(EscrowHub.EmergencyClose(owner, open[k].hubId));
    var later := es + [close];
    assert es[..|es|] == es && later[..|later|] == later && later[..|es|] == es;
    EscrowHub.SolventForever(owner, balance, es);
    EscrowHub.RefundIsCovered(owner, balance, es, id);
    var w := WorldAt(owner, balance, es, |es|);
    assert WorldAt(owner, balance, later, |later|) == EscrowHub.Close(w, id).world;
    CloseMovesOne(w, open, k);
  }

  /**
   Sessions that all agree, one of which is closed before the balance is read: the shortfall is
   reported exactly when that escrow held more than the contract holds for everything else.
   */
  lemma CloseBetweenReadsIff(owner: EscrowHub.Address, balance: nat, es: seq<EscrowHub.Event>, rows: seq<Settled>,
      open: seq<OpenSession>, k: nat)
    requires k < |open| && DistinctHubIds(open)
    requires forall i | 0 <= i < |open| :: Agrees(rows, open[i], WorldAt(owner, balance, es, |es|))
    ensures var id := open[k].hubId;
            var later := es + [EscrowHub.Invoke(EscrowHub.EmergencyClose(owner, id))];
            var w, last := WorldAt(owner, balance, es, |es|), WorldAt(owner, balance, later, |later|);
            last.balance < LedgerLocked(rows, open) <==> EscrowHub.LockedIn(w, id) > HeldForOthers(open, w)
  {
    var id := open[k].hubId;
    var later := es + [EscrowHub.Invoke(EscrowHub.EmergencyClose(owner, id))];
    var w, last := WorldAt(owner, balance, es, |es|), WorldAt(owner, balance, later, |later|);
    assert later[..|es|] == es[..|es|];
    CloseTakesOne(owner, balance, es, open, k);
    DropOfOne(open, w, last, k);
    ShortfallIff(owner, balance, later, seq(|open|, _ => |es|), rows, open, seq(|open|, _ => w));
  }

  /** Such a run exists: a session read while active and closed before the balance is read. */
  lemma TornReadReportsShortfall(owner: EscrowHub.Address, payer: EscrowHub.Address, payee: EscrowHub.Address,
      deposit: nat)
    returns (earlier: seq<EscrowHub.Event>, later: seq<EscrowHub.Event>, s: OpenSession)
    requires payee != EscrowHub.ZERO_ADDRESS && deposit > 0
    ensures earlier < later
    ensures var before, after := EscrowHub.Run(owner, EscrowHub.Deployed(0), earlier).world,
                                 EscrowHub.Run(owner, EscrowHub.Deployed(0), later).world;
            Agrees([], s, before) && after.balance < LedgerLocked([], [s]) && HoldsLess(s, before, after)
  {
    var open := EscrowHub.Invoke(EscrowHub.OpenEscrow(payer, deposit, 7, payee, deposit, false, 60, 1));
    var close := EscrowHub.Invoke(EscrowHub.CloseEscrow(payer, 7));
    earlier, later, s := [open], [open, close], OpenSession("s", 7, deposit, 0);
    assert later[..1] == earlier && earlier[..0] == [];
    assert [s][..0] == [];
    var start := EscrowHub.Deployed(0);
    assert EscrowHub.Run(owner, start, earlier) == EscrowHub.Step(owner, start, open);
    assert EscrowHub.Run(owner, start, later) == EscrowHub.Step(owner, EscrowHub.Run(owner, start, earlier), close);
  }
}
