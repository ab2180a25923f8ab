/**
 Partial releases of one escrow session: concurrent requests reserve their amount with one
 conditional update, pay out on-chain, and give the amount back when the payout throws, while the
 session may be closed, cancelled or expired and the contract may be spent from at any moment. A wait
 may throw although its transaction is still pending.
 */
module EscrowRelease {
  import opened Base
  import opened Sessions

  datatype Tx = NotSent | Pending | Succeeded | Reverted

  datatype Phase =
    | Reserving
    | Recording
    | Sending
    | Waiting
    | Stamping
    | GivingBack
    | MarkingFailed(givenBack: bool)
    | Completed
    | Failed(givenBack: bool)
    | Refused
    | Unrecorded
    | Unstamped
    | Unreturned

  // A throw ends a release early: the insert of its row, the save of a paid row, or the give-back's update.

  /** A release request, from its reservation to its outcome, and its transaction. */
  datatype Release = Release(amount: nat, phase: Phase, tx: Tx)

  /** The session row, the contract's own account of the escrow, and the requests. */
  datatype State = State(
    deposit: nat, budget: nat, released: int, status: SessionStatus, hubSpent: nat, hubPays: bool,
    releases: seq<Release>)

  datatype Event =
    | Request(amount: int)
    | Advance(release: nat, succeeds: bool)
    | Leave(status: SessionStatus)
    | Mine(release: nat)
    | Drop(release: nat)
    | HubSpends(elsewhere: nat)
    | HubStops

  // ---------------------------------------------------------------------------------------------
  // Statements
  // ---------------------------------------------------------------------------------------------

  /** reserve: the conditional update, and whether it changed the row. */
  predicate CanReserve(s: State, delta: int) {
    s.status.Open? && 0 <= s.released + delta <= Min(s.deposit, s.budget)
  }

  function Reserved(s: State, delta: int): State {
    if CanReserve(s, delta) then s.(released := s.released + delta) else s
  }

  function MoveTo(s: State, r: nat, phase: Phase): State
    requires r < |s.releases|
  {
    s.(releases := s.releases[r := s.releases[r].(phase := phase)])
  }

  function WithTx(s: State, r: nat, tx: Tx): State
    requires r < |s.releases|
  {
    s.(releases := s.releases[r := s.releases[r].(tx := tx)])
  }

  /** settleBatch on the contract pays this amount: the escrow is active, undisputed and holds it. */
  predicate HubCanPay(s: State, amount: nat) {
    s.hubPays && s.hubSpent + amount <= Min(s.deposit, s.budget)
  }

  /** A wait returns only for a transaction that succeeded; every other statement may go either way. */
  predicate MayAnswer(s: State, r: nat)
    requires r < |s.releases|
  {
    s.releases[r].phase.Waiting? ==> s.releases[r].tx.Succeeded?
  }

  /** The next step of a release; `succeeds` is how the write, broadcast or wait of that step ends. */
  function Advanced(onChain: bool, s: State, r: nat, succeeds: bool): State
    requires r < |s.releases|
  {
    var amount: int := s.releases[r].amount;
    match s.releases[r].phase
    case Reserving =>
      if succeeds && CanReserve(s, amount) then MoveTo(Reserved(s, amount), r, Recording) else MoveTo(s, r, Refused)
    case Recording => MoveTo(s, r, if !succeeds then Unrecorded else if onChain then Sending else Completed)
    case Sending => if succeeds then WithTx(MoveTo(s, r, Waiting), r, Pending) else MoveTo(s, r, GivingBack)
    case Waiting =>
      if !succeeds then MoveTo(s, r, GivingBack) else if MayAnswer(s, r) then MoveTo(s, r, Stamping) else s
    case Stamping => MoveTo(s, r, if succeeds then Completed else Unstamped)
    case GivingBack =>
      // the result of this update is not looked at
      if succeeds then MoveTo(Reserved(s, -amount), r, MarkingFailed(CanReserve(s, -amount)))
      else MoveTo(s, r, Unreturned)
    case MarkingFailed(givenBack) => MoveTo(s, r, Failed(givenBack))
    case _ => s
  }

  /** One step. A session that left OPEN and a contract that stopped paying do not come back. */
  function Step(onChain: bool, s: State, e: Event): State {
    match e
    case Request(amount) =>
      if amount > 0 then s.(releases := s.releases + [Release(amount, Reserving, NotSent)]) else s
    case Advance(r, succeeds) => if r < |s.releases| then Advanced(onChain, s, r, succeeds) else s
    case Leave(status) => if status.Open? then s else s.(status := status)
    case Mine(r) =>
      if r >= |s.releases| || !s.releases[r].tx.Pending? then s
      else if HubCanPay(s, s.releases[r].amount)
      then WithTx(s, r, Succeeded).(hubSpent := s.hubSpent + s.releases[r].amount)
      else WithTx(s, r, Reverted)
    case Drop(r) => if r < |s.releases| && s.releases[r].tx.Pending? then WithTx(s, r, Reverted) else s
    case HubSpends(amount) => if HubCanPay(s, amount) then s.(hubSpent := s.hubSpent + amount) else s
    case HubStops => s.(hubPays := false)
  }

  function Start(deposit: nat, budget: nat): State {
    State(deposit, budget, 0, Open, 0, true, [])
  }

  function Run(onChain: bool, s: State, es: seq<Event>): State
    decreases |es|
  {
    if |es| == 0 then s else Step(onChain, Run(onChain, s, es[..|es| - 1]), es[|es| - 1])
  }

  lemma RunSnoc(onChain: bool, s: State, es: seq<Event>, e: Event)
    ensures Run(onChain, s, es + [e]) == Step(onChain, Run(onChain, s, es), e)
  {
    assert (es + [e])[..|es|] == es;
  }

  // ---------------------------------------------------------------------------------------------
  // Sums over releases
  // ---------------------------------------------------------------------------------------------

  type Filter = Release -> bool

  function SumWhere(releases: seq<Release>, keep: Filter): nat {
    if |releases| == 0 then 0 else SumWhere(releases[..|releases| - 1], keep) + Share(releases[|releases| - 1], keep)
  }

  function Share(r: Release, keep: Filter): nat {
    if keep(r) then r.amount else 0
  }

  lemma SumSnoc(releases: seq<Release>, r: Release, keep: Filter)
    ensures SumWhere(releases + [r], keep) == SumWhere(releases, keep) + Share(r, keep)
  {
    assert (releases + [r])[..|releases|] == releases;
  }

  lemma {:induction false} SumAfter(releases: seq<Release>, r: nat, changed: Release, keep: Filter)
    requires r < |releases|
    ensures SumWhere(releases[r := changed], keep)
         == SumWhere(releases, keep) - Share(releases[r], keep) + Share(changed, keep)
    ensures Share(releases[r], keep) <= SumWhere(releases, keep)
  {
    var m := |releases| - 1;
    if r < m {
      SumAfter(releases[..m], r, changed, keep);
      assert releases[r := changed][..m] == releases[..m][r := changed];
    } else {
      assert releases[r := changed][..m] == releases[..m];
    }
  }

  lemma {:induction false} SumSplits(releases: seq<Release>, p: Filter, q: Filter, both: Filter, only: Filter)
    requires forall r :: both(r) <==> p(r) && q(r)
    requires forall r :: only(r) <==> p(r) && !q(r)
    ensures SumWhere(releases, p) == SumWhere(releases, both) + SumWhere(releases, only)
  {
    if |releases| > 0 {
      SumSplits(releases[..|releases| - 1], p, q, both, only);
    }
  }

  lemma {:induction false} SumOfNone(releases: seq<Release>, keep: Filter)
    requires forall r | 0 <= r < |releases| :: !keep(releases[r])
    ensures SumWhere(releases, keep) == 0
  {
    if |releases| > 0 {
      SumOfNone(releases[..|releases| - 1], keep);
    }
  }

  // ---------------------------------------------------------------------------------------------
  // What releasedAmount is
  // ---------------------------------------------------------------------------------------------

  /** The release took its amount and has not given it back. */
  predicate Holds(phase: Phase) {
    match phase
    case Reserving => false
    case Refused => false
    case MarkingFailed(givenBack) => !givenBack
    case Failed(givenBack) => !givenBack
    case _ => true
  }

  predicate GaveBack(phase: Phase) {
    (phase.MarkingFailed? || phase.Failed?) && phase.givenBack
  }

  /** The give-back's update ran and changed nothing. */
  predicate GiveBackWasLost(phase: Phase) {
    (phase.MarkingFailed? || phase.Failed?) && !phase.givenBack
  }

  /** The payout threw. */
  predicate PayoutThrew(phase: Phase) {
    phase.GivingBack? || phase.MarkingFailed? || phase.Failed? || phase.Unreturned?
  }

  const HOLDS: Filter := (r: Release) => Holds(r.phase)
  const PAID: Filter := (r: Release) => r.tx.Succeeded?
  const HELD_UNPAID: Filter := (r: Release) => Holds(r.phase) && !r.tx.Succeeded?
  const HELD_PAID: Filter := (r: Release) => Holds(r.phase) && r.tx.Succeeded?
  const PAID_UNHELD: Filter := (r: Release) => r.tx.Succeeded? && !Holds(r.phase)

  /** The amounts taken and not given back. */
  function Taken(releases: seq<Release>): nat {
    SumWhere(releases, HOLDS)
  }

  /** What the contract paid for these releases. */
  function PaidOut(releases: seq<Release>): nat {
    SumWhere(releases, PAID)
  }

  /** Only a request whose broadcast went out has a transaction. */
  predicate TxFitsPhase(r: Release) {
    && (r.phase.Reserving? || r.phase.Recording? || r.phase.Sending? || r.phase.Refused? ==> r.tx.NotSent?)
    && (r.phase.Waiting? ==> !r.tx.NotSent?)
  }

  predicate Inv(s: State) {
    && 0 <= s.released <= Min(s.deposit, s.budget)
    && s.released == Taken(s.releases)
    && (s.status.Open? ==> forall r | 0 <= r < |s.releases| :: !GiveBackWasLost(s.releases[r].phase))
    && (forall r | 0 <= r < |s.releases| :: TxFitsPhase(s.releases[r]))
    && PaidOut(s.releases) <= s.hubSpent <= Min(s.deposit, s.budget)
  }

  /** A release changes without taking or giving back, and without being paid. */
  lemma MoveKeepsInv(s: State, r: nat, changed: Release)
    requires Inv(s) && r < |s.releases| && changed.amount == s.releases[r].amount && TxFitsPhase(changed)
    requires Holds(changed.phase) == Holds(s.releases[r].phase)
            && (changed.tx.Succeeded? ==> s.releases[r].tx.Succeeded?)
    requires GiveBackWasLost(changed.phase) ==> GiveBackWasLost(s.releases[r].phase)
    ensures Inv(s.(releases := s.releases[r := changed]))
  {
    SumAfter(s.releases, r, changed, HOLDS);
    SumAfter(s.releases, r, changed, PAID);
  }

  lemma ReserveKeepsInv(s: State, r: nat)
    requires Inv(s) && r < |s.releases| && s.releases[r].phase.Reserving? && CanReserve(s, s.releases[r].amount)
    ensures Inv(MoveTo(Reserved(s, s.releases[r].amount), r, Recording))
  {
    SumAfter(s.releases, r, s.releases[r].(phase := Recording), HOLDS);
    SumAfter(s.releases, r, s.releases[r].(phase := Recording), PAID);
  }

  lemma GiveBackKeepsInv(onChain: bool, s: State, r: nat)
    requires Inv(s) && r < |s.releases| && s.releases[r].phase.GivingBack?
    ensures Inv(Advanced(onChain, s, r, true))
  {
    var changed := Advanced(onChain, s, r, true).releases[r];
    SumAfter(s.releases, r, changed, HOLDS);
    SumAfter(s.releases, r, changed, PAID);
  }

  lemma AdvanceKeepsInv(onChain: bool, s: State, r: nat, succeeds: bool)
    requires Inv(s) && r < |s.releases|
    ensures Inv(Advanced(onChain, s, r, succeeds))
  {
    var t := Advanced(onChain, s, r, succeeds);
    if s.releases[r].phase.Reserving? && t.releases[r].phase.Recording? {
      ReserveKeepsInv(s, r);
    } else if s.releases[r].phase.GivingBack? && succeeds {
      GiveBackKeepsInv(onChain, s, r);
    } else if t != s {
      QuietStep(onChain, s, r, succeeds);
      MoveKeepsInv(s, r, t.releases[r]);
    }
  }

  lemma QuietStep(onChain: bool, s: State, r: nat, succeeds: bool)
    requires Inv(s) && r < |s.releases|
    requires !(s.releases[r].phase.Reserving? && succeeds && CanReserve(s, s.releases[r].amount))
    requires !(s.releases[r].phase.GivingBack? && succeeds)
    ensures var t := Advanced(onChain, s, r, succeeds); var (before, after) := (s.releases[r], t.releases[r]);
            && t == s.(releases := s.releases[r := after]) && after.amount == before.amount && TxFitsPhase(after)
            && Holds(after.phase) == Holds(before.phase) && (after.tx.Succeeded? ==> before.tx.Succeeded?)
            && (GiveBackWasLost(after.phase) ==> GiveBackWasLost(before.phase))
  {
    assert TxFitsPhase(s.releases[r]);
    assert s.releases[r := s.releases[r]] == s.releases;
  }

  lemma MiningKeepsInv(s: State, r: nat)
    requires Inv(s) && r < |s.releases| && s.releases[r].tx.Pending? && HubCanPay(s, s.releases[r].amount)
    ensures Inv(WithTx(s, r, Succeeded).(hubSpent := s.hubSpent + s.releases[r].amount))
  {
    assert TxFitsPhase(s.releases[r]);
    SumAfter(s.releases, r, s.releases[r].(tx := Succeeded), HOLDS);
    SumAfter(s.releases, r, s.releases[r].(tx := Succeeded), PAID);
  }

  lemma StepKeepsInv(onChain: bool, s: State, e: Event)
    requires Inv(s)
    ensures Inv(Step(onChain, s, e))
  {
    match e
    case Request(amount) =>
      if amount > 0 {
        SumSnoc(s.releases, Release(amount, Reserving, NotSent), HOLDS);
        SumSnoc(s.releases, Release(amount, Reserving, NotSent), PAID);
      }
    case Advance(r, succeeds) => if r < |s.releases| { AdvanceKeepsInv(onChain, s, r, succeeds); }
    case Mine(r) =>
      if r < |s.releases| && s.releases[r].tx.Pending? {
        if HubCanPay(s, s.releases[r].amount) {
          MiningKeepsInv(s, r);
        } else {
          MoveKeepsInv(s, r, s.releases[r].(tx := Reverted));
        }
      }
    case Drop(r) =>
      if r < |s.releases| && s.releases[r].tx.Pending? {
        MoveKeepsInv(s, r, s.releases[r].(tx := Reverted));
      }
    case _ =>
  }

  lemma {:induction false} RunKeepsInv(onChain: bool, deposit: nat, budget: nat, es: seq<Event>)
    ensures var s := Run(onChain, Start(deposit, budget), es); Inv(s) && s.deposit == deposit && s.budget == budget
    decreases |es|
  {
    if |es| > 0 {
      RunKeepsInv(onChain, deposit, budget, es[..|es| - 1]);
      StepKeepsInv(onChain, Run(onChain, Start(deposit, budget), es[..|es| - 1]), es[|es| - 1]);
    }
  }

  /**
   Under any interleaving releasedAmount stays within [0, min(deposit, budget)]; it is the sum of the
   amounts taken and not given back, and while the session is open the amount of a payout that threw stays
   taken only if the give-back's update is still ahead or threw as well.
   */
  lemma ReleasedIsWhatIsTaken(onChain: bool, deposit: nat, budget: nat, es: seq<Event>)
    ensures var s := Run(onChain, Start(deposit, budget), es);
            && 0 <= s.released <= Min(deposit, budget)
            && s.released == Taken(s.releases)
            && (s.status.Open? ==> forall r | 0 <= r < |s.releases| ::
                  PayoutThrew(s.releases[r].phase) && Holds(s.releases[r].phase)
                  ==> s.releases[r].phase.GivingBack? || s.releases[r].phase.Unreturned?)
  {
    RunKeepsInv(onChain, deposit, budget, es);
  }

  /** The give-back of a thrown payout lowers releasedAmount exactly when its update runs on an open session. */
  lemma GiveBackTakesEffectIff(onChain: bool, deposit: nat, budget: nat, es: seq<Event>, r: nat, succeeds: bool)
    requires var s := Run(onChain, Start(deposit, budget), es); r < |s.releases| && s.releases[r].phase.GivingBack?
    ensures var s := Run(onChain, Start(deposit, budget), es);
            var t := Step(onChain, s, Advance(r, succeeds));
            && t.releases[r].phase == (if succeeds then MarkingFailed(s.status.Open?) else Unreturned)
            && t.released == s.released - if succeeds && s.status.Open? then s.releases[r].amount else 0
  {
    RunKeepsInv(onChain, deposit, budget, es);
    var s := Run(onChain, Start(deposit, budget), es);
    SumAfter(s.releases, r, s.releases[r], HOLDS);
  }

  // ---------------------------------------------------------------------------------------------
  // Over whole runs: which amounts come back
  // ---------------------------------------------------------------------------------------------

  /** At this point of the run the release is about to give its amount back. */
  predicate GivesBackAt(onChain: bool, start: State, es: seq<Event>, r: nat, k: nat) {
    && k <= |es|
    && var s := Run(onChain, start, es[..k]); r < |s.releases| && s.releases[r].phase.GivingBack?
  }

  /** The payout of this release threw at some point. */
  ghost predicate ReachedGiveBack(onChain: bool, start: State, es: seq<Event>, r: nat) {
    exists k: nat :: GivesBackAt(onChain, start, es, r, k)
  }

  /** At this point the give-back's update runs without throwing while the session is open. */
  predicate UpdateRanAt(onChain: bool, start: State, es: seq<Event>, r: nat, k: nat) {
    && k < |es| && es[k] == Advance(r, true)
    && GivesBackAt(onChain, start, es, r, k) && Run(onChain, start, es[..k]).status.Open?
  }

  ghost predicate UpdateRanWhileOpen(onChain: bool, start: State, es: seq<Event>, r: nat) {
    exists k: nat :: UpdateRanAt(onChain, start, es, r, k)
  }

  predicate ThrewPayout(s: State, r: nat) {
    r < |s.releases| && PayoutThrew(s.releases[r].phase)
  }

  predicate HasGivenBack(s: State, r: nat) {
    r < |s.releases| && GaveBack(s.releases[r].phase)
  }

  predicate GivesBack(s: State, r: nat) {
    r < |s.releases| && s.releases[r].phase.GivingBack?
  }

  lemma OwnStepOfPayout(onChain: bool, s: State, r: nat, succeeds: bool)
    requires Inv(s) && r < |s.releases|
    ensures var (before, after) := (s.releases[r].phase, Advanced(onChain, s, r, succeeds).releases[r].phase);
            && (PayoutThrew(after) <==> PayoutThrew(before) || after.GivingBack?)
            && (GaveBack(after) <==> GaveBack(before) || (before.GivingBack? && succeeds && s.status.Open?))
  {
    if s.releases[r].phase.GivingBack? && succeeds {
      SumAfter(s.releases, r, s.releases[r], HOLDS);
    }
  }

  lemma StepOfPayout(onChain: bool, s: State, e: Event, r: nat)
    requires Inv(s)
    ensures var t := Step(onChain, s, e);
            && (ThrewPayout(t, r) <==> ThrewPayout(s, r) || GivesBack(t, r))
            && (HasGivenBack(t, r) <==>
                  HasGivenBack(s, r) || (GivesBack(s, r) && e == Advance(r, true) && s.status.Open?))
  {
    if r < |s.releases| {
      if e.Advance? && e.release == r {
        OwnStepOfPayout(onChain, s, r, e.succeeds);
      } else {
        PhaseByItsOwnStep(onChain, s, e, r);
      }
    }
  }

  /** The phase tells whether the payout threw. */
  lemma {:induction false} ThrewIff(onChain: bool, deposit: nat, budget: nat, es: seq<Event>, r: nat)
    ensures ReachedGiveBack(onChain, Start(deposit, budget), es, r)
            <==> ThrewPayout(Run(onChain, Start(deposit, budget), es), r)
    decreases |es|
  {
    var start := Start(deposit, budget);
    assert es[..|es|] == es;
    if |es| > 0 {
      var front := es[..|es| - 1];
      ThrewIff(onChain, deposit, budget, front, r);
      RunKeepsInv(onChain, deposit, budget, front);
      StepOfPayout(onChain, Run(onChain, start, front), es[|es| - 1], r);
      forall k: nat | k < |es|
        ensures GivesBackAt(onChain, start, es, r, k) == GivesBackAt(onChain, start, front, r, k)
      {
        assert front[..k] == es[..k];
      }
      assert GivesBackAt(onChain, start, es, r, |es|) == GivesBack(Run(onChain, start, es), r);
    } else {
      assert forall k: nat | k <= |es| :: es[..k] == [];
    }
  }

  lemma UpdateRanOfPrefix(onChain: bool, start: State, es: seq<Event>, r: nat)
    requires |es| > 0
    ensures var (n, before) := (|es| - 1, Run(onChain, start, es[..|es| - 1]));
            UpdateRanWhileOpen(onChain, start, es, r)
            <==> UpdateRanWhileOpen(onChain, start, es[..n], r)
                 || (GivesBack(before, r) && es[n] == Advance(r, true) && before.status.Open?)
  {
    hide Run;
    var n := |es| - 1;
    var front := es[..n];
    forall k: nat | k < n
      ensures UpdateRanAt(onChain, start, es, r, k) == UpdateRanAt(onChain, start, front, r, k)
    {
      assert front[..k] == es[..k];
    }
    if UpdateRanWhileOpen(onChain, start, es, r) {
      var k: nat :| UpdateRanAt(onChain, start, es, r, k);
      assert k < n ==> UpdateRanAt(onChain, start, front, r, k);
    }
    if UpdateRanWhileOpen(onChain, start, front, r) {
      var k: nat :| UpdateRanAt(onChain, start, front, r, k);
      assert UpdateRanAt(onChain, start, es, r, k);
    }
    assert UpdateRanAt(onChain, start, es, r, n) <==>
        GivesBack(Run(onChain, start, front), r) && es[n] == Advance(r, true)
        && Run(onChain, start, front).status.Open?;
  }

  lemma {:induction false} HasGivenBackIff(onChain: bool, deposit: nat, budget: nat, es: seq<Event>, r: nat)
    ensures UpdateRanWhileOpen(onChain, Start(deposit, budget), es, r)
            <==> HasGivenBack(Run(onChain, Start(deposit, budget), es), r)
    decreases |es|
  {
    if |es| > 0 {
      var front := es[..|es| - 1];
      HasGivenBackIff(onChain, deposit, budget, front, r);
      UpdateRanOfPrefix(onChain, Start(deposit, budget), es, r);
      RunKeepsInv(onChain, deposit, budget, front);
      StepOfPayout(onChain, Run(onChain, Start(deposit, budget), front), es[|es| - 1], r);
    }
  }

  /**
   A release whose payout threw and that has ended gave its amount back exactly when the update of its
   give-back ran without throwing while the session was open; otherwise the amount stays taken.
   */
  lemma GivenBackIff(onChain: bool, deposit: nat, budget: nat, es: seq<Event>, r: nat)
    requires ReachedGiveBack(onChain, Start(deposit, budget), es, r)
    requires var s := Run(onChain, Start(deposit, budget), es); r < |s.releases| && !s.releases[r].phase.GivingBack?
    ensures var phase := Run(onChain, Start(deposit, budget), es).releases[r].phase;
            && (GaveBack(phase) <==> UpdateRanWhileOpen(onChain, Start(deposit, budget), es, r))
            && (Holds(phase) <==> !GaveBack(phase))
  {
    ThrewIff(onChain, deposit, budget, es, r);
    HasGivenBackIff(onChain, deposit, budget, es, r);
  }

  /** The session is open throughout, and the amount is kept all the same: payout and give-back both threw. */
  lemma GiveBackCanThrow(deposit: nat, amount: nat) returns (es: seq<Event>)
    requires 0 < amount <= deposit
    ensures var s := Run(true, Start(deposit, deposit), es);
            && s.status.Open? && s.released == amount && s.releases == [Release(amount, Unreturned, NotSent)]
            && PaidOut(s.releases) == 0
  {
    var s := Start(deposit, deposit);
    es := Extend(s, [], Request(amount));
    es := Extend(s, es, Advance(0, true));
    es := Extend(s, es, Advance(0, true));
    es := Extend(s, es, Advance(0, false));
    es := Extend(s, es, Advance(0, false));
    PaidOfOne(Release(amount, Unreturned, NotSent));
  }

  /** A session closed during the payout keeps the amount of a payee whose transaction was never sent. */
  lemma GiveBackCanBeLost(deposit: nat, amount: nat) returns (es: seq<Event>)
    requires 0 < amount <= deposit
    ensures var s := Run(true, Start(deposit, deposit), es);
            && s.released == amount && s.releases == [Release(amount, Failed(false), NotSent)] && s.status.Closed?
            && PaidOut(s.releases) == 0
  {
    var s := Start(deposit, deposit);
    es := Extend(s, [], Request(amount));
    es := Extend(s, es, Advance(0, true));
    es := Extend(s, es, Advance(0, true));
    es := Extend(s, es, Advance(0, false));
    es := Extend(s, es, Leave(Closed));
    es := Extend(s, es, Advance(0, true));
    es := Extend(s, es, Advance(0, true));
    PaidOfOne(Release(amount, Failed(false), NotSent));
  }

  lemma PaidOfOne(r: Release)
    ensures PaidOut([r]) == if r.tx.Succeeded? then r.amount else 0
  {
    SumSnoc([], r, PAID);
    assert [] + [r] == [r];
  }

  lemma PaidOfTwo(r: Release, q: Release)
    ensures PaidOut([r, q]) == PaidOut([r]) + PaidOut([q])
  {
    SumSnoc([r], q, PAID);
    assert [r] + [q] == [r, q];
    PaidOfOne(q);
  }

  lemma Extend(s: State, es: seq<Event>, e: Event) returns (longer: seq<Event>)
    ensures longer == es + [e] && Run(true, s, longer) == Step(true, Run(true, s, es), e)
  {
    longer := es + [e];
    RunSnoc(true, s, es, e);
  }

  // ---------------------------------------------------------------------------------------------
  // releasedAmount against what the contract paid
  // ---------------------------------------------------------------------------------------------

  /**
   The books balance in every run: releasedAmount and what was paid although given back make up what the
   contract paid and what is held unpaid.
   */
  lemma ReleasedAgainstPaid(onChain: bool, deposit: nat, budget: nat, es: seq<Event>)
    ensures var s := Run(onChain, Start(deposit, budget), es);
            && s.released + SumWhere(s.releases, PAID_UNHELD) == PaidOut(s.releases) + SumWhere(s.releases, HELD_UNPAID)
            && PaidOut(s.releases) <= s.hubSpent <= Min(deposit, budget)
  {
    RunKeepsInv(onChain, deposit, budget, es);
    var releases := Run(onChain, Start(deposit, budget), es).releases;
    SumSplits(releases, HOLDS, PAID, HELD_PAID, HELD_UNPAID);
    SumSplits(releases, PAID, HOLDS, HELD_PAID, PAID_UNHELD);
  }

  /** The wait of this release threw at some point of the run. */
  ghost predicate WaitThrew(onChain: bool, start: State, es: seq<Event>, r: nat) {
    exists k :: 0 <= k < |es| && es[k] == Advance(r, false)
      && r < |Run(onChain, start, es[..k]).releases| && Run(onChain, start, es[..k]).releases[r].phase.Waiting?
  }

  /** The release threw after its broadcast. */
  predicate ThrewAfterBroadcast(s: State, r: nat) {
    r < |s.releases| && !s.releases[r].tx.NotSent? && PayoutThrew(s.releases[r].phase)
  }

  lemma OnlyAThrownWait(onChain: bool, s: State, e: Event, r: nat)
    requires Inv(s) && !ThrewAfterBroadcast(s, r) && ThrewAfterBroadcast(Step(onChain, s, e), r)
    ensures e == Advance(r, false) && r < |s.releases| && s.releases[r].phase.Waiting?
  {
    if r < |s.releases| {
      if e.Advance? && e.release == r {
        assert TxFitsPhase(s.releases[r]);
      } else {
        PhaseByItsOwnStep(onChain, s, e, r);
      }
    }
  }

  /** A release's phase moves by its own steps only, and nothing but its broadcast gives it a transaction. */
  lemma PhaseByItsOwnStep(onChain: bool, s: State, e: Event, r: nat)
    requires r < |s.releases| && !(e.Advance? && e.release == r)
    ensures var t := Step(onChain, s, e);
            && r < |t.releases| && t.releases[r].phase == s.releases[r].phase
            && (t.releases[r].tx.NotSent? <==> s.releases[r].tx.NotSent?)
  {
  }

  lemma {:induction false} ThrownAfterBroadcast(onChain: bool, deposit: nat, budget: nat, es: seq<Event>, r: nat)
    requires ThrewAfterBroadcast(Run(onChain, Start(deposit, budget), es), r)
    ensures WaitThrew(onChain, Start(deposit, budget), es, r)
    decreases |es|
  {
    var start, front, last := Start(deposit, budget), es[..|es| - 1], es[|es| - 1];
    if ThrewAfterBroadcast(Run(onChain, start, front), r) {
      ThrownAfterBroadcast(onChain, deposit, budget, front, r);
      var k :| 0 <= k < |front| && front[k] == Advance(r, false)
        && r < |Run(onChain, start, front[..k]).releases| && Run(onChain, start, front[..k]).releases[r].phase.Waiting?;
      assert front[..k] == es[..k];
    } else {
      RunKeepsInv(onChain, deposit, budget, front);
      OnlyAThrownWait(onChain, Run(onChain, start, front), last, r);
      assert es[..|es| - 1] == front;
    }
  }

  /**
   releasedAmount covers what the contract paid in every run in which no transaction succeeds whose wait
   threw.
   */
  lemma ReleasedCoversPaid(onChain: bool, deposit: nat, budget: nat, es: seq<Event>)
    requires var s := Run(onChain, Start(deposit, budget), es);
             forall r | 0 <= r < |s.releases| && WaitThrew(onChain, Start(deposit, budget), es, r) ::
               !s.releases[r].tx.Succeeded?
    ensures var s := Run(onChain, Start(deposit, budget), es); PaidOut(s.releases) <= s.released
  {
    var s := Run(onChain, Start(deposit, budget), es);
    RunKeepsInv(onChain, deposit, budget, es);
    ReleasedAgainstPaid(onChain, deposit, budget, es);
    forall r | 0 <= r < |s.releases|
      ensures !PAID_UNHELD(s.releases[r])
    {
      assert TxFitsPhase(s.releases[r]);
      if s.releases[r].tx.Succeeded? && !Holds(s.releases[r].phase) {
        ThrownAfterBroadcast(onChain, deposit, budget, es, r);
      }
    }
    SumOfNone(s.releases, PAID_UNHELD);
  }

  /** A transaction that has succeeded, or is pending while the contract can pay it. */
  predicate PayoutIsOut(s: State, r: nat)
    requires r < |s.releases|
  {
    s.releases[r].tx.Succeeded? || (s.releases[r].tx.Pending? && HubCanPay(s, s.releases[r].amount))
  }

  lemma StepKeepsUnpaid(onChain: bool, s: State, e: Event, r: nat)
    requires r < |s.releases| && GaveBack(s.releases[r].phase) && !PayoutIsOut(s, r)
    ensures var t := Step(onChain, s, e); r < |t.releases| && GaveBack(t.releases[r].phase) && !PayoutIsOut(t, r)
  {
    if !(e.Advance? && e.release == r) {
      PhaseByItsOwnStep(onChain, s, e, r);
    }
  }

  lemma {:induction false} StaysUnpaid(onChain: bool, s: State, es: seq<Event>, r: nat)
    requires r < |s.releases| && GaveBack(s.releases[r].phase) && !PayoutIsOut(s, r)
    ensures var t := Run(onChain, s, es); r < |t.releases| && GaveBack(t.releases[r].phase) && !PayoutIsOut(t, r)
    decreases |es|
  {
    if |es| > 0 {
      StaysUnpaid(onChain, s, es[..|es| - 1], r);
      StepKeepsUnpaid(onChain, Run(onChain, s, es[..|es| - 1]), es[|es| - 1], r);
    }
  }

  /**
   An amount given back is paid after all, now or in some continuation, exactly when its transaction has
   succeeded or is pending while the contract can still pay it.
   */
  lemma GivenBackIsPaidIff(onChain: bool, s: State, r: nat)
    requires r < |s.releases| && GaveBack(s.releases[r].phase)
    ensures (exists es :: r < |Run(onChain, s, es).releases| && Run(onChain, s, es).releases[r].tx.Succeeded?)
            <==> PayoutIsOut(s, r)
  {
    if PayoutIsOut(s, r) {
      if s.releases[r].tx.Succeeded? {
        assert Run(onChain, s, []) == s;
      } else {
        assert [Mine(r)][..0] == [];
        assert Run(onChain, s, [Mine(r)]) == Step(onChain, s, Mine(r));
      }
    } else {
      forall es
        ensures !(r < |Run(onChain, s, es).releases| && Run(onChain, s, es).releases[r].tx.Succeeded?)
      {
        StaysUnpaid(onChain, s, es, r);
      }
    }
  }

  /** A timed-out payout is given back, released again, and both are paid. */
  lemma GivenBackCanBePaidTwice(amount: nat) returns (es: seq<Event>)
    requires amount > 0
    ensures var s := Run(true, Start(2 * amount, 2 * amount), es);
            s.released == amount && PaidOut(s.releases) == 2 * amount && s.status.Open?
            && s.releases == [Release(amount, Failed(true), Succeeded), Release(amount, Completed, Succeeded)]
  {
    var s := Start(2 * amount, 2 * amount);
    es := SecondRelease(amount);
    es := Extend(s, es, Mine(0));
    var first, second := Release(amount, Failed(true), Succeeded), Release(amount, Completed, Succeeded);
    MinedFirst(amount);
    PaidOfOne(first);
    PaidOfTwo(first, second);
  }

  lemma MinedFirst(amount: nat)
    ensures var s := Start(2 * amount, 2 * amount).(released := amount, hubSpent := amount,
                       releases := [Release(amount, Failed(true), Pending), Release(amount, Completed, Succeeded)]);
            Step(true, s, Mine(0)) == s.(hubSpent := 2 * amount,
              releases := [Release(amount, Failed(true), Succeeded), Release(amount, Completed, Succeeded)])
  {
  }

  lemma SecondRelease(amount: nat) returns (es: seq<Event>)
    requires amount > 0
    ensures Run(true, Start(2 * amount, 2 * amount), es)
         == Start(2 * amount, 2 * amount).(released := amount, hubSpent := amount,
              releases := [Release(amount, Failed(true), Pending), Release(amount, Completed, Succeeded)])
  {
    var s := Start(2 * amount, 2 * amount);
    es := SecondBroadcast(amount);
    es := Extend(s, es, Mine(1));
    es := Extend(s, es, Advance(1, true));
    es := Extend(s, es, Advance(1, true));
  }

  lemma SecondBroadcast(amount: nat) returns (es: seq<Event>)
    requires amount > 0
    ensures Run(true, Start(2 * amount, 2 * amount), es)
         == Start(2 * amount, 2 * amount).(released := amount,
              releases := [Release(amount, Failed(true), Pending), Release(amount, Waiting, Pending)])
  {
    var s := Start(2 * amount, 2 * amount);
    es := TimedOutRelease(amount);
    es := Extend(s, es, Request(amount));
    es := Extend(s, es, Advance(1, true));
    es := Extend(s, es, Advance(1, true));
    es := Extend(s, es, Advance(1, true));
  }

  lemma TimedOutRelease(amount: nat) returns (es: seq<Event>)
    requires amount > 0
    ensures Run(true, Start(2 * amount, 2 * amount), es)
         == Start(2 * amount, 2 * amount).(releases := [Release(amount, Failed(true), Pending)])
  {
    var s := Start(2 * amount, 2 * amount);
    es := Extend(s, [], Request(amount));
    es := Extend(s, es, Advance(0, true));
    es := Extend(s, es, Advance(0, true));
    es := Extend(s, es, Advance(0, true));
    es := Extend(s, es, Advance(0, false));
    es := Extend(s, es, Advance(0, true));
    es := Extend(s, es, Advance(0, true));
  }
}
