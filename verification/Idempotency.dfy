/**
 The idempotency interceptor as a protocol: any number of requests, on any number of instances, act
 on one table with a unique index on (key, scope). Every database statement is one atomic step, and
 the steps of different requests interleave freely.
 */
module Idempotency {
  import opened Base

  const PURGE_INTERVAL_MS: nat := 3_600_000

  /** What the unique index covers. */
  datatype Slot = Slot(key: string, scope: string)

  /** A stored record; it is COMPLETED when it holds a response. Its id is that of the request that made it. */
  datatype Record = Record(id: nat, requestHash: string, response: Option<string>, expiresAt: nat)

  /** The table, indexed by its unique index. */
  type Table = map<Slot, Record>

  datatype Outcome =
    | Replayed(body: string)
    | BodyMismatch
    | InProgressConflict
    | Completed(body: string)
    | HandlerFailed
    | CompletionFailed
    | DatabaseFailed

  /** Where a request is: the statement it issues next, or its answer. */
  datatype Phase =
    | Purging
    | Finding
    | DroppingExpired(id: nat)
    | Inserting
    | Running
    | Completing(body: string)
    | Releasing(succeeded: bool)
    | Answered(outcome: Outcome)

  datatype Request = Request(slot: Slot, hash: string, now: nat, phase: Phase)

  datatype Insertion = Insertion(id: nat, at: nat)

  datatype State = State(
    clock: nat,
    lastPurgeAt: map<nat, nat>,
    table: Table,
    requests: map<nat, Request>,
    insertions: seq<Insertion>)

  datatype Action =
    | Statement
    | HandlerReturns(body: string)
    | HandlerThrows
    | StatementFails

  datatype Event =
    | Tick(elapsed: nat)
    | Arrive(request: nat, inst: nat, slot: Slot, hash: string)
    | Act(request: nat, action: Action)

  // ---------------------------------------------------------------------------------------------
  // Statements
  // ---------------------------------------------------------------------------------------------

  /** delete({ expiresAt: LessThan(now) }). */
  function Purged(table: Table, now: nat): Table {
    map slot | slot in table && table[slot].expiresAt >= now :: table[slot]
  }

  /** delete({ id }). */
  function Deleted(table: Table, id: nat): Table {
    map slot | slot in table && table[slot].id != id :: table[slot]
  }

  /** save(record): update the row of that id or insert it; None when the unique index forbids it. */
  function Saved(table: Table, slot: Slot, record: Record): Option<Table> {
    if slot in table && table[slot].id != record.id then None else Some(table[slot := record])
  }

  /** What findOne({ key, scope }) leads to. */
  function AfterFind(table: Table, request: Request): Phase {
    if request.slot !in table then Inserting
    else
      var existing := table[request.slot];
      if existing.expiresAt <= request.now then DroppingExpired(existing.id)
      else if existing.requestHash != request.hash then Answered(BodyMismatch)
      else match existing.response
           case None => Answered(InProgressConflict)
           case Some(body) => Answered(Replayed(body))
  }

  function LastPurge(lastPurgeAt: map<nat, nat>, inst: nat): nat {
    if inst in lastPurgeAt then lastPurgeAt[inst] else 0
  }

  predicate PurgeIsDue(lastPurgeAt: map<nat, nat>, inst: nat, now: nat) {
    now - LastPurge(lastPurgeAt, inst) >= PURGE_INTERVAL_MS
  }

  function NewRecord(ttl: nat, id: nat, request: Request, response: Option<string>): Record {
    Record(id, request.hash, response, request.now + ttl)
  }

  // ---------------------------------------------------------------------------------------------
  // Steps and runs
  // ---------------------------------------------------------------------------------------------

  function MoveTo(s: State, r: nat, phase: Phase): State
    requires r in s.requests
  {
    s.(requests := s.requests[r := s.requests[r].(phase := phase)])
  }

  function Arrived(s: State, r: nat, inst: nat, slot: Slot, hash: string): State {
    var due := PurgeIsDue(s.lastPurgeAt, inst, s.clock);
    s.(requests := s.requests[r := Request(slot, hash, s.clock, if due then Purging else Finding)],
       lastPurgeAt := if due then s.lastPurgeAt[inst := s.clock] else s.lastPurgeAt)
  }

  function Inserted(ttl: nat, s: State, r: nat): State
    requires r in s.requests
  {
    var request := s.requests[r];
    if request.slot in s.table then MoveTo(s, r, Answered(InProgressConflict))
    else
      MoveTo(s, r, Running).(table := s.table[request.slot := NewRecord(ttl, r, request, None)],
                             insertions := s.insertions + [Insertion(r, s.clock)])
  }

  function CompletionSaved(ttl: nat, s: State, r: nat, body: string): State
    requires r in s.requests
  {
    var request := s.requests[r];
    match Saved(s.table, request.slot, NewRecord(ttl, r, request, Some(body)))
    case None => MoveTo(s, r, Releasing(true))
    case Some(table) => MoveTo(s, r, Answered(Completed(body))).(table := table)
  }

  function Released(succeeded: bool): Phase {
    Answered(if succeeded then CompletionFailed else HandlerFailed)
  }

  /** The request's next statement succeeds. */
  function StatementDone(ttl: nat, s: State, r: nat): State
    requires r in s.requests
  {
    match s.requests[r].phase
    case Purging => MoveTo(s, r, Finding).(table := Purged(s.table, s.requests[r].now))
    case Finding => MoveTo(s, r, AfterFind(s.table, s.requests[r]))
    case DroppingExpired(id) => MoveTo(s, r, Inserting).(table := Deleted(s.table, id))
    case Inserting => Inserted(ttl, s, r)
    case Completing(body) => CompletionSaved(ttl, s, r, body)
    case Releasing(succeeded) => MoveTo(s, r, Released(succeeded)).(table := Deleted(s.table, r))
    case _ => s
  }

  /** The request's next statement throws and changes nothing. */
  function StatementFailed(s: State, r: nat): State
    requires r in s.requests
  {
    match s.requests[r].phase
    case Running => s
    case Answered(_) => s
    case Completing(_) => MoveTo(s, r, Releasing(true))
    case Releasing(succeeded) => MoveTo(s, r, Released(succeeded))
    case _ => MoveTo(s, r, Answered(DatabaseFailed))
  }

  /** One step; an event out of turn changes nothing. */
  function Step(ttl: nat, s: State, e: Event): State {
    match e
    case Tick(elapsed) => s.(clock := s.clock + elapsed)
    case Arrive(r, inst, slot, hash) => if r in s.requests then s else Arrived(s, r, inst, slot, hash)
    case Act(r, action) =>
      if r !in s.requests then s
      else
        match action
        case Statement => StatementDone(ttl, s, r)
        case StatementFails => StatementFailed(s, r)
        case HandlerReturns(body) => if s.requests[r].phase.Running? then MoveTo(s, r, Completing(body)) else s
        case HandlerThrows => if s.requests[r].phase.Running? then MoveTo(s, r, Releasing(false)) else s
  }

  const EMPTY := State(0, map[], map[], map[], [])

  /** The state after the events, from an empty table. */
  function Run(ttl: nat, es: seq<Event>): State
    decreases |es|
  {
    if |es| == 0 then EMPTY else Step(ttl, Run(ttl, es[..|es| - 1]), es[|es| - 1])
  }

  lemma RunSnoc(ttl: nat, es: seq<Event>, e: Event)
    ensures Run(ttl, es + [e]) == Step(ttl, Run(ttl, es), e)
  {
    assert (es + [e])[..|es|] == es;
  }

  // ---------------------------------------------------------------------------------------------
  // The invariant
  // ---------------------------------------------------------------------------------------------

  /** The request has inserted its record and not yet given its key back. */
  predicate HoldsKey(phase: Phase) {
    phase.Running? || phase.Completing? || phase.Releasing? || (phase.Answered? && phase.outcome.Completed?)
  }

  /** The request gave its key back: its handler failed, or the write of its response did. */
  predicate GaveUp(phase: Phase) {
    phase.Answered? && (phase.outcome.HandlerFailed? || phase.outcome.CompletionFailed?)
  }

  /** A request that holds its key has its record in the table, unless the record has expired. */
  ghost predicate KeyIsGuarded(ttl: nat, s: State, r: nat)
    requires r in s.requests
  {
    var request := s.requests[r];
    HoldsKey(request.phase) ==>
      (request.slot in s.table && s.table[request.slot].id == r) || s.clock >= request.now + ttl
  }

  /** Every record belongs to a request that inserted it; a stored response is that request's. */
  ghost predicate RecordIsOwned(ttl: nat, s: State, slot: Slot)
    requires slot in s.table
  {
    var record := s.table[slot];
    && record.id in s.requests
    && var owner := s.requests[record.id];
      && owner.slot == slot && owner.hash == record.requestHash && record.expiresAt == owner.now + ttl
      && (HoldsKey(owner.phase) || GaveUp(owner.phase))
      && (record.response.Some? ==> owner.phase == Answered(Completed(record.response.value)))
  }

  ghost predicate RequestIsSound(ttl: nat, s: State, r: nat)
    requires r in s.requests
  {
    var request := s.requests[r];
    && request.now <= s.clock
    && (request.phase.DroppingExpired? ==>
          request.phase.id in s.requests && s.requests[request.phase.id].now + ttl <= request.now)
  }

  /** The insertions are of requests of this state, made at times not after the clock. */
  ghost predicate InsertionsAreKnown(s: State) {
    forall i | 0 <= i < |s.insertions| ::
      var a := s.insertions[i];
      a.id in s.requests && a.at <= s.clock && (HoldsKey(s.requests[a.id].phase) || GaveUp(s.requests[a.id].phase))
  }

  /** Of two insertions on one key, the later came after the earlier's expiry, or the earlier gave up. */
  ghost predicate InsertionsAreApart(ttl: nat, s: State)
    requires InsertionsAreKnown(s)
  {
    forall i, j | 0 <= i < j < |s.insertions| ::
      var a, b := s.insertions[i], s.insertions[j];
      s.requests[a.id].slot == s.requests[b.id].slot ==>
        b.at >= s.requests[a.id].now + ttl || GaveUp(s.requests[a.id].phase)
  }

  ghost predicate Inv(ttl: nat, s: State) {
    && (forall r | r in s.requests :: KeyIsGuarded(ttl, s, r))
    && (forall slot | slot in s.table :: RecordIsOwned(ttl, s, slot))
    && (forall r | r in s.requests :: RequestIsSound(ttl, s, r))
    && InsertionsAreKnown(s)
    && InsertionsAreApart(ttl, s)
  }

  lemma TickKeepsInv(ttl: nat, s: State, elapsed: nat)
    requires Inv(ttl, s)
    ensures Inv(ttl, s.(clock := s.clock + elapsed))
  {
  }

  lemma ArrivalKeepsInv(ttl: nat, s: State, r: nat, inst: nat, slot: Slot, hash: string)
    requires Inv(ttl, s) && r !in s.requests
    ensures Inv(ttl, Arrived(s, r, inst, slot, hash))
  {
  }

  /** `after` is the table without some records that have expired. */
  ghost predicate OnlyExpiredGone(clock: nat, before: Table, after: Table) {
    && (forall slot | slot in after :: slot in before && after[slot] == before[slot])
    && (forall slot | slot in before && slot !in after :: before[slot].expiresAt <= clock)
  }

  /** A request that holds no key moves on without taking one; at most expired records go. */
  lemma BystanderKeepsInv(ttl: nat, s: State, r: nat, phase: Phase, table: Table)
    requires Inv(ttl, s) && r in s.requests && OnlyExpiredGone(s.clock, s.table, table)
    requires !HoldsKey(s.requests[r].phase) && !GaveUp(s.requests[r].phase) && !HoldsKey(phase)
    requires phase.DroppingExpired? ==>
               phase.id in s.requests && s.requests[phase.id].now + ttl <= s.requests[r].now
    ensures Inv(ttl, MoveTo(s, r, phase).(table := table))
  {
  }

  /** A request that holds its key keeps it. */
  lemma HolderKeepsInv(ttl: nat, s: State, r: nat, phase: Phase)
    requires Inv(ttl, s) && r in s.requests && HoldsKey(phase)
    requires HoldsKey(s.requests[r].phase) && !s.requests[r].phase.Answered?
    ensures Inv(ttl, MoveTo(s, r, phase))
  {
  }

  lemma PurgeKeepsInv(ttl: nat, s: State, r: nat)
    requires Inv(ttl, s) && r in s.requests && s.requests[r].phase.Purging?
    ensures Inv(ttl, StatementDone(ttl, s, r))
  {
    BystanderKeepsInv(ttl, s, r, Finding, Purged(s.table, s.requests[r].now));
  }

  lemma FindKeepsInv(ttl: nat, s: State, r: nat)
    requires Inv(ttl, s) && r in s.requests && s.requests[r].phase.Finding?
    ensures Inv(ttl, StatementDone(ttl, s, r))
  {
    var request := s.requests[r];
    assert request.slot in s.table ==> RecordIsOwned(ttl, s, request.slot);
    BystanderKeepsInv(ttl, s, r, AfterFind(s.table, request), s.table);
  }

  lemma DropKeepsInv(ttl: nat, s: State, r: nat)
    requires Inv(ttl, s) && r in s.requests && s.requests[r].phase.DroppingExpired?
    ensures Inv(ttl, StatementDone(ttl, s, r))
  {
    var table := Deleted(s.table, s.requests[r].phase.id);
    assert RequestIsSound(ttl, s, r);
    forall slot | slot in s.table && slot !in table
      ensures s.table[slot].expiresAt <= s.clock
    {
      assert RecordIsOwned(ttl, s, slot);
    }
    BystanderKeepsInv(ttl, s, r, Inserting, table);
  }

  /** The key is given back: the record goes, if its deletion does not fail too. */
  lemma ReleaseKeepsInv(ttl: nat, s: State, r: nat)
    requires Inv(ttl, s) && r in s.requests && s.requests[r].phase.Releasing?
    ensures Inv(ttl, StatementDone(ttl, s, r))
  {
  }

  lemma FailedReleaseKeepsInv(ttl: nat, s: State, r: nat)
    requires Inv(ttl, s) && r in s.requests && s.requests[r].phase.Releasing?
    ensures Inv(ttl, MoveTo(s, r, Released(s.requests[r].phase.succeeded)))
  {
  }

  lemma InsertionKeepsInv(ttl: nat, s: State, r: nat)
    requires Inv(ttl, s) && r in s.requests && s.requests[r].phase.Inserting?
    ensures Inv(ttl, Inserted(ttl, s, r))
  {
    var slot := s.requests[r].slot;
    if slot in s.table {
      BystanderKeepsInv(ttl, s, r, Answered(InProgressConflict), s.table);
    } else {
      RecordsAfterInsertion(ttl, s, r);
      InsertionsAfterInsertion(ttl, s, r);
    }
  }

  lemma RecordsAfterInsertion(ttl: nat, s: State, r: nat)
    requires Inv(ttl, s) && r in s.requests && s.requests[r].phase.Inserting? && s.requests[r].slot !in s.table
    ensures var t := Inserted(ttl, s, r);
            && (forall q | q in t.requests :: KeyIsGuarded(ttl, t, q) && RequestIsSound(ttl, t, q))
            && (forall slot | slot in t.table :: RecordIsOwned(ttl, t, slot))
  {
    assert forall q | q in s.requests :: KeyIsGuarded(ttl, s, q) && RequestIsSound(ttl, s, q);
    assert forall slot | slot in s.table :: RecordIsOwned(ttl, s, slot);
  }

  /** The index lets a record in only when every holder of the key has expired. */
  lemma InsertionsAfterInsertion(ttl: nat, s: State, r: nat)
    requires Inv(ttl, s) && r in s.requests && s.requests[r].phase.Inserting? && s.requests[r].slot !in s.table
    ensures var t := Inserted(ttl, s, r); InsertionsAreKnown(t) && InsertionsAreApart(ttl, t)
  {
    forall i | 0 <= i < |s.insertions|
      ensures var a := s.requests[s.insertions[i].id];
              a.slot == s.requests[r].slot ==> s.clock >= a.now + ttl || GaveUp(a.phase)
    {
      assert KeyIsGuarded(ttl, s, s.insertions[i].id);
    }
  }

  lemma CompletionKeepsInv(ttl: nat, s: State, r: nat)
    requires Inv(ttl, s) && r in s.requests && s.requests[r].phase.Completing?
    ensures Inv(ttl, CompletionSaved(ttl, s, r, s.requests[r].phase.body))
  {
    var slot, body := s.requests[r].slot, s.requests[r].phase.body;
    if slot in s.table && s.table[slot].id != r {
      HolderKeepsInv(ttl, s, r, Releasing(true));
    } else {
      RecordsAfterCompletion(ttl, s, r);
    }
  }

  lemma RecordsAfterCompletion(ttl: nat, s: State, r: nat)
    requires Inv(ttl, s) && r in s.requests && s.requests[r].phase.Completing?
    requires var slot := s.requests[r].slot; slot in s.table ==> s.table[slot].id == r
    ensures var t := CompletionSaved(ttl, s, r, s.requests[r].phase.body);
            && (forall q | q in t.requests :: KeyIsGuarded(ttl, t, q) && RequestIsSound(ttl, t, q))
            && (forall slot | slot in t.table :: RecordIsOwned(ttl, t, slot))
  {
    assert forall q | q in s.requests :: KeyIsGuarded(ttl, s, q) && RequestIsSound(ttl, s, q);
    assert forall slot | slot in s.table :: RecordIsOwned(ttl, s, slot);
  }

  lemma StatementKeepsInv(ttl: nat, s: State, r: nat)
    requires Inv(ttl, s) && r in s.requests
    ensures Inv(ttl, StatementDone(ttl, s, r))
  {
    match s.requests[r].phase
    case Purging => PurgeKeepsInv(ttl, s, r);
    case Finding => FindKeepsInv(ttl, s, r);
    case DroppingExpired(_) => DropKeepsInv(ttl, s, r);
    case Inserting => InsertionKeepsInv(ttl, s, r);
    case Completing(_) => CompletionKeepsInv(ttl, s, r);
    case Releasing(_) => ReleaseKeepsInv(ttl, s, r);
    case _ =>
  }

  lemma FailureKeepsInv(ttl: nat, s: State, r: nat)
    requires Inv(ttl, s) && r in s.requests
    ensures Inv(ttl, StatementFailed(s, r))
  {
    match s.requests[r].phase
    case Running =>
    case Answered(_) =>
    case Completing(_) => HolderKeepsInv(ttl, s, r, Releasing(true));
    case Releasing(_) => FailedReleaseKeepsInv(ttl, s, r);
    case _ =>
      assert MoveTo(s, r, Answered(DatabaseFailed)).(table := s.table) == MoveTo(s, r, Answered(DatabaseFailed));
      BystanderKeepsInv(ttl, s, r, Answered(DatabaseFailed), s.table);
  }

  lemma ActionKeepsInv(ttl: nat, s: State, r: nat, action: Action)
    requires Inv(ttl, s)
    ensures Inv(ttl, Step(ttl, s, Act(r, action)))
  {
    if r in s.requests {
      match action
      case Statement => StatementKeepsInv(ttl, s, r);
      case StatementFails => FailureKeepsInv(ttl, s, r);
      case HandlerReturns(body) =>
        if s.requests[r].phase.Running? {
          HolderKeepsInv(ttl, s, r, Completing(body));
        }
      case HandlerThrows =>
        if s.requests[r].phase.Running? {
          HolderKeepsInv(ttl, s, r, Releasing(false));
        }
    }
  }

  lemma StepKeepsInv(ttl: nat, s: State, e: Event)
    requires Inv(ttl, s)
    ensures Inv(ttl, Step(ttl, s, e))
  {
    match e
    case Tick(elapsed) => TickKeepsInv(ttl, s, elapsed);
    case Arrive(r, inst, slot, hash) =>
      if r !in s.requests {
        ArrivalKeepsInv(ttl, s, r, inst, slot, hash);
      }
    case Act(r, action) => ActionKeepsInv(ttl, s, r, action);
  }

  lemma {:induction false} RunKeepsInv(ttl: nat, es: seq<Event>)
    ensures Inv(ttl, Run(ttl, es))
    decreases |es|
  {
    if |es| > 0 {
      RunKeepsInv(ttl, es[..|es| - 1]);
      StepKeepsInv(ttl, Run(ttl, es[..|es| - 1]), es[|es| - 1]);
    }
  }

  // ---------------------------------------------------------------------------------------------
  // At most one handler run per key
  // ---------------------------------------------------------------------------------------------

  /** The handler of this request ran to success. */
  predicate HandlerSucceeded(phase: Phase) {
    || phase.Completing?
    || phase == Releasing(true)
    || (phase.Answered? && (phase.outcome.Completed? || phase.outcome.CompletionFailed?))
  }

  predicate Moves(e: Event, r: nat) {
    e.Act? && e.request == r
  }

  lemma UnmovedStays(ttl: nat, s: State, e: Event, r: nat)
    requires r in s.requests && !Moves(e, r)
    ensures r in Step(ttl, s, e).requests && Step(ttl, s, e).requests[r] == s.requests[r]
  {
  }

  ghost predicate RunsAreLogged(s: State) {
    forall r | r in s.requests && (HoldsKey(s.requests[r].phase) || GaveUp(s.requests[r].phase)) :: IsLogged(s, r)
  }

  ghost predicate IsLogged(s: State, r: nat) {
    exists i :: 0 <= i < |s.insertions| && s.insertions[i].id == r
  }

  lemma LogGrows(ttl: nat, s: State, e: Event, r: nat)
    requires IsLogged(s, r)
    ensures IsLogged(Step(ttl, s, e), r)
  {
    var i :| 0 <= i < |s.insertions| && s.insertions[i].id == r;
    var t := Step(ttl, s, e);
    assert s.insertions <= t.insertions;
    assert t.insertions[i].id == r;
  }

  lemma NewHolderIsLogged(ttl: nat, s: State, e: Event, r: nat)
    requires r in Step(ttl, s, e).requests
    requires var phase := Step(ttl, s, e).requests[r].phase; HoldsKey(phase) || GaveUp(phase)
    requires r in s.requests ==> !HoldsKey(s.requests[r].phase) && !GaveUp(s.requests[r].phase)
    ensures IsLogged(Step(ttl, s, e), r)
  {
    if r in s.requests && !Moves(e, r) {
      UnmovedStays(ttl, s, e, r);
    } else if r in s.requests && e.action.Statement? && s.requests[r].phase.Inserting? {
      assert Step(ttl, s, e).insertions[|s.insertions|].id == r;
    }
  }

  lemma {:induction false} EveryRunIsLogged(ttl: nat, es: seq<Event>)
    ensures RunsAreLogged(Run(ttl, es))
    decreases |es|
  {
    if |es| > 0 {
      var s, e := Run(ttl, es[..|es| - 1]), es[|es| - 1];
      EveryRunIsLogged(ttl, es[..|es| - 1]);
      var t := Step(ttl, s, e);
      forall r | r in t.requests && (HoldsKey(t.requests[r].phase) || GaveUp(t.requests[r].phase))
        ensures IsLogged(t, r)
      {
        if r in s.requests && (HoldsKey(s.requests[r].phase) || GaveUp(s.requests[r].phase)) {
          LogGrows(ttl, s, e, r);
        } else {
          NewHolderIsLogged(ttl, s, e, r);
        }
      }
    }
  }

  /**
   Every handler run is preceded by an insertion, and of two insertions on one key and scope the later
   came no earlier than the earlier one's expiry, unless the earlier request had failed and given the
   key back.
   */
  lemma HandlersDoNotOverlap(ttl: nat, es: seq<Event>, i: nat, j: nat)
    requires i < j < |Run(ttl, es).insertions|
    ensures var s := Run(ttl, es);
            var a, b := s.insertions[i], s.insertions[j];
            && a.id in s.requests && b.id in s.requests
            && (s.requests[a.id].slot == s.requests[b.id].slot ==>
                  b.at >= s.requests[a.id].now + ttl || GaveUp(s.requests[a.id].phase))
  {
    RunKeepsInv(ttl, es);
  }

  /** Two stored responses of one key: the later run began no earlier than the earlier record's expiry. */
  lemma CompletedAtMostOnce(ttl: nat, es: seq<Event>, a: nat, b: nat)
    requires var s := Run(ttl, es);
             && a != b && a in s.requests && b in s.requests && s.requests[a].slot == s.requests[b].slot
             && s.requests[a].phase.Answered? && s.requests[a].phase.outcome.Completed?
             && s.requests[b].phase.Answered? && s.requests[b].phase.outcome.Completed?
    ensures var s := Run(ttl, es);
            exists i, j :: 0 <= i < |s.insertions| && 0 <= j < |s.insertions|
              && s.insertions[i].id == a && s.insertions[j].id == b
              && (if i < j then s.insertions[j].at >= s.requests[a].now + ttl
                  else s.insertions[i].at >= s.requests[b].now + ttl)
  {
    var s := Run(ttl, es);
    RunKeepsInv(ttl, es);
    EveryRunIsLogged(ttl, es);
    assert IsLogged(s, a) && IsLogged(s, b);
    var i :| 0 <= i < |s.insertions| && s.insertions[i].id == a;
    var j :| 0 <= j < |s.insertions| && s.insertions[j].id == b;
  }

  /**
   The handler runs to success twice before the first record expires only when the first response
   could not be stored: the failed write counts as a failed handler, and gives the key back.
   */
  lemma SecondSuccessNeedsFailedWrite(ttl: nat, es: seq<Event>, i: nat, j: nat)
    requires i < j < |Run(ttl, es).insertions|
    requires var s := Run(ttl, es);
             var a, b := s.insertions[i], s.insertions[j];
             && a.id in s.requests && b.id in s.requests && s.requests[a.id].slot == s.requests[b.id].slot
             && HandlerSucceeded(s.requests[a.id].phase) && HandlerSucceeded(s.requests[b.id].phase)
             && b.at < s.requests[a.id].now + ttl
    ensures var s := Run(ttl, es); s.requests[s.insertions[i].id].phase == Answered(CompletionFailed)
  {
    RunKeepsInv(ttl, es);
  }

  function HandlerRun(r: nat, slot: Slot, hash: string, body: string): seq<Event> {
    [Arrive(r, 0, slot, hash)] + [Act(r, Statement)] + [Act(r, Statement)] + [Act(r, HandlerReturns(body))]
  }

  lemma HandlerRuns(ttl: nat, es: seq<Event>, r: nat, slot: Slot, hash: string, body: string)
    requires var s := Run(ttl, es); r !in s.requests && slot !in s.table && !PurgeIsDue(s.lastPurgeAt, 0, s.clock)
    ensures var s := Run(ttl, es);
            var request := Request(slot, hash, s.clock, Completing(body));
            Run(ttl, es + HandlerRun(r, slot, hash, body))
            == s.(requests := s.requests[r := request],
                  table := s.table[slot := NewRecord(ttl, r, request, None)],
                  insertions := s.insertions + [Insertion(r, s.clock)])
  {
    var e1, e2, e3 := Arrive(r, 0, slot, hash), Act(r, Statement), Act(r, HandlerReturns(body));
    var s := Run(ttl, es);
    RunSnoc(ttl, es, e1);
    RunSnoc(ttl, es + [e1], e2);
    RunSnoc(ttl, es + [e1] + [e2], e2);
    RunSnoc(ttl, es + [e1] + [e2] + [e2], e3);
    HandlerSteps(ttl, s, e1, e2, e3);
    assert es + HandlerRun(r, slot, hash, body) == es + [e1] + [e2] + [e2] + [e3];
  }

  lemma HandlerSteps(ttl: nat, s: State, e1: Event, e2: Event, e3: Event)
    requires e1.Arrive? && e1.inst == 0 && e1.request !in s.requests && e1.slot !in s.table
    requires !PurgeIsDue(s.lastPurgeAt, 0, s.clock)
    requires e2 == Act(e1.request, Statement) && e3.Act? && e3.request == e1.request && e3.action.HandlerReturns?
    ensures var request := Request(e1.slot, e1.hash, s.clock, Completing(e3.action.body));
            Step(ttl, Step(ttl, Step(ttl, Step(ttl, s, e1), e2), e2), e3)
            == s.(requests := s.requests[e1.request := request],
                  table := s.table[e1.slot := NewRecord(ttl, e1.request, request, None)],
                  insertions := s.insertions + [Insertion(e1.request, s.clock)])
  {
    var r, arrived := e1.request, Request(e1.slot, e1.hash, s.clock, Finding);
    var t := Step(ttl, s, e1);
    assert t == s.(requests := s.requests[r := arrived]);
    t := Step(ttl, t, e2);
    assert t == s.(requests := s.requests[r := arrived.(phase := Inserting)]);
  }

  /** Such a run: the first write fails, and a retry within the same millisecond runs the handler again. */
  lemma HandlerCanSucceedTwice(ttl: nat, slot: Slot, hash: string, body: string) returns (es: seq<Event>)
    requires ttl > 0
    ensures var s := Run(ttl, es);
            && |s.insertions| == 2 && s.insertions[0].id == 0 && s.insertions[1].id == 1
            && 0 in s.requests && 1 in s.requests
            && s.requests[0].slot == s.requests[1].slot == slot
            && s.insertions[1].at < s.requests[0].now + ttl
            && s.requests[0].phase == Answered(CompletionFailed) && s.requests[1].phase == Answered(Completed(body))
  {
    HandlerRuns(ttl, [], 0, slot, hash, body);
    es := HandlerRun(0, slot, hash, body);
    assert [] + es == es;
    RunSnoc(ttl, es, Act(0, StatementFails));
    es := es + [Act(0, StatementFails)];
    RunSnoc(ttl, es, Act(0, Statement));
    es := es + [Act(0, Statement)];
    HandlerRuns(ttl, es, 1, slot, hash, body);
    es := es + HandlerRun(1, slot, hash, body);
    RunSnoc(ttl, es, Act(1, Statement));
    es := es + [Act(1, Statement)];
  }

  // ---------------------------------------------------------------------------------------------
  // Replays
  // ---------------------------------------------------------------------------------------------

  ghost predicate ReplayIsStored(s: State, r: nat)
    requires r in s.requests
  {
    var request := s.requests[r];
    request.phase.Answered? && request.phase.outcome.Replayed? ==>
      exists a :: IsOrigin(s, a, request, request.phase.outcome.body)
  }

  /** Request `a` had the same key, scope and body hash, and its handler's response was stored. */
  ghost predicate IsOrigin(s: State, a: nat, request: Request, body: string) {
    && a in s.requests && s.requests[a].phase == Answered(Completed(body))
    && s.requests[a].slot == request.slot && s.requests[a].hash == request.hash
  }

  lemma StepKeepsOrigin(ttl: nat, s: State, e: Event, a: nat, request: Request, body: string)
    requires IsOrigin(s, a, request, body)
    ensures IsOrigin(Step(ttl, s, e), a, request, body)
  {
  }

  lemma NewReplayIsStored(ttl: nat, s: State, r: nat)
    requires Inv(ttl, s) && r in s.requests && s.requests[r].phase.Finding?
    ensures ReplayIsStored(StatementDone(ttl, s, r), r)
  {
    var request := s.requests[r];
    if request.slot in s.table {
      var record := s.table[request.slot];
      assert RecordIsOwned(ttl, s, request.slot);
      var t := StatementDone(ttl, s, r);
      if t.requests[r].phase.Answered? && t.requests[r].phase.outcome.Replayed? {
        assert IsOrigin(t, record.id, t.requests[r], t.requests[r].phase.outcome.body);
      }
    }
  }

  lemma AnswerStays(ttl: nat, s: State, e: Event, r: nat)
    requires r in s.requests && s.requests[r].phase.Answered?
    ensures r in Step(ttl, s, e).requests && Step(ttl, s, e).requests[r] == s.requests[r]
  {
    if !Moves(e, r) {
      UnmovedStays(ttl, s, e, r);
    }
  }

  lemma OnlyFindReplays(ttl: nat, s: State, e: Event, r: nat)
    requires r in s.requests && !(e == Act(r, Statement) && s.requests[r].phase.Finding?)
    requires !(s.requests[r].phase.Answered? && s.requests[r].phase.outcome.Replayed?)
    ensures ReplayIsStored(Step(ttl, s, e), r)
  {
  }

  /** Every replay returns the stored response of a run with the same key, scope and body. */
  lemma {:induction false} ReplaysAreStored(ttl: nat, es: seq<Event>, r: nat)
    requires r in Run(ttl, es).requests
    ensures ReplayIsStored(Run(ttl, es), r)
    decreases |es|
  {
    if |es| > 0 {
      var s, e := Run(ttl, es[..|es| - 1]), es[|es| - 1];
      var t := Step(ttl, s, e);
      if r in s.requests {
        if e == Act(r, Statement) && s.requests[r].phase.Finding? {
          RunKeepsInv(ttl, es[..|es| - 1]);
          NewReplayIsStored(ttl, s, r);
        } else if s.requests[r].phase.Answered? && s.requests[r].phase.outcome.Replayed? {
          ReplaysAreStored(ttl, es[..|es| - 1], r);
          var body := s.requests[r].phase.outcome.body;
          var a :| IsOrigin(s, a, s.requests[r], body);
          StepKeepsOrigin(ttl, s, e, a, s.requests[r], body);
          AnswerStays(ttl, s, e, r);
        } else {
          OnlyFindReplays(ttl, s, e, r);
        }
      }
    }
  }
}
