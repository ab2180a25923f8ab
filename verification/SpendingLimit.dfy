/**
 The rolling spending limit: sessions are opened by concurrent calls, each of which reads its payer's
 limit, waits for the payer's lock, sums the deposits of the window that ends now, and inserts.
 */
module SpendingLimit {
  import opened Base
  import opened Hex

  /** The default limit in wei, if there is one, and the length of the window. */
  datatype Config = Config(windowMs: nat, defaultLimit: Option<nat>)

  datatype Status = Open | Cancelled | Ended

  datatype Session = Session(agentA: string, deposit: nat, createdAt: int, status: Status, everCancelled: bool)

  datatype Phase =
    | ReadingLimit
    | Unlimited
    | Waiting(limit: nat)
    | Locked(limit: nat)
    | Fits(limit: nat)
    | Opened
    | Refused(remaining: nat)

  /** A call of withinLimit; `now` is the time it began. */
  datatype Call = Call(agentA: string, amount: nat, now: int, phase: Phase)

  datatype State = State(clock: int, limits: map<string, int>, sessions: seq<Session>, calls: map<nat, Call>)

  datatype Event =
    | Tick(elapsed: nat)
    | LimitSet(payer: string, wei: int)
    | LimitCleared(payer: string)
    | Begin(call: nat, agentA: string, amount: nat)
    | Advance(call: nat, createdAt: int)
    | CancelSession(index: nat)
    | EndSession(index: nat)

  // ---------------------------------------------------------------------------------------------
  // Statements
  // ---------------------------------------------------------------------------------------------

  /** limitFor: the payer's own limit, where zero lifts the limit, or else the default. */
  function LimitFor(cfg: Config, limits: map<string, int>, address: string): Option<nat> {
    if address in limits then (if limits[address] > 0 then Some(limits[address]) else None)
    else if cfg.defaultLimit.Some? && cfg.defaultLimit.value > 0 then cfg.defaultLimit
    else None
  }

  type Filter = Session -> bool

  /** SELECT SUM(depositAmount) over the sessions that pass the filter. */
  function Sum(sessions: seq<Session>, keep: Filter): nat {
    if |sessions| == 0 then 0
    else
      var last := sessions[|sessions| - 1];
      Sum(sessions[..|sessions| - 1], keep) + if keep(last) then last.deposit else 0
  }

  predicate CountsAsSpent(address: string, since: int, session: Session) {
    Lower(session.agentA) == address && session.createdAt > since && !session.status.Cancelled?
  }

  function SpentInWindow(cfg: Config, sessions: seq<Session>, address: string, now: int): nat {
    Sum(sessions, s => CountsAsSpent(address, now - cfg.windowMs, s))
  }

  function LeftOf(limit: nat, spent: nat): nat {
    if limit > spent then limit - spent else 0
  }

  predicate HoldsLock(phase: Phase) {
    phase.Locked? || phase.Fits?
  }

  /** pg_advisory_xact_lock on the payer is free. */
  predicate LockIsFree(s: State, address: string) {
    forall c | c in s.calls :: Lower(s.calls[c].agentA) == address ==> !HoldsLock(s.calls[c].phase)
  }

  // ---------------------------------------------------------------------------------------------
  // Steps and runs
  // ---------------------------------------------------------------------------------------------

  function MoveTo(s: State, c: nat, phase: Phase): State
    requires c in s.calls
  {
    s.(calls := s.calls[c := s.calls[c].(phase := phase)])
  }

  function NewSession(call: Call, createdAt: int): Session {
    Session(call.agentA, call.amount, createdAt, Open, false)
  }

  /** The next step of a call; an insert is stamped with a time between the call's start and now. */
  function Advanced(cfg: Config, s: State, c: nat, createdAt: int): State
    requires c in s.calls
  {
    var call := s.calls[c];
    var address := Lower(call.agentA);
    match call.phase
    case ReadingLimit =>
      (match LimitFor(cfg, s.limits, address)
       case None => MoveTo(s, c, Unlimited)
       case Some(limit) => MoveTo(s, c, Waiting(limit)))
    case Waiting(limit) => if LockIsFree(s, address) then MoveTo(s, c, Locked(limit)) else s
    case Locked(limit) =>
      var spent := SpentInWindow(cfg, s.sessions, address, call.now);
      if spent + call.amount > limit then MoveTo(s, c, Refused(LeftOf(limit, spent))) else MoveTo(s, c, Fits(limit))
    case Unlimited => Inserted(s, c, createdAt)
    case Fits(_) => Inserted(s, c, createdAt)
    case _ => s
  }

  function Inserted(s: State, c: nat, createdAt: int): State
    requires c in s.calls
  {
    if s.calls[c].now <= createdAt <= s.clock
    then MoveTo(s, c, Opened).(sessions := s.sessions + [NewSession(s.calls[c], createdAt)])
    else s
  }

  function Step(cfg: Config, s: State, e: Event): State {
    match e
    case Tick(elapsed) => s.(clock := s.clock + elapsed)
    case LimitSet(payer, wei) => s.(limits := s.limits[Lower(payer) := wei])
    case LimitCleared(payer) => s.(limits := s.limits - {Lower(payer)})
    case Begin(c, agentA, amount) =>
      if c in s.calls then s else s.(calls := s.calls[c := Call(agentA, amount, s.clock, ReadingLimit)])
    case Advance(c, createdAt) => if c in s.calls then Advanced(cfg, s, c, createdAt) else s
    case CancelSession(i) =>
      if i < |s.sessions| && s.sessions[i].status.Open?
      then s.(sessions := s.sessions[i := s.sessions[i].(status := Cancelled, everCancelled := true)]) else s
    case EndSession(i) =>
      // close has no status guard: it ends a cancelled session too
      if i < |s.sessions| then s.(sessions := s.sessions[i := s.sessions[i].(status := Ended)]) else s
  }

  const START := State(0, map[], [], map[])

  function Run(cfg: Config, es: seq<Event>): State
    decreases |es|
  {
    if |es| == 0 then START else Step(cfg, Run(cfg, es[..|es| - 1]), es[|es| - 1])
  }

  // ---------------------------------------------------------------------------------------------
  // Every window is bounded
  // ---------------------------------------------------------------------------------------------

  /** A session the payer opened in (from, from + window] and never cancelled. */
  predicate OpenedIn(cfg: Config, address: string, from: int, session: Session) {
    Lower(session.agentA) == address && from < session.createdAt <= from + cfg.windowMs && !session.everCancelled
  }

  function DepositsIn(cfg: Config, sessions: seq<Session>, address: string, from: int): nat {
    Sum(sessions, s => OpenedIn(cfg, address, from, s))
  }

  lemma {:induction false} SumMonotone(sessions: seq<Session>, p: Filter, q: Filter)
    requires forall s | s in sessions :: p(s) ==> q(s)
    ensures Sum(sessions, p) <= Sum(sessions, q)
  {
    if |sessions| > 0 {
      SumMonotone(sessions[..|sessions| - 1], p, q);
    }
  }

  lemma SumSnoc(sessions: seq<Session>, s: Session, keep: Filter)
    ensures Sum(sessions + [s], keep) == Sum(sessions, keep) + if keep(s) then s.deposit else 0
  {
    assert (sessions + [s])[..|sessions|] == sessions;
  }

  /** Changing a session without making it count lowers no other, and raises no sum. */
  lemma {:induction false} SumAfterUpdate(sessions: seq<Session>, i: nat, s: Session, keep: Filter)
    requires i < |sessions| && s.deposit == sessions[i].deposit && (keep(s) ==> keep(sessions[i]))
    ensures Sum(sessions[i := s], keep) <= Sum(sessions, keep)
  {
    var m := |sessions| - 1;
    if i < m {
      assert sessions[i := s][..m] == sessions[..m][i := s];
      SumAfterUpdate(sessions[..m], i, s, keep);
    } else {
      assert sessions[i := s][..m] == sessions[..m];
    }
  }

  /** The payer is limited to at most `most` whenever its limit is read. */
  ghost predicate IsLimited(cfg: Config, s: State, address: string, most: nat) {
    LimitFor(cfg, s.limits, address).Some? && LimitFor(cfg, s.limits, address).value <= most
  }

  ghost predicate SessionsAreSound(s: State) {
    forall k | 0 <= k < |s.sessions| :: s.sessions[k].status.Cancelled? ==> s.sessions[k].everCancelled
  }

  /** What the payer's call has checked: it began under the limit, and what it asks for still fits. */
  ghost predicate CallIsSound(cfg: Config, s: State, address: string, most: nat, c: nat)
    requires c in s.calls
  {
    var call := s.calls[c];
    Lower(call.agentA) == address ==>
      && call.phase != Unlimited
      && (call.phase.Waiting? || HoldsLock(call.phase) ==> call.phase.limit <= most)
      && (call.phase.Fits? ==> Room(cfg, s, address, most, call))
  }

  /** A session inserted now keeps every window it falls in within the limit. */
  ghost predicate Room(cfg: Config, s: State, address: string, most: nat, call: Call) {
    forall from {:trigger DepositsIn(cfg, s.sessions, address, from)} ::
      from + cfg.windowMs >= call.now ==> DepositsIn(cfg, s.sessions, address, from) + call.amount <= most
  }

  ghost predicate LockIsExclusive(s: State, address: string) {
    forall c, d | c in s.calls && d in s.calls && c != d ::
      Lower(s.calls[c].agentA) == address && Lower(s.calls[d].agentA) == address ==>
        !(HoldsLock(s.calls[c].phase) && HoldsLock(s.calls[d].phase))
  }

  ghost predicate WindowsFit(cfg: Config, s: State, address: string, most: nat) {
    forall from :: DepositsIn(cfg, s.sessions, address, from) <= most
  }

  ghost predicate Inv(cfg: Config, s: State, address: string, most: nat) {
    && SessionsAreSound(s)
    && (forall c | c in s.calls :: CallIsSound(cfg, s, address, most, c))
    && LockIsExclusive(s, address)
    && WindowsFit(cfg, s, address, most)
  }

  lemma CheckMakesRoom(cfg: Config, s: State, address: string, most: nat, call: Call, limit: nat)
    requires SessionsAreSound(s) && limit <= most
    requires SpentInWindow(cfg, s.sessions, address, call.now) + call.amount <= limit
    ensures Room(cfg, s, address, most, call)
  {
    forall from | from + cfg.windowMs >= call.now
      ensures DepositsIn(cfg, s.sessions, address, from) + call.amount <= most
    {
      SumMonotone(s.sessions, t => OpenedIn(cfg, address, from, t),
          t => CountsAsSpent(address, call.now - cfg.windowMs, t));
    }
  }

  /** A step that touches no session keeps the room of every call. */
  lemma MoveKeepsInv(cfg: Config, s: State, address: string, most: nat, c: nat, phase: Phase)
    requires Inv(cfg, s, address, most) && c in s.calls
    requires Lower(s.calls[c].agentA) == address ==>
               && phase != Unlimited && (phase.Waiting? || HoldsLock(phase) ==> phase.limit <= most)
               && (HoldsLock(phase) ==> HoldsLock(s.calls[c].phase) || LockIsFree(s, address))
               && (phase.Fits? ==> Room(cfg, s, address, most, s.calls[c]))
    ensures Inv(cfg, MoveTo(s, c, phase), address, most)
  {
    var t := MoveTo(s, c, phase);
    forall d | d in t.calls
      ensures CallIsSound(cfg, t, address, most, d)
    {
      assert CallIsSound(cfg, s, address, most, d);
      assert Room(cfg, s, address, most, s.calls[d]) ==> Room(cfg, t, address, most, t.calls[d]);
    }
  }

  /** Updating a session that does not start to count keeps every window and all room. */
  lemma UpdateKeepsInv(cfg: Config, s: State, address: string, most: nat, i: nat, session: Session)
    requires Inv(cfg, s, address, most) && i < |s.sessions|
    requires session.agentA == s.sessions[i].agentA && session.deposit == s.sessions[i].deposit
          && session.createdAt == s.sessions[i].createdAt
    requires (s.sessions[i].everCancelled ==> session.everCancelled)
            && (session.status.Cancelled? ==> session.everCancelled)
    ensures Inv(cfg, s.(sessions := s.sessions[i := session]), address, most)
  {
    var t := s.(sessions := s.sessions[i := session]);
    forall from
      ensures DepositsIn(cfg, t.sessions, address, from) <= DepositsIn(cfg, s.sessions, address, from)
    {
      SumAfterUpdate(s.sessions, i, session, x => OpenedIn(cfg, address, from, x));
    }
    forall d | d in t.calls
      ensures CallIsSound(cfg, t, address, most, d)
    {
      assert CallIsSound(cfg, s, address, most, d);
    }
  }

  lemma InsertionKeepsWindows(cfg: Config, s: State, address: string, most: nat, c: nat, createdAt: int)
    requires Inv(cfg, s, address, most) && c in s.calls && s.calls[c].now <= createdAt
    requires Lower(s.calls[c].agentA) == address ==> s.calls[c].phase.Fits?
    ensures WindowsFit(cfg, s.(sessions := s.sessions + [NewSession(s.calls[c], createdAt)]), address, most)
    ensures Lower(s.calls[c].agentA) != address ==>
              forall from :: DepositsIn(cfg, s.sessions + [NewSession(s.calls[c], createdAt)], address, from)
                          == DepositsIn(cfg, s.sessions, address, from)
  {
    var session := NewSession(s.calls[c], createdAt);
    assert CallIsSound(cfg, s, address, most, c);
    forall from
      ensures DepositsIn(cfg, s.sessions + [session], address, from) <= most
      ensures Lower(s.calls[c].agentA) != address ==>
                DepositsIn(cfg, s.sessions + [session], address, from) == DepositsIn(cfg, s.sessions, address, from)
    {
      SumSnoc(s.sessions, session, x => OpenedIn(cfg, address, from, x));
      assert DepositsIn(cfg, s.sessions, address, from) <= most;
    }
  }

  lemma InsertionKeepsInv(cfg: Config, s: State, address: string, most: nat, c: nat, createdAt: int)
    requires Inv(cfg, s, address, most) && c in s.calls
    requires s.calls[c].phase.Fits? || s.calls[c].phase.Unlimited?
    ensures Inv(cfg, Inserted(s, c, createdAt), address, most)
  {
    if s.calls[c].now <= createdAt <= s.clock {
      var t := Inserted(s, c, createdAt);
      assert CallIsSound(cfg, s, address, most, c);
      InsertionKeepsWindows(cfg, s, address, most, c, createdAt);
      forall d | d in t.calls
        ensures CallIsSound(cfg, t, address, most, d)
      {
        assert CallIsSound(cfg, s, address, most, d);
      }
    }
  }

  lemma AdvanceKeepsInv(cfg: Config, s: State, address: string, most: nat, c: nat, createdAt: int)
    requires Inv(cfg, s, address, most) && c in s.calls && IsLimited(cfg, s, address, most)
    ensures Inv(cfg, Advanced(cfg, s, c, createdAt), address, most)
  {
    var call := s.calls[c];
    assert CallIsSound(cfg, s, address, most, c);
    match call.phase
    case ReadingLimit =>
      var limit := LimitFor(cfg, s.limits, Lower(call.agentA));
      MoveKeepsInv(cfg, s, address, most, c, if limit.None? then Unlimited else Waiting(limit.value));
    case Waiting(limit) =>
      if LockIsFree(s, Lower(call.agentA)) {
        MoveKeepsInv(cfg, s, address, most, c, Locked(limit));
      }
    case Locked(limit) =>
      var spent := SpentInWindow(cfg, s.sessions, Lower(call.agentA), call.now);
      if spent + call.amount > limit {
        MoveKeepsInv(cfg, s, address, most, c, Refused(LeftOf(limit, spent)));
      } else {
        if Lower(call.agentA) == address {
          CheckMakesRoom(cfg, s, address, most, call, limit);
        }
        MoveKeepsInv(cfg, s, address, most, c, Fits(limit));
      }
    case Unlimited => InsertionKeepsInv(cfg, s, address, most, c, createdAt);
    case Fits(_) => InsertionKeepsInv(cfg, s, address, most, c, createdAt);
    case _ =>
  }

  lemma StepKeepsInv(cfg: Config, s: State, address: string, most: nat, e: Event)
    requires Inv(cfg, s, address, most) && IsLimited(cfg, s, address, most)
    ensures Inv(cfg, Step(cfg, s, e), address, most)
  {
    match e
    case Tick(_) => SameSessions(cfg, s, Step(cfg, s, e), address, most);
    case LimitSet(_, _) => SameSessions(cfg, s, Step(cfg, s, e), address, most);
    case LimitCleared(_) => SameSessions(cfg, s, Step(cfg, s, e), address, most);
    case Begin(c, agentA, amount) =>
      if c !in s.calls {
        BeginKeepsInv(cfg, s, address, most, c, Call(agentA, amount, s.clock, ReadingLimit));
      }
    case Advance(c, createdAt) =>
      if c in s.calls {
        AdvanceKeepsInv(cfg, s, address, most, c, createdAt);
      }
    case CancelSession(i) =>
      if i < |s.sessions| && s.sessions[i].status.Open? {
        UpdateKeepsInv(cfg, s, address, most, i, s.sessions[i].(status := Cancelled, everCancelled := true));
      }
    case EndSession(i) =>
      if i < |s.sessions| {
        UpdateKeepsInv(cfg, s, address, most, i, s.sessions[i].(status := Ended));
      }
  }

  lemma SameSessions(cfg: Config, s: State, t: State, address: string, most: nat)
    requires Inv(cfg, s, address, most) && t.sessions == s.sessions && t.calls == s.calls
    ensures Inv(cfg, t, address, most)
  {
    forall d | d in t.calls
      ensures CallIsSound(cfg, t, address, most, d)
    {
      assert CallIsSound(cfg, s, address, most, d);
    }
  }

  lemma BeginKeepsInv(cfg: Config, s: State, address: string, most: nat, c: nat, call: Call)
    requires Inv(cfg, s, address, most) && c !in s.calls && call.phase.ReadingLimit?
    ensures Inv(cfg, s.(calls := s.calls[c := call]), address, most)
  {
    var t := s.(calls := s.calls[c := call]);
    forall d | d in t.calls
      ensures CallIsSound(cfg, t, address, most, d)
    {
      if d != c { assert CallIsSound(cfg, s, address, most, d); }
    }
  }

  /** The payer has a limit, of at most `most`, at every point of the run. */
  ghost predicate AlwaysLimited(cfg: Config, es: seq<Event>, address: string, most: nat) {
    forall k | 0 <= k <= |es| :: IsLimited(cfg, Run(cfg, es[..k]), address, most)
  }

  lemma {:induction false} RunKeepsInv(cfg: Config, es: seq<Event>, address: string, most: nat)
    requires AlwaysLimited(cfg, es, address, most)
    ensures Inv(cfg, Run(cfg, es), address, most)
    decreases |es|
  {
    if |es| > 0 {
      var front := es[..|es| - 1];
      forall k | 0 <= k <= |front|
        ensures IsLimited(cfg, Run(cfg, front[..k]), address, most)
      {
        assert front[..k] == es[..k];
      }
      RunKeepsInv(cfg, front, address, most);
      assert front[..|front|] == front;
      StepKeepsInv(cfg, Run(cfg, front), address, most, es[|es| - 1]);
    }
  }

  /**
   Every window is bounded: whatever the interleaving of calls, cancellations and limit changes, the
   deposits of sessions a limited payer opened in any window (from, from + window] and never cancelled
   sum to at most the limit, although each check looks only at the window that ends at its own start.
   */
  lemma EveryWindowIsBounded(cfg: Config, es: seq<Event>, address: string, most: nat, from: int)
    requires AlwaysLimited(cfg, es, address, most)
    ensures DepositsIn(cfg, Run(cfg, es).sessions, address, from) <= most
  {
    RunKeepsInv(cfg, es, address, most);
  }

  // ---------------------------------------------------------------------------------------------
  // The bound is exact: a window that includes both its ends can hold twice the limit
  // ---------------------------------------------------------------------------------------------

  /** A session the payer opened in [from, from + window]. */
  predicate OpenedInClosed(cfg: Config, address: string, from: int, session: Session) {
    Lower(session.agentA) == address && from <= session.createdAt <= from + cfg.windowMs && !session.everCancelled
  }

  ghost predicate Idle(s: State) {
    forall c | c in s.calls :: s.calls[c].phase.Opened?
  }

  /** A lone call for an amount that fits goes through at once. */
  lemma LoneCallOpens(cfg: Config, es: seq<Event>, c: nat, payer: string, amount: nat) returns (longer: seq<Event>)
    requires var s := Run(cfg, es);
             && c !in s.calls && Idle(s)
             && LimitFor(cfg, s.limits, Lower(payer)).Some?
             && SpentInWindow(cfg, s.sessions, Lower(payer), s.clock) + amount
                 <= LimitFor(cfg, s.limits, Lower(payer)).value
    ensures var s, t := Run(cfg, es), Run(cfg, longer);
            && t.clock == s.clock && t.limits == s.limits && Idle(t) && t.calls.Keys == s.calls.Keys + {c}
            && t.sessions == s.sessions + [Session(payer, amount, s.clock, Open, false)]
  {
    var s := Run(cfg, es);
    var limit := LimitFor(cfg, s.limits, Lower(payer)).value;
    longer := es + [Begin(c, payer, amount)];
    RunSnoc(cfg, es, Begin(c, payer, amount));
    longer := AdvanceRun(cfg, longer, c, s.clock);
    WaitingCall(cfg, s, c, Call(payer, amount, s.clock, ReadingLimit), limit);
    longer := AdvanceRun(cfg, longer, c, s.clock);
    longer := AdvanceRun(cfg, longer, c, s.clock);
    longer := AdvanceRun(cfg, longer, c, s.clock);
  }

  function WithCall(s: State, c: nat, call: Call): State {
    s.(calls := s.calls[c := call])
  }

  lemma WaitingCall(cfg: Config, s: State, c: nat, call: Call, limit: nat)
    requires c !in s.calls && Idle(s) && call.phase.ReadingLimit? && call.now == s.clock
    requires LimitFor(cfg, s.limits, Lower(call.agentA)) == Some(limit)
    requires SpentInWindow(cfg, s.sessions, Lower(call.agentA), s.clock) + call.amount <= limit
    ensures Advanced(cfg, WithCall(s, c, call), c, s.clock) == WithCall(s, c, call.(phase := Waiting(limit)))
    ensures Advanced(cfg, WithCall(s, c, call.(phase := Waiting(limit))), c, s.clock)
         == WithCall(s, c, call.(phase := Locked(limit)))
    ensures Advanced(cfg, WithCall(s, c, call.(phase := Locked(limit))), c, s.clock)
         == WithCall(s, c, call.(phase := Fits(limit)))
    ensures Advanced(cfg, WithCall(s, c, call.(phase := Fits(limit))), c, s.clock)
         == WithCall(s, c, call.(phase := Opened)).(sessions := s.sessions + [NewSession(call, s.clock)])
  {
    var t := WithCall(s, c, call.(phase := Waiting(limit)));
    assert LockIsFree(t, Lower(call.agentA));
  }

  lemma RunSnoc(cfg: Config, es: seq<Event>, e: Event)
    ensures Run(cfg, es + [e]) == Step(cfg, Run(cfg, es), e)
  {
    assert (es + [e])[..|es|] == es;
  }

  lemma AdvanceRun(cfg: Config, es: seq<Event>, c: nat, createdAt: int) returns (longer: seq<Event>)
    requires c in Run(cfg, es).calls
    ensures Run(cfg, longer) == Advanced(cfg, Run(cfg, es), c, createdAt)
  {
    longer := es + [Advance(c, createdAt)];
    RunSnoc(cfg, es, Advance(c, createdAt));
  }

  lemma ClosedWindowCanHoldTwice(cfg: Config, payer: string, limit: nat) returns (es: seq<Event>)
    requires cfg.defaultLimit == Some(limit) && limit > 0 && cfg.windowMs > 0
    ensures Sum(Run(cfg, es).sessions, s => OpenedInClosed(cfg, Lower(payer), 0, s)) == 2 * limit
  {
    es := LoneCallOpens(cfg, [], 0, payer, limit);
    RunSnoc(cfg, es, Tick(cfg.windowMs));
    es := es + [Tick(cfg.windowMs)];
    var first, second := Session(payer, limit, 0, Open, false), Session(payer, limit, cfg.windowMs, Open, false);
    SumSnoc([], first, s => CountsAsSpent(Lower(payer), 0, s));
    assert [] + [first] == [first];
    es := LoneCallOpens(cfg, es, 1, payer, limit);
    SumSnoc([], first, s => OpenedInClosed(cfg, Lower(payer), 0, s));
    SumSnoc([first], second, s => OpenedInClosed(cfg, Lower(payer), 0, s));
  }
}
