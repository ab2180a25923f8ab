/**
 The interceptor as it runs: `Intercept` issues its statements one by one while other requests act on
 the same table at every `await`. What a script makes of a state is the function Play of the machine in
 Idempotency; every method is shown to compute it.
 */
module IdempotencyInterceptor {
  import opened Base
  import opened Idempotency

  /** What the other requests do before a statement takes effect, and whether the statement throws. */
  datatype Await = Await(meanwhile: seq<Event>, fails: bool)

  /** The environment of one request: its statements in order, and the handler. */
  datatype Script = Script(
    purge: Await, find: Await, drop: Await, insert: Await,
    handling: seq<Event>, handler: Option<string>, complete: Await, release: Await)

  /** The result of begin: a record of its own, a stored response, or a throw. */
  datatype Begun = Fresh | Replay(body: string) | Throws(outcome: Outcome)

  predicate Foreign(e: Event, r: nat) {
    match e
    case Tick(_) => true
    case Arrive(q, _, _, _) => q != r
    case Act(q, _) => q != r
  }

  predicate AllForeign(es: seq<Event>, r: nat) {
    forall i | 0 <= i < |es| :: Foreign(es[i], r)
  }

  predicate ForeignScript(script: Script, r: nat) {
    && AllForeign(script.purge.meanwhile, r) && AllForeign(script.find.meanwhile, r)
    && AllForeign(script.drop.meanwhile, r) && AllForeign(script.insert.meanwhile, r)
    && AllForeign(script.handling, r)
    && AllForeign(script.complete.meanwhile, r) && AllForeign(script.release.meanwhile, r)
  }

  lemma ForeignStepKeeps(ttl: nat, s: State, e: Event, r: nat)
    requires r in s.requests && Foreign(e, r)
    ensures r in Step(ttl, s, e).requests && Step(ttl, s, e).requests[r] == s.requests[r]
  {
  }

  function AfterFailure(phase: Phase): Phase {
    match phase
    case Completing(_) => Releasing(true)
    case Releasing(succeeded) => Released(succeeded)
    case _ => Answered(DatabaseFailed)
  }

  // ---------------------------------------------------------------------------------------------
  // A script played on the machine
  // ---------------------------------------------------------------------------------------------

  function Others(ttl: nat, s: State, es: seq<Event>): State
    decreases |es|
  {
    if |es| == 0 then s else Step(ttl, Others(ttl, s, es[..|es| - 1]), es[|es| - 1])
  }

  lemma OthersSnoc(ttl: nat, s: State, es: seq<Event>, k: nat)
    requires k < |es|
    ensures Others(ttl, s, es[..k + 1]) == Step(ttl, Others(ttl, s, es[..k]), es[k])
  {
    assert es[..k + 1][..k] == es[..k];
  }

  lemma {:induction false} OthersKeep(ttl: nat, s: State, es: seq<Event>, r: nat)
    requires r in s.requests && AllForeign(es, r)
    ensures r in Others(ttl, s, es).requests && Others(ttl, s, es).requests[r] == s.requests[r]
    decreases |es|
  {
    if |es| > 0 {
      OthersKeep(ttl, s, es[..|es| - 1], r);
      ForeignStepKeeps(ttl, Others(ttl, s, es[..|es| - 1]), es[|es| - 1], r);
    }
  }

  function AwaitAt(script: Script, phase: Phase): Await {
    match phase
    case Purging => script.purge
    case Finding => script.find
    case DroppingExpired(_) => script.drop
    case Inserting => script.insert
    case Completing(_) => script.complete
    case _ => script.release
  }

  /** The others act, then the request's statement or handler takes effect. */
  function Next(ttl: nat, s: State, r: nat, script: Script): State
    requires r in s.requests
  {
    if s.requests[r].phase.Running? then
      Step(ttl, Others(ttl, s, script.handling),
           Act(r, if script.handler.Some? then HandlerReturns(script.handler.value) else HandlerThrows))
    else
      var await := AwaitAt(script, s.requests[r].phase);
      Step(ttl, Others(ttl, s, await.meanwhile), Act(r, if await.fails then StatementFails else Statement))
  }

  function Rank(phase: Phase): nat {
    match phase
    case Purging => 7
    case Finding => 6
    case DroppingExpired(_) => 5
    case Inserting => 4
    case Running => 3
    case Completing(_) => 2
    case Releasing(_) => 1
    case Answered(_) => 0
  }

  lemma NextAdvances(ttl: nat, s: State, r: nat, script: Script)
    requires r in s.requests && ForeignScript(script, r) && !s.requests[r].phase.Answered?
    ensures r in Next(ttl, s, r, script).requests
    ensures Rank(Next(ttl, s, r, script).requests[r].phase) < Rank(s.requests[r].phase)
  {
    if s.requests[r].phase.Running? {
      OthersKeep(ttl, s, script.handling, r);
    } else {
      OthersKeep(ttl, s, AwaitAt(script, s.requests[r].phase).meanwhile, r);
    }
  }

  predicate Stops(phase: Phase, admitting: bool) {
    phase.Answered? || (admitting && phase.Running?)
  }

  /** The state the script leads to: up to the handler when `admitting`, else up to the answer. */
  function Play(ttl: nat, s: State, r: nat, script: Script, admitting: bool): (t: State)
    requires r in s.requests && ForeignScript(script, r)
    ensures r in t.requests && Stops(t.requests[r].phase, admitting)
    decreases Rank(s.requests[r].phase)
  {
    if Stops(s.requests[r].phase, admitting) then s
    else
      NextAdvances(ttl, s, r, script);
      Play(ttl, Next(ttl, s, r, script), r, script, admitting)
  }

  lemma PlayStep(ttl: nat, s: State, r: nat, script: Script, admitting: bool)
    requires r in s.requests && ForeignScript(script, r) && !Stops(s.requests[r].phase, admitting)
    ensures r in Next(ttl, s, r, script).requests
    ensures Play(ttl, Next(ttl, s, r, script), r, script, admitting) == Play(ttl, s, r, script, admitting)
  {
    NextAdvances(ttl, s, r, script);
  }

  lemma {:induction false} PlayThrough(ttl: nat, s: State, r: nat, script: Script)
    requires r in s.requests && ForeignScript(script, r)
    ensures Play(ttl, Play(ttl, s, r, script, true), r, script, false) == Play(ttl, s, r, script, false)
    decreases Rank(s.requests[r].phase)
  {
    if !Stops(s.requests[r].phase, true) {
      NextAdvances(ttl, s, r, script);
      PlayThrough(ttl, Next(ttl, s, r, script), r, script);
    }
  }

  /** The record that findOne sees, unless it has expired. */
  predicate SeesLive(s: State, request: Request) {
    request.slot in s.table && s.table[request.slot].expiresAt > request.now
  }

  /** What begin answers: a live record decides at once, and nothing else gives 422 or a replay. */
  lemma FindDecides(ttl: nat, s: State, r: nat, script: Script)
    requires r in s.requests && ForeignScript(script, r) && s.requests[r].phase.Finding?
    ensures var request, o := s.requests[r], Others(ttl, s, script.find.meanwhile);
            var phase := Play(ttl, s, r, script, true).requests[r].phase;
            && (phase == Answered(BodyMismatch) <==>
                  !script.find.fails && SeesLive(o, request) && o.table[request.slot].requestHash != request.hash)
            && (forall body :: phase == Answered(Replayed(body)) <==>
                  !script.find.fails && SeesLive(o, request) && o.table[request.slot].requestHash == request.hash
                  && o.table[request.slot].response == Some(body))
            && (script.find.fails ==> phase == Answered(DatabaseFailed))
    ensures var request, o := s.requests[r], Others(ttl, s, script.find.meanwhile);
            var live := !script.find.fails && SeesLive(o, request);
            live && o.table[request.slot].requestHash == request.hash && o.table[request.slot].response.None?
            ==> Play(ttl, s, r, script, true).requests[r].phase == Answered(InProgressConflict)
  {
    OthersKeep(ttl, s, script.find.meanwhile, r);
    PlayStep(ttl, s, r, script, true);
    var t := Next(ttl, s, r, script);
    if t.requests[r].phase.DroppingExpired? || t.requests[r].phase.Inserting? {
      AfterFindNothingLive(ttl, t, r, script);
    }
  }

  lemma {:induction false} AfterFindNothingLive(ttl: nat, s: State, r: nat, script: Script)
    requires r in s.requests && ForeignScript(script, r)
    requires s.requests[r].phase.DroppingExpired? || s.requests[r].phase.Inserting?
    ensures var phase := Play(ttl, s, r, script, true).requests[r].phase;
            phase.Running? || phase == Answered(DatabaseFailed) || phase == Answered(InProgressConflict)
    decreases Rank(s.requests[r].phase)
  {
    OthersKeep(ttl, s, AwaitAt(script, s.requests[r].phase).meanwhile, r);
    PlayStep(ttl, s, r, script, true);
    var t := Next(ttl, s, r, script);
    if t.requests[r].phase.Inserting? {
      AfterFindNothingLive(ttl, t, r, script);
    }
  }

  class Interceptors {
    const ttlMs: nat
    var clock: nat
    var lastPurgeAt: map<nat, nat>
    var records: Table
    var requests: map<nat, Request>
    var insertions: seq<Insertion>
    ghost var history: seq<Event>

    function Machine(): State
      reads this
    {
      State(clock, lastPurgeAt, records, requests, insertions)
    }

    ghost predicate Valid()
      reads this
    {
      Machine() == Run(ttlMs, history)
    }

    constructor (ttlMs: nat)
      ensures Valid() && this.ttlMs == ttlMs && records == map[]
    {
      this.ttlMs := ttlMs;
      clock, lastPurgeAt, records, requests, insertions := 0, map[], map[], map[], [];
      history := [];
    }

    /** Records the event that led from `before` to what the fields now show. */
    ghost method Log(e: Event, before: State)
      requires before == Run(ttlMs, history) && Machine() == Step(ttlMs, before, e)
      modifies this`history
      ensures Valid() && history == old(history) + [e]
    {
      RunSnoc(ttlMs, history, e);
      history := history + [e];
    }

    /** The other requests act. */
    method Meanwhile(es: seq<Event>, r: nat)
      requires Valid() && r in requests && AllForeign(es, r)
      modifies this
      ensures Valid() && old(history) <= history && Machine() == Others(ttlMs, old(Machine()), es)
      ensures r in requests && requests[r] == old(requests[r])
    {
      for k := 0 to |es|
        invariant Valid() && old(history) <= history && Machine() == Others(ttlMs, old(Machine()), es[..k])
      {
        ghost var before := Machine();
        OthersSnoc(ttlMs, old(Machine()), es, k);
        var t := Step(ttlMs, Machine(), es[k]);
        clock, lastPurgeAt, records, requests, insertions := t.clock, t.lastPurgeAt, t.table, t.requests, t.insertions;
        Log(es[k], before);
      }
      assert es[..|es|] == es;
      OthersKeep(ttlMs, old(Machine()), es, r);
    }

    method SetPhase(r: nat, phase: Phase)
      requires r in requests
      modifies this`requests
      ensures requests == old(requests)[r := old(requests[r]).(phase := phase)]
    {
      requests := requests[r := requests[r].(phase := phase)];
    }

    /** Awaits the next statement of request `r`: the others act, and it may throw. */
    method Issue(r: nat, await: Await) returns (done: bool)
      requires Valid() && r in requests && AllForeign(await.meanwhile, r)
      requires !requests[r].phase.Running? && !requests[r].phase.Answered?
      modifies this
      ensures Valid() && r in requests && old(history) <= history && done == !await.fails
      ensures var o := Others(ttlMs, old(Machine()), await.meanwhile);
              Machine() == if done then o else Step(ttlMs, o, Act(r, StatementFails))
      ensures requests[r] == old(requests[r]).(phase :=
                if done then old(requests[r].phase) else AfterFailure(old(requests[r].phase)))
    {
      Meanwhile(await.meanwhile, r);
      if await.fails {
        ghost var before := Machine();
        SetPhase(r, AfterFailure(requests[r].phase));
        Log(Act(r, StatementFails), before);
      }
      return !await.fails;
    }

    /** purgeExpired, after the test and write of lastPurgeAt. */
    method DeleteExpired(r: nat)
      requires Valid() && r in requests && requests[r].phase.Purging?
      modifies this
      ensures Valid() && r in requests && requests[r] == old(requests[r]).(phase := Finding)
      ensures old(history) <= history && Machine() == Step(ttlMs, old(Machine()), Act(r, Statement))
      ensures records == Purged(old(records), old(requests[r].now))
    {
      ghost var before := Machine();
      records := Purged(records, requests[r].now);
      SetPhase(r, Finding);
      Log(Act(r, Statement), before);
    }

    /** findOne({ key, scope }), and what is made of the record it finds. */
    method FindOne(r: nat)
      requires Valid() && r in requests && requests[r].phase.Finding?
      modifies this
      ensures Valid() && r in requests && old(history) <= history
      ensures Machine() == Step(ttlMs, old(Machine()), Act(r, Statement)) && records == old(records)
      ensures requests[r] == old(requests[r]).(phase := AfterFind(old(records), old(requests[r])))
    {
      ghost var before := Machine();
      var request := requests[r];
      var next := Inserting;
      if request.slot in records {
        var existing := records[request.slot];
        if existing.expiresAt <= request.now {
          next := DroppingExpired(existing.id);
        } else if existing.requestHash != request.hash {
          next := Answered(BodyMismatch);
        } else if existing.response.None? {
          next := Answered(InProgressConflict);
        } else {
          next := Answered(Replayed(existing.response.value));
        }
      }
      SetPhase(r, next);
      Log(Act(r, Statement), before);
    }

    /** delete({ id: existing.id }). */
    method DeleteRecord(r: nat, id: nat)
      requires Valid() && r in requests && requests[r].phase == DroppingExpired(id)
      modifies this
      ensures Valid() && r in requests && requests[r] == old(requests[r]).(phase := Inserting)
      ensures old(history) <= history && Machine() == Step(ttlMs, old(Machine()), Act(r, Statement))
      ensures records == Deleted(old(records), id)
    {
      ghost var before := Machine();
      records := Deleted(records, id);
      SetPhase(r, Inserting);
      Log(Act(r, Statement), before);
    }

    /** save(create(...)): false is the unique violation. */
    method Insert(r: nat) returns (saved: bool)
      requires Valid() && r in requests && requests[r].phase.Inserting?
      modifies this
      ensures Valid() && r in requests && old(history) <= history
      ensures Machine() == Step(ttlMs, old(Machine()), Act(r, Statement))
      ensures saved <==> requests[r].slot !in old(records)
      ensures requests[r] == old(requests[r]).(phase := if saved then Running else Answered(InProgressConflict))
      ensures saved ==> insertions == old(insertions) + [Insertion(r, clock)]
                        && records == old(records)[requests[r].slot := NewRecord(ttlMs, r, requests[r], None)]
      ensures !saved ==> insertions == old(insertions) && records == old(records)
    {
      ghost var before := Machine();
      var request := requests[r];
      saved := request.slot !in records;
      if saved {
        records := records[request.slot := Record(r, request.hash, None, request.now + ttlMs)];
        insertions := insertions + [Insertion(r, clock)];
      }
      SetPhase(r, if saved then Running else Answered(InProgressConflict));
      Log(Act(r, Statement), before);
    }

    /** complete's save: update the row, or insert it again when it was purged. */
    method Complete(r: nat, body: string) returns (saved: bool)
      requires Valid() && r in requests && requests[r].phase == Completing(body)
      modifies this
      ensures Valid() && r in requests && old(history) <= history
      ensures Machine() == Step(ttlMs, old(Machine()), Act(r, Statement))
      ensures var slot := requests[r].slot;
              saved <==> slot !in old(records) || old(records)[slot].id == r
      ensures requests[r] == old(requests[r]).(phase := if saved then Answered(Completed(body)) else Releasing(true))
      ensures records == if saved then old(records)[requests[r].slot := NewRecord(ttlMs, r, requests[r], Some(body))]
                         else old(records)
    {
      ghost var before := Machine();
      var request := requests[r];
      saved := request.slot !in records || records[request.slot].id == r;
      if saved {
        records := records[request.slot := Record(r, request.hash, Some(body), request.now + ttlMs)];
      }
      SetPhase(r, if saved then Answered(Completed(body)) else Releasing(true));
      Log(Act(r, Statement), before);
    }

    /** The deletion in catchError. */
    method Release(r: nat)
      requires Valid() && r in requests && requests[r].phase.Releasing?
      modifies this
      ensures Valid() && r in requests && old(history) <= history
      ensures Machine() == Step(ttlMs, old(Machine()), Act(r, Statement))
      ensures requests[r] == old(requests[r]).(phase := Released(old(requests[r].phase.succeeded)))
      ensures records == Deleted(old(records), r)
    {
      ghost var before := Machine();
      records := Deleted(records, r);
      SetPhase(r, Released(requests[r].phase.succeeded));
      Log(Act(r, Statement), before);
    }

    /** The part of begin that runs before its first `await`. */
    method Arrival(r: nat, inst: nat, slot: Slot, hash: string) returns (due: bool)
      requires Valid() && r !in requests
      modifies this
      ensures Valid() && r in requests && old(history) <= history
      ensures Machine() == Arrived(old(Machine()), r, inst, slot, hash)
      ensures due <==> PurgeIsDue(old(lastPurgeAt), inst, clock)
      ensures requests[r] == Request(slot, hash, old(clock), if due then Purging else Finding)
      ensures lastPurgeAt == if due then old(lastPurgeAt)[inst := clock] else old(lastPurgeAt)
    {
      ghost var before := Machine();
      var now := clock;
      due := now - LastPurge(lastPurgeAt, inst) >= PURGE_INTERVAL_MS;
      if due {
        lastPurgeAt := lastPurgeAt[inst := now];
      }
      requests := requests[r := Request(slot, hash, now, if due then Purging else Finding)];
      Log(Arrive(r, inst, slot, hash), before);
    }

    /** The awaited purge. */
    method Purge(r: nat, script: Script)
      requires Valid() && r in requests && requests[r].phase.Purging? && ForeignScript(script, r)
      modifies this
      ensures Valid() && r in requests && old(history) <= history
      ensures Play(ttlMs, Machine(), r, script, true) == Play(ttlMs, old(Machine()), r, script, true)
      ensures requests[r] == old(requests[r]).(phase :=
                if script.purge.fails then Answered(DatabaseFailed) else Finding)
    {
      PlayStep(ttlMs, Machine(), r, script, true);
      var done := Issue(r, script.purge);
      if done {
        DeleteExpired(r);
      }
    }

    /** The awaited lookup. */
    method Find(r: nat, script: Script)
      requires Valid() && r in requests && requests[r].phase.Finding? && ForeignScript(script, r)
      modifies this
      ensures Valid() && r in requests && old(history) <= history
      ensures Play(ttlMs, Machine(), r, script, true) == Play(ttlMs, old(Machine()), r, script, true)
      ensures requests[r] == old(requests[r]).(phase := requests[r].phase)
      ensures requests[r].phase.DroppingExpired? || requests[r].phase.Inserting?
              || (requests[r].phase.Answered? && !requests[r].phase.outcome.Completed?)
    {
      PlayStep(ttlMs, Machine(), r, script, true);
      var done := Issue(r, script.find);
      if done {
        FindOne(r);
      }
    }

    /** The awaited deletion of an expired record. */
    method Drop(r: nat, script: Script)
      requires Valid() && r in requests && requests[r].phase.DroppingExpired? && ForeignScript(script, r)
      modifies this
      ensures Valid() && r in requests && old(history) <= history
      ensures Play(ttlMs, Machine(), r, script, true) == Play(ttlMs, old(Machine()), r, script, true)
      ensures requests[r] == old(requests[r]).(phase :=
                if script.drop.fails then Answered(DatabaseFailed) else Inserting)
    {
      PlayStep(ttlMs, Machine(), r, script, true);
      var done := Issue(r, script.drop);
      if done {
        DeleteRecord(r, requests[r].phase.id);
      }
    }

    /** The awaited insert. */
    method Claim(r: nat, script: Script)
      requires Valid() && r in requests && requests[r].phase.Inserting? && ForeignScript(script, r)
      modifies this
      ensures Valid() && r in requests && old(history) <= history
      ensures Play(ttlMs, Machine(), r, script, true) == Play(ttlMs, old(Machine()), r, script, true)
      ensures requests[r] == old(requests[r]).(phase := requests[r].phase)
      ensures requests[r].phase.Running? || (requests[r].phase.Answered? && !requests[r].phase.outcome.Completed?)
    {
      PlayStep(ttlMs, Machine(), r, script, true);
      var done := Issue(r, script.insert);
      if done {
        var saved := Insert(r);
      }
    }

    /** begin, after the purge. */
    method Lookup(r: nat, script: Script)
      requires Valid() && r in requests && requests[r].phase.Finding? && ForeignScript(script, r)
      modifies this
      ensures Valid() && r in requests && old(history) <= history
      ensures Machine() == Play(ttlMs, old(Machine()), r, script, true)
      ensures requests[r] == old(requests[r]).(phase := requests[r].phase)
      ensures requests[r].phase.Running? || (requests[r].phase.Answered? && !requests[r].phase.outcome.Completed?)
    {
      Find(r, script);
      if requests[r].phase.DroppingExpired? {
        Drop(r, script);
      }
      if requests[r].phase.Inserting? {
        Claim(r, script);
      }
    }

    /** begin: purge, look up, drop an expired record, insert. */
    method Begin(r: nat, inst: nat, slot: Slot, hash: string, script: Script) returns (begun: Begun)
      requires Valid() && r !in requests && ForeignScript(script, r)
      modifies this
      ensures Valid() && r in requests && old(history) <= history
      ensures Machine() == Play(ttlMs, Arrived(old(Machine()), r, inst, slot, hash), r, script, true)
      ensures requests[r] == Request(slot, hash, old(clock), requests[r].phase)
      ensures match begun
              case Fresh => requests[r].phase == Running
              case Replay(body) => requests[r].phase == Answered(Replayed(body))
              case Throws(outcome) =>
                requests[r].phase == Answered(outcome) && !outcome.Replayed? && !outcome.Completed?
    {
      var due := Arrival(r, inst, slot, hash);
      if due {
        Purge(r, script);
      }
      if requests[r].phase.Finding? {
        Lookup(r, script);
      }
      if requests[r].phase.Running? {
        return Fresh;
      }
      var outcome := requests[r].phase.outcome;
      return if outcome.Replayed? then Replay(outcome.body) else Throws(outcome);
    }

    /** The handler. */
    method CallHandler(r: nat, script: Script)
      requires Valid() && r in requests && requests[r].phase.Running? && ForeignScript(script, r)
      modifies this
      ensures Valid() && r in requests && old(history) <= history
      ensures Play(ttlMs, Machine(), r, script, false) == Play(ttlMs, old(Machine()), r, script, false)
      ensures requests[r] == old(requests[r]).(phase :=
                if script.handler.Some? then Completing(script.handler.value) else Releasing(false))
    {
      PlayStep(ttlMs, Machine(), r, script, false);
      Meanwhile(script.handling, r);
      ghost var before := Machine();
      if script.handler.Some? {
        SetPhase(r, Completing(script.handler.value));
        Log(Act(r, HandlerReturns(script.handler.value)), before);
      } else {
        SetPhase(r, Releasing(false));
        Log(Act(r, HandlerThrows), before);
      }
    }

    /** The awaited write of the response. */
    method StoreResponse(r: nat, script: Script)
      requires Valid() && r in requests && requests[r].phase.Completing? && ForeignScript(script, r)
      modifies this
      ensures Valid() && r in requests && old(history) <= history
      ensures Play(ttlMs, Machine(), r, script, false) == Play(ttlMs, old(Machine()), r, script, false)
      ensures requests[r] == old(requests[r]).(phase := requests[r].phase)
      ensures requests[r].phase == Answered(Completed(old(requests[r].phase.body)))
              || requests[r].phase == Releasing(true)
    {
      PlayStep(ttlMs, Machine(), r, script, false);
      var done := Issue(r, script.complete);
      if done {
        var saved := Complete(r, requests[r].phase.body);
      }
    }

    /** The awaited release of the key. */
    method GiveBack(r: nat, script: Script)
      requires Valid() && r in requests && requests[r].phase.Releasing? && ForeignScript(script, r)
      modifies this
      ensures Valid() && r in requests && old(history) <= history
      ensures Machine() == Play(ttlMs, old(Machine()), r, script, false)
      ensures requests[r] == old(requests[r]).(phase := Released(old(requests[r].phase.succeeded)))
      ensures !script.release.fails ==> HasNoRecord(r)
    {
      PlayStep(ttlMs, Machine(), r, script, false);
      var done := Issue(r, script.release);
      if done {
        Release(r);
      }
    }

    ghost predicate HasNoRecord(r: nat)
      reads this
    {
      forall slot | slot in records :: records[slot].id != r
    }

    /** The handler and what follows it; whatever fails, the key is given back. */
    method Handle(r: nat, script: Script) returns (outcome: Outcome)
      requires Valid() && r in requests && requests[r].phase == Running && ForeignScript(script, r)
      modifies this
      ensures Valid() && r in requests && old(history) <= history
      ensures Machine() == Play(ttlMs, old(Machine()), r, script, false)
      ensures requests[r] == old(requests[r]).(phase := Answered(outcome))
      ensures outcome.Completed? ==> script.handler == Some(outcome.body)
      ensures outcome.HandlerFailed? <==> script.handler.None?
      ensures outcome.Completed? || outcome.HandlerFailed? || outcome.CompletionFailed?
      ensures !outcome.Completed? && !script.release.fails ==> HasNoRecord(r)
    {
      CallHandler(r, script);
      if script.handler.Some? {
        StoreResponse(r, script);
        if requests[r].phase.Answered? {
          return Completed(script.handler.value);
        }
      }
      GiveBack(r, script);
      return if script.handler.Some? then CompletionFailed else HandlerFailed;
    }

    /** intercept, for a request with an idempotency key. */
    method Intercept(r: nat, inst: nat, slot: Slot, hash: string, script: Script) returns (outcome: Outcome)
      requires Valid() && r !in requests && ForeignScript(script, r)
      modifies this
      ensures Valid() && r in requests && old(history) <= history
      ensures Machine() == Play(ttlMs, Arrived(old(Machine()), r, inst, slot, hash), r, script, false)
      ensures requests[r] == Request(slot, hash, old(clock), Answered(outcome))
      ensures outcome.Completed? ==> script.handler == Some(outcome.body)
      ensures outcome.Replayed? ==> exists a :: IsOrigin(Machine(), a, requests[r], outcome.body)
    {
      PlayThrough(ttlMs, Arrived(Machine(), r, inst, slot, hash), r, script);
      var begun := Begin(r, inst, slot, hash, script);
      match begun
      case Fresh => outcome := Handle(r, script);
      case Replay(body) =>
        outcome := Replayed(body);
        ReplaysAreStored(ttlMs, history, r);
      case Throws(thrown) => outcome := thrown;
    }
  }
}
