/**
 The release service as it runs on one session: each request goes through its statements while other
 requests, the chain and the session's status move at every `await`. What a script makes of a state is
 the function Play of the machine in EscrowRelease; every method is shown to compute it.
 */
module EscrowReleaseService {
  import opened Base
  import opened EscrowRelease
  import opened Sessions

  datatype ReleaseError = InvalidAmount | NotOpen | ExceedsBalance | StoreFailed | PayoutFailed

  /** What others do before a statement takes effect, and whether it succeeds. */
  datatype Await = Await(meanwhile: seq<Event>, succeeds: bool)

  datatype Script = Script(
    reserve: Await, explain: Await, record: Await, send: Await, wait: Await, stamp: Await, giveBack: Await, mark: Await)

  // ---------------------------------------------------------------------------------------------
  // A script played on the machine
  // ---------------------------------------------------------------------------------------------

  predicate Foreign(e: Event, r: nat) {
    e.Advance? ==> e.release != r
  }

  predicate AllForeign(es: seq<Event>, r: nat) {
    forall i | 0 <= i < |es| :: Foreign(es[i], r)
  }

  predicate ForeignScript(script: Script, r: nat) {
    && AllForeign(script.reserve.meanwhile, r) && AllForeign(script.explain.meanwhile, r)
    && AllForeign(script.record.meanwhile, r) && AllForeign(script.send.meanwhile, r)
    && AllForeign(script.wait.meanwhile, r) && AllForeign(script.stamp.meanwhile, r)
    && AllForeign(script.giveBack.meanwhile, r) && AllForeign(script.mark.meanwhile, r)
  }

  lemma ForeignStepKeeps(onChain: bool, s: State, e: Event, r: nat)
    requires r < |s.releases| && Foreign(e, r)
    ensures var t := Step(onChain, s, e);
            && r < |t.releases|
            && t.releases[r].phase == s.releases[r].phase && t.releases[r].amount == s.releases[r].amount
            && t.deposit == s.deposit && t.budget == s.budget
  {
  }

  lemma {:induction false} OthersKeep(onChain: bool, s: State, es: seq<Event>, r: nat)
    requires r < |s.releases| && AllForeign(es, r)
    ensures var t := Run(onChain, s, es);
            && r < |t.releases|
            && t.releases[r].phase == s.releases[r].phase && t.releases[r].amount == s.releases[r].amount
            && t.deposit == s.deposit && t.budget == s.budget
    decreases |es|
  {
    if |es| > 0 {
      OthersKeep(onChain, s, es[..|es| - 1], r);
      ForeignStepKeeps(onChain, Run(onChain, s, es[..|es| - 1]), es[|es| - 1], r);
    }
  }

  predicate Ended(phase: Phase) {
    phase.Completed? || phase.Failed? || phase.Refused?
    || phase.Unrecorded? || phase.Unstamped? || phase.Unreturned?
  }

  function AwaitAt(script: Script, phase: Phase): Await {
    match phase
    case Reserving => script.reserve
    case Recording => script.record
    case Sending => script.send
    case Waiting => script.wait
    case Stamping => script.stamp
    case GivingBack => script.giveBack
    case _ => script.mark
  }

  /** The others act, then the release's step takes effect; a wait without a success gives up. */
  function Next(onChain: bool, s: State, r: nat, await: Await): State {
    var o := Run(onChain, s, await.meanwhile);
    Step(onChain, o, Advance(r, await.succeeds && r < |o.releases| && MayAnswer(o, r)))
  }

  function Rank(phase: Phase): nat {
    match phase
    case Reserving => 7
    case Recording => 6
    case Sending => 5
    case Waiting => 4
    case Stamping => 3
    case GivingBack => 2
    case MarkingFailed(_) => 1
    case _ => 0
  }

  lemma NextAdvances(onChain: bool, s: State, r: nat, await: Await)
    requires r < |s.releases| && AllForeign(await.meanwhile, r) && !Ended(s.releases[r].phase)
    ensures var t := Next(onChain, s, r, await);
            r < |t.releases| && Rank(t.releases[r].phase) < Rank(s.releases[r].phase)
            && t.releases[r].amount == s.releases[r].amount
  {
    OthersKeep(onChain, s, await.meanwhile, r);
  }

  /** The state a release ends in when its steps go as the script says. */
  function Play(onChain: bool, s: State, r: nat, script: Script): (t: State)
    requires r < |s.releases| && ForeignScript(script, r)
    ensures r < |t.releases| && Ended(t.releases[r].phase)
    decreases Rank(s.releases[r].phase)
  {
    if Ended(s.releases[r].phase) then s
    else
      NextAdvances(onChain, s, r, AwaitAt(script, s.releases[r].phase));
      Play(onChain, Next(onChain, s, r, AwaitAt(script, s.releases[r].phase)), r, script)
  }

  lemma PlayStep(onChain: bool, s: State, r: nat, script: Script)
    requires r < |s.releases| && ForeignScript(script, r) && !Ended(s.releases[r].phase)
    ensures var t := Next(onChain, s, r, AwaitAt(script, s.releases[r].phase));
            r < |t.releases| && Play(onChain, t, r, script) == Play(onChain, s, r, script)
  {
    NextAdvances(onChain, s, r, AwaitAt(script, s.releases[r].phase));
  }

  /** release: the machine's play, and the second look at the session that explains a refusal. */
  function Released(onChain: bool, s: State, r: nat, script: Script): State
    requires r < |s.releases| && ForeignScript(script, r)
  {
    var t := Play(onChain, s, r, script);
    if t.releases[r].phase.Refused? && script.reserve.succeeds then Run(onChain, t, script.explain.meanwhile) else t
  }

  /** What the caller is told in the phase the release ended in. */
  function ErrorOf(script: Script, phase: Phase, status: SessionStatus): Option<ReleaseError> {
    match phase
    case Completed => None
    case Refused =>
      if !script.reserve.succeeds || !script.explain.succeeds then Some(StoreFailed)
      else if !status.Open? then Some(NotOpen)
      else Some(ExceedsBalance)
    case Failed(_) => Some(if script.mark.succeeds then PayoutFailed else StoreFailed)
    case _ => Some(StoreFailed)
  }

  lemma RunNext(onChain: bool, s: State, es: seq<Event>, k: nat)
    requires k < |es|
    ensures Run(onChain, s, es[..k + 1]) == Step(onChain, Run(onChain, s, es[..k]), es[k])
  {
    assert es[..k + 1][..k] == es[..k];
  }

  // ---------------------------------------------------------------------------------------------
  // The service
  // ---------------------------------------------------------------------------------------------

  class EscrowSession {
    const onChain: bool
    const depositAmount: nat
    const budgetLimit: nat
    var releasedAmount: int
    var status: SessionStatus
    var hubSpent: nat
    var hubPays: bool
    var releases: seq<Release>
    ghost var history: seq<Event>

    function Machine(): State
      reads this
    {
      State(depositAmount, budgetLimit, releasedAmount, status, hubSpent, hubPays, releases)
    }

    ghost predicate Valid()
      reads this
    {
      Machine() == Run(onChain, Start(depositAmount, budgetLimit), history)
    }

    constructor (onChain: bool, depositAmount: nat, budgetLimit: nat)
      ensures Valid() && this.onChain == onChain && Machine() == Start(depositAmount, budgetLimit)
    {
      this.onChain, this.depositAmount, this.budgetLimit := onChain, depositAmount, budgetLimit;
      releasedAmount, status, hubSpent, hubPays, releases, history := 0, Open, 0, true, [], [];
    }

    /** Records the event that led from `before` to what the fields now show. */
    ghost method Log(e: Event, before: State)
      requires before == Run(onChain, Start(depositAmount, budgetLimit), history)
      requires Machine() == Step(onChain, before, e)
      modifies this`history
      ensures Valid() && history == old(history) + [e]
    {
      RunSnoc(onChain, Start(depositAmount, budgetLimit), history, e);
      history := history + [e];
    }

    /** The others act at an `await`. */
    method Meanwhile(es: seq<Event>, r: nat)
      requires Valid() && r < |releases| && AllForeign(es, r)
      modifies this
      ensures Valid() && old(history) <= history && Machine() == Run(onChain, old(Machine()), es)
      ensures r < |releases| && releases[r].phase == old(releases[r].phase)
              && releases[r].amount == old(releases[r].amount)
    {
      for k := 0 to |es|
        invariant Valid() && old(history) <= history && Machine() == Run(onChain, old(Machine()), es[..k])
      {
        ghost var before := Machine();
        OthersKeep(onChain, old(Machine()), es[..k], r);
        ForeignStepKeeps(onChain, before, es[k], r);
        RunNext(onChain, old(Machine()), es, k);
        var t := Step(onChain, Machine(), es[k]);
        releasedAmount, status, hubSpent, hubPays, releases := t.released, t.status, t.hubSpent, t.hubPays, t.releases;
        Log(es[k], before);
      }
      assert es[..|es|] == es;
      OthersKeep(onChain, old(Machine()), es, r);
    }

    /** The conditional update; true when a row changed. */
    method Reserve(delta: int) returns (changed: bool)
      modifies this`releasedAmount
      ensures changed <==> CanReserve(old(Machine()), delta)
      ensures releasedAmount == old(releasedAmount) + if changed then delta else 0
    {
      changed := status.Open? && releasedAmount + delta >= 0
                 && releasedAmount + delta <= depositAmount && releasedAmount + delta <= budgetLimit;
      if changed {
        releasedAmount := releasedAmount + delta;
      }
    }

    /** The reservation: refused when the amount does not fit or the session is not open. */
    method TakeAmount(r: nat, script: Script)
      requires Valid() && r < |releases| && releases[r].phase.Reserving? && ForeignScript(script, r)
      modifies this
      ensures Valid() && r < |releases| && old(history) <= history
      ensures Play(onChain, Machine(), r, script) == Play(onChain, old(Machine()), r, script)
      ensures releases[r].phase.Recording? || releases[r].phase.Refused?
      ensures releases[r].phase.Recording? ==> script.reserve.succeeds
      ensures releases[r].phase.Refused? && script.reserve.succeeds ==> !CanReserve(Machine(), releases[r].amount)
      ensures releases[r].amount == old(releases[r].amount)
    {
      PlayStep(onChain, Machine(), r, script);
      Meanwhile(script.reserve.meanwhile, r);
      ghost var before := Machine();
      var reserved := false;
      if script.reserve.succeeds {
        reserved := Reserve(releases[r].amount);
      }
      releases := releases[r := releases[r].(phase := if reserved then Recording else Refused)];
      Log(Advance(r, script.reserve.succeeds), before);
    }

    /** The insert of the release row. */
    method Record(r: nat, script: Script)
      requires Valid() && r < |releases| && releases[r].phase.Recording? && ForeignScript(script, r)
      modifies this
      ensures Valid() && r < |releases| && old(history) <= history
      ensures Play(onChain, Machine(), r, script) == Play(onChain, old(Machine()), r, script)
      ensures releases[r].phase
           == if !script.record.succeeds then Unrecorded else if onChain then Sending else Completed
    {
      PlayStep(onChain, Machine(), r, script);
      Meanwhile(script.record.meanwhile, r);
      ghost var before := Machine();
      var next := Unrecorded;
      if script.record.succeeds {
        next := if onChain then Sending else Completed;
      }
      releases := releases[r := releases[r].(phase := next)];
      Log(Advance(r, script.record.succeeds), before);
    }

    /** The broadcast of settleBatch. */
    method Send(r: nat, script: Script)
      requires Valid() && r < |releases| && releases[r].phase.Sending? && ForeignScript(script, r)
      modifies this
      ensures Valid() && r < |releases| && old(history) <= history
      ensures Play(onChain, Machine(), r, script) == Play(onChain, old(Machine()), r, script)
      ensures releases[r].phase == if script.send.succeeds then Waiting else GivingBack
      ensures script.send.succeeds ==> releases[r].tx.Pending?
    {
      PlayStep(onChain, Machine(), r, script);
      Meanwhile(script.send.meanwhile, r);
      ghost var before := Machine();
      if script.send.succeeds {
        releases := releases[r := releases[r].(phase := Waiting, tx := Pending)];
      } else {
        releases := releases[r := releases[r].(phase := GivingBack)];
      }
      Log(Advance(r, script.send.succeeds), before);
    }

    /** waitFor: returns for a transaction that succeeded, throws otherwise. */
    method WaitForPayout(r: nat, script: Script)
      requires Valid() && r < |releases| && releases[r].phase.Waiting? && ForeignScript(script, r)
      modifies this
      ensures Valid() && r < |releases| && old(history) <= history
      ensures Play(onChain, Machine(), r, script) == Play(onChain, old(Machine()), r, script)
      ensures releases[r].phase == if script.wait.succeeds && releases[r].tx.Succeeded? then Stamping else GivingBack
    {
      PlayStep(onChain, Machine(), r, script);
      Meanwhile(script.wait.meanwhile, r);
      ghost var before := Machine();
      var returned := script.wait.succeeds && releases[r].tx.Succeeded?;
      releases := releases[r := releases[r].(phase := if returned then Stamping else GivingBack)];
      Log(Advance(r, returned), before);
    }

    /** The save of the transaction hash. */
    method StampHash(r: nat, script: Script)
      requires Valid() && r < |releases| && releases[r].phase.Stamping? && ForeignScript(script, r)
      modifies this
      ensures Valid() && r < |releases| && old(history) <= history
      ensures Play(onChain, Machine(), r, script) == Play(onChain, old(Machine()), r, script)
      ensures releases[r].phase == if script.stamp.succeeds then Completed else Unstamped
    {
      PlayStep(onChain, Machine(), r, script);
      Meanwhile(script.stamp.meanwhile, r);
      ghost var before := Machine();
      releases := releases[r := releases[r].(phase := if script.stamp.succeeds then Completed else Unstamped)];
      Log(Advance(r, script.stamp.succeeds), before);
    }

    /** `reserve(-amount)` after a thrown payout, whose answer is not looked at. */
    method GiveBack(r: nat, script: Script)
      requires Valid() && r < |releases| && releases[r].phase.GivingBack? && ForeignScript(script, r)
      modifies this
      ensures Valid() && r < |releases| && old(history) <= history
      ensures Play(onChain, Machine(), r, script) == Play(onChain, old(Machine()), r, script)
      ensures if script.giveBack.succeeds then releases[r].phase.MarkingFailed? else releases[r].phase.Unreturned?
      ensures releases[r].phase.MarkingFailed? && releases[r].phase.givenBack ==> status.Open?
    {
      PlayStep(onChain, Machine(), r, script);
      Meanwhile(script.giveBack.meanwhile, r);
      ghost var before := Machine();
      var next := Unreturned;
      if script.giveBack.succeeds {
        var amount: int := releases[r].amount;
        var changed := Reserve(-amount);
        next := MarkingFailed(changed);
      }
      releases := releases[r := releases[r].(phase := next)];
      Log(Advance(r, script.giveBack.succeeds), before);
    }

    /** The save of the row as failed. */
    method MarkFailed(r: nat, script: Script)
      requires Valid() && r < |releases| && releases[r].phase.MarkingFailed? && ForeignScript(script, r)
      modifies this
      ensures Valid() && r < |releases| && old(history) <= history
      ensures Play(onChain, Machine(), r, script) == Play(onChain, old(Machine()), r, script)
      ensures releases[r].phase == Failed(old(releases[r].phase.givenBack))
    {
      PlayStep(onChain, Machine(), r, script);
      Meanwhile(script.mark.meanwhile, r);
      ghost var before := Machine();
      releases := releases[r := releases[r].(phase := Failed(releases[r].phase.givenBack))];
      Log(Advance(r, script.mark.succeeds), before);
    }

    /** payOut and its catch. */
    method PayOut(r: nat, script: Script)
      requires Valid() && r < |releases| && releases[r].phase.Sending? && ForeignScript(script, r)
      modifies this
      ensures Valid() && r < |releases| && old(history) <= history
      ensures Machine() == Play(onChain, old(Machine()), r, script)
      ensures Ended(releases[r].phase) && !releases[r].phase.Refused?
    {
      Send(r, script);
      if releases[r].phase.Waiting? {
        WaitForPayout(r, script);
      }
      if releases[r].phase.Stamping? {
        StampHash(r, script);
      } else {
        GiveBack(r, script);
        if releases[r].phase.MarkingFailed? {
          MarkFailed(r, script);
        }
      }
    }

    /** A refused reservation: the session is read again to say why. */
    method Explain(r: nat, script: Script) returns (error: ReleaseError)
      requires Valid() && r < |releases| && releases[r].phase.Refused? && ForeignScript(script, r)
      modifies this
      ensures Valid() && r < |releases| && old(history) <= history
      ensures Machine() == Released(onChain, old(Machine()), r, script)
      ensures Some(error) == ErrorOf(script, releases[r].phase, status)
    {
      if !script.reserve.succeeds {
        return StoreFailed;
      }
      Meanwhile(script.explain.meanwhile, r);
      if !script.explain.succeeds {
        return StoreFailed;
      }
      return if !status.Open? then NotOpen else ExceedsBalance;
    }

    /** An accepted request: the row, the payout, and what the caller is told. */
    method Carry(r: nat, script: Script) returns (error: Option<ReleaseError>)
      requires Valid() && r < |releases| && releases[r].phase.Recording? && ForeignScript(script, r)
      modifies this
      ensures Valid() && r < |releases| && old(history) <= history
      ensures Machine() == Play(onChain, old(Machine()), r, script) && !releases[r].phase.Refused?
      ensures error == ErrorOf(script, releases[r].phase, status)
    {
      Record(r, script);
      if releases[r].phase.Sending? {
        PayOut(r, script);
      }
      if releases[r].phase.Completed? {
        error := None;
      } else if releases[r].phase.Failed? {
        error := Some(if script.mark.succeeds then PayoutFailed else StoreFailed);
      } else {
        error := Some(StoreFailed);
      }
    }

    /** A request from its reservation on. */
    method Proceed(r: nat, script: Script) returns (error: Option<ReleaseError>)
      requires Valid() && r < |releases| && releases[r].phase.Reserving? && ForeignScript(script, r)
      modifies this
      ensures Valid() && r < |releases| && old(history) <= history
      ensures Machine() == Released(onChain, old(Machine()), r, script)
      ensures error == ErrorOf(script, releases[r].phase, status)
    {
      TakeAmount(r, script);
      if releases[r].phase.Refused? {
        var why := Explain(r, script);
        error := Some(why);
      } else {
        error := Carry(r, script);
      }
    }

    /** release: the state and the answer are those the script gives on the state it is called in. */
    method Release(amount: int, script: Script) returns (error: Option<ReleaseError>)
      requires Valid() && ForeignScript(script, |releases|)
      modifies this
      ensures Valid() && old(history) <= history
      ensures amount <= 0 ==> error == Some(InvalidAmount) && Machine() == old(Machine())
      ensures amount > 0 ==>
                var r := |old(releases)|; var s := Step(onChain, old(Machine()), Request(amount));
                && r < |releases| && Machine() == Released(onChain, s, r, script)
                && error == ErrorOf(script, releases[r].phase, status)
    {
      if amount <= 0 {
        return Some(InvalidAmount);
      }
      ghost var before := Machine();
      var r := |releases|;
      releases := releases + [EscrowRelease.Release(amount, Reserving, NotSent)];
      Log(Request(amount), before);
      error := Proceed(r, script);
    }
  }
}
