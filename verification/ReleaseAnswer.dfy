/**
 What a release makes of its session, await by await: the reservation, the row, the payout, the
 give-back, and what the caller is told. The machine's own steps appear here only as what happens in
 between.
 */
module ReleaseAnswer {
  import opened Base
  import opened EscrowRelease
  import opened EscrowReleaseService
  import opened Sessions

  type Told = Option<ReleaseError>

  function Put(s: State, r: nat, phase: Phase): State {
    if r < |s.releases| then s.(releases := s.releases[r := s.releases[r].(phase := phase)]) else s
  }

  function PutTx(s: State, r: nat, tx: Tx): State {
    if r < |s.releases| then s.(releases := s.releases[r := s.releases[r].(tx := tx)]) else s
  }

  /** The session is open and its released amount may move to this value. */
  predicate MayHold(s: State, released: int) {
    s.status == Open && 0 <= released && released <= s.deposit && released <= s.budget
  }

  /** After a thrown payout: the amount is given back if the session still takes it, the row is marked. */
  function Undone(onChain: bool, s: State, r: nat, amount: nat, script: Script): (State, Told) {
    var o := Run(onChain, s, script.giveBack.meanwhile);
    if !script.giveBack.succeeds then (Put(o, r, Unreturned), Some(StoreFailed))
    else
      var back := MayHold(o, o.released - amount);
      var t := o.(released := if back then o.released - amount else o.released);
      var m := Run(onChain, Put(t, r, MarkingFailed(back)), script.mark.meanwhile);
      (Put(m, r, Failed(back)), Some(if script.mark.succeeds then PayoutFailed else StoreFailed))
  }

  /** The payout: paid and stamped only when the wait returns for a transaction that succeeded. */
  function PaidOff(onChain: bool, s: State, r: nat, amount: nat, script: Script): (State, Told) {
    var o := Run(onChain, s, script.send.meanwhile);
    if !script.send.succeeds then Undone(onChain, Put(o, r, GivingBack), r, amount, script)
    else
      var w := Run(onChain, PutTx(Put(o, r, Waiting), r, Pending), script.wait.meanwhile);
      if script.wait.succeeds && r < |w.releases| && w.releases[r].tx == Succeeded then
        var t := Run(onChain, Put(w, r, Stamping), script.stamp.meanwhile);
        if script.stamp.succeeds then (Put(t, r, Completed), None) else (Put(t, r, Unstamped), Some(StoreFailed))
      else Undone(onChain, Put(w, r, GivingBack), r, amount, script)
  }

  /** An amount that is taken: its row first, then the payout if the contract is used. */
  function Carried(onChain: bool, s: State, r: nat, amount: nat, script: Script): (State, Told) {
    var o := Run(onChain, s, script.record.meanwhile);
    if !script.record.succeeds then (Put(o, r, Unrecorded), Some(StoreFailed))
    else if !onChain then (Put(o, r, Completed), None)
    else PaidOff(onChain, Put(o, r, Sending), r, amount, script)
  }

  /** A whole release: the amount is taken from an open session that holds it, or the refusal explained. */
  function Answered(onChain: bool, s: State, amount: nat, script: Script): (State, Told) {
    var r := |s.releases|;
    var asked := s.(releases := s.releases + [Release(amount, Reserving, NotSent)]);
    var o := Run(onChain, asked, script.reserve.meanwhile);
    if !script.reserve.succeeds then (Put(o, r, Refused), Some(StoreFailed))
    else if MayHold(o, o.released + amount) then
      Carried(onChain, Put(o.(released := o.released + amount), r, Recording), r, amount, script)
    else
      var t := Run(onChain, Put(o, r, Refused), script.explain.meanwhile);
      (t, Some(if !script.explain.succeeds then StoreFailed else if t.status != Open then NotOpen else ExceedsBalance))
  }

  // ---------------------------------------------------------------------------------------------
  // The machine does exactly this
  // ---------------------------------------------------------------------------------------------

  predicate StandsAt(s: State, r: nat, amount: nat, phase: Phase) {
    r < |s.releases| && s.releases[r].amount == amount && s.releases[r].phase == phase
  }

  /** The release ends in this state, and its caller is told this. */
  ghost predicate EndsAs(onChain: bool, s: State, r: nat, script: Script, end: (State, Told))
    requires r < |s.releases| && ForeignScript(script, r)
  {
    var t := Play(onChain, s, r, script);
    t == end.0 && !t.releases[r].phase.Refused? && ErrorOf(script, t.releases[r].phase, t.status) == end.1
  }

  lemma EndedStays(onChain: bool, s: State, r: nat, script: Script)
    requires r < |s.releases| && ForeignScript(script, r) && Ended(s.releases[r].phase)
    ensures Play(onChain, s, r, script) == s
  {
  }

  lemma NextTurn(onChain: bool, s: State, r: nat, amount: nat, phase: Phase, script: Script)
    requires StandsAt(s, r, amount, phase) && ForeignScript(script, r) && !Ended(phase)
    ensures StandsAt(Run(onChain, s, AwaitAt(script, phase).meanwhile), r, amount, phase)
    ensures var t := Next(onChain, s, r, AwaitAt(script, phase));
            r < |t.releases| && Play(onChain, s, r, script) == Play(onChain, t, r, script)
  {
    OthersKeep(onChain, s, AwaitAt(script, phase).meanwhile, r);
    PlayStep(onChain, s, r, script);
  }

  lemma HoldsIff(s: State, delta: int)
    ensures CanReserve(s, delta) <==> MayHold(s, s.released + delta)
  {
  }

  lemma PlaysAlike(onChain: bool, s: State, t: State, r: nat, script: Script, end: (State, Told))
    requires r < |s.releases| && r < |t.releases| && ForeignScript(script, r)
    requires Play(onChain, s, r, script) == Play(onChain, t, r, script) && EndsAs(onChain, t, r, script, end)
    ensures EndsAs(onChain, s, r, script, end)
  {
  }

  lemma EndsNow(onChain: bool, s: State, t: State, r: nat, script: Script, end: (State, Told))
    requires r < |s.releases| && r < |t.releases| && ForeignScript(script, r)
    requires Play(onChain, s, r, script) == t == end.0 && !t.releases[r].phase.Refused?
    requires ErrorOf(script, t.releases[r].phase, t.status) == end.1
    ensures EndsAs(onChain, s, r, script, end)
  {
  }

  lemma Marks(onChain: bool, s: State, r: nat, amount: nat, back: bool, script: Script)
    requires StandsAt(s, r, amount, MarkingFailed(back)) && ForeignScript(script, r)
    ensures var m := Run(onChain, s, script.mark.meanwhile);
            EndsAs(onChain, s, r, script,
                   (Put(m, r, Failed(back)), Some(if script.mark.succeeds then PayoutFailed else StoreFailed)))
  {
    NextTurn(onChain, s, r, amount, MarkingFailed(back), script);
    EndedStays(onChain, Next(onChain, s, r, script.mark), r, script);
  }

  lemma Undoes(onChain: bool, s: State, r: nat, amount: nat, script: Script)
    requires StandsAt(s, r, amount, GivingBack) && ForeignScript(script, r)
    ensures EndsAs(onChain, s, r, script, Undone(onChain, s, r, amount, script))
  {
    hide Run, Play, EndsAs;
    NextTurn(onChain, s, r, amount, GivingBack, script);
    var o, t := Run(onChain, s, script.giveBack.meanwhile), Next(onChain, s, r, script.giveBack);
    if script.giveBack.succeeds {
      var back := MayHold(o, o.released - amount);
      var taken: int := amount;
      HoldsIff(o, -taken);
      assert t == Put(o.(released := if back then o.released - amount else o.released), r, MarkingFailed(back));
      Marks(onChain, t, r, amount, back, script);
      PlaysAlike(onChain, s, t, r, script, Undone(onChain, s, r, amount, script));
    } else {
      EndedStays(onChain, t, r, script);
      EndsNow(onChain, s, t, r, script, Undone(onChain, s, r, amount, script));
    }
  }

  lemma Stamps(onChain: bool, s: State, r: nat, amount: nat, script: Script)
    requires StandsAt(s, r, amount, Stamping) && ForeignScript(script, r)
    ensures var t := Run(onChain, s, script.stamp.meanwhile);
            EndsAs(onChain, s, r, script,
                   if script.stamp.succeeds then (Put(t, r, Completed), None)
                   else (Put(t, r, Unstamped), Some(StoreFailed)))
  {
    NextTurn(onChain, s, r, amount, Stamping, script);
    EndedStays(onChain, Next(onChain, s, r, script.stamp), r, script);
  }

  lemma Waits(onChain: bool, s: State, r: nat, amount: nat, script: Script)
    requires StandsAt(s, r, amount, Waiting) && ForeignScript(script, r)
    ensures var w := Run(onChain, s, script.wait.meanwhile);
            if script.wait.succeeds && r < |w.releases| && w.releases[r].tx == Succeeded then
              var t := Run(onChain, Put(w, r, Stamping), script.stamp.meanwhile);
              EndsAs(onChain, s, r, script,
                     if script.stamp.succeeds then (Put(t, r, Completed), None)
                     else (Put(t, r, Unstamped), Some(StoreFailed)))
            else EndsAs(onChain, s, r, script, Undone(onChain, Put(w, r, GivingBack), r, amount, script))
  {
    NextTurn(onChain, s, r, amount, Waiting, script);
    var w, t := Run(onChain, s, script.wait.meanwhile), Next(onChain, s, r, script.wait);
    if script.wait.succeeds && w.releases[r].tx == Succeeded {
      Stamps(onChain, t, r, amount, script);
    } else {
      Undoes(onChain, t, r, amount, script);
    }
  }

  lemma PaysOff(onChain: bool, s: State, r: nat, amount: nat, script: Script)
    requires StandsAt(s, r, amount, Sending) && ForeignScript(script, r)
    ensures EndsAs(onChain, s, r, script, PaidOff(onChain, s, r, amount, script))
  {
    NextTurn(onChain, s, r, amount, Sending, script);
    var t := Next(onChain, s, r, script.send);
    if script.send.succeeds {
      assert t == PutTx(Put(Run(onChain, s, script.send.meanwhile), r, Waiting), r, Pending);
      Waits(onChain, t, r, amount, script);
    } else {
      Undoes(onChain, t, r, amount, script);
    }
  }

  lemma Carries(onChain: bool, s: State, r: nat, amount: nat, script: Script)
    requires StandsAt(s, r, amount, Recording) && ForeignScript(script, r)
    ensures EndsAs(onChain, s, r, script, Carried(onChain, s, r, amount, script))
  {
    NextTurn(onChain, s, r, amount, Recording, script);
    var t := Next(onChain, s, r, script.record);
    if script.record.succeeds && onChain {
      PaysOff(onChain, t, r, amount, script);
    } else {
      EndedStays(onChain, t, r, script);
    }
  }

  /** A release of the machine ends exactly as told above: the same session, the same answer. */
  lemma ReleaseAnswers(onChain: bool, s: State, amount: nat, script: Script)
    requires amount > 0 && ForeignScript(script, |s.releases|)
    ensures var r := |s.releases|;
            var end := Released(onChain, Step(onChain, s, Request(amount)), r, script);
            && r < |end.releases|
            && (end, ErrorOf(script, end.releases[r].phase, end.status)) == Answered(onChain, s, amount, script)
  {
    var r, asked := |s.releases|, Step(onChain, s, Request(amount));
    hide Run, Play, Carried, CanReserve;
    NextTurn(onChain, asked, r, amount, Reserving, script);
    var o, t := Run(onChain, asked, script.reserve.meanwhile), Next(onChain, asked, r, script.reserve);
    HoldsIff(o, amount);
    if script.reserve.succeeds && MayHold(o, o.released + amount) {
      assert t == Put(o.(released := o.released + amount), r, Recording);
      Carries(onChain, t, r, amount, script);
    } else {
      assert t == Put(o, r, Refused);
      EndedStays(onChain, t, r, script);
      if script.reserve.succeeds {
        OthersKeep(onChain, t, script.explain.meanwhile, r);
      }
    }
  }
}
