/** Which target the daemon drives, and the configurators and outputs it owns for it
    (internal/daemon/daemon.go: `runSession`, `handleChildEvent`, `activateTarget`, `closeTarget`). */
module Daemon {
  import opened Common

  const DEFAULT_NAME := "MX Master 3S"

  /** The configured device: an empty name and a zero index are wildcards. */
  datatype Selector = Selector(name: string, index: byte)

  datatype Metadata = Metadata(name: string, index: byte)

  /** A child handle; handles are compared by their wireless index. */
  datatype Child = Child(id: nat, index: byte)

  predicate Matches(m: Metadata, s: Selector) {
    var name := if s.name == "" && s.index == 0 then DEFAULT_NAME else s.name;
    (name != "" ==> m.name == name) && (s.index != 0 ==> m.index == s.index)
  }

  /** A device is selected by name and index if both are configured, by the one that is, and by the
      default name if neither is. */
  lemma MatchesMeans(m: Metadata, s: Selector)
    ensures s.name != "" && s.index != 0 ==> (Matches(m, s) <==> m.name == s.name && m.index == s.index)
    ensures s.name != "" && s.index == 0 ==> (Matches(m, s) <==> m.name == s.name)
    ensures s.name == "" && s.index != 0 ==> (Matches(m, s) <==> m.index == s.index)
    ensures s.name == "" && s.index == 0 ==> (Matches(m, s) <==> m.name == "MX Master 3S")
  {
  }

  predicate SameChild(a: Option<Child>, b: Option<Child>) {
    a.Some? && b.Some? && a.value.index == b.value.index
  }

  datatype Kind = Ready | Sleeping | Removed | Other

  /** `metadata` is the child's present metadata when there is a child, else the event's own. */
  datatype ChildEvent = ChildEvent(kind: Kind, child: Option<Child>, metadata: Metadata)

  // ---- What the environment answers during one activation ----

  datatype Made = Made | MadeNil | MakeRecoverable | MakeFatal
  datatype Applied = Applied | FeatureMissing | ApplyRecoverable | ApplyFatal
  datatype Started = Started | StartedNil | StartFailed

  /** `closeFails` is about the target that is replaced: it is released, but with an error. */
  datatype Attempt = Attempt(closeFails: bool, made: Made, applied: Applied, outputOpened: bool, started: Started)

  predicate Succeeds(a: Attempt) {
    a.made.Made? && (a.applied.Applied? || a.applied.FeatureMissing?) && a.outputOpened && a.started.Started?
  }

  predicate Defers(a: Attempt) {
    a.made.MakeRecoverable? || (a.made.Made? && a.applied.ApplyRecoverable?)
  }

  datatype ActiveTarget = ActiveTarget(child: Option<Child>, configurator: nat, output: nat)

  datatype Activation = Configured(target: ActiveTarget) | Retry | Failed

  datatype Step = OnChild(event: ChildEvent, attempt: Attempt) | OnRetryTimer(stillReady: bool, attempt: Attempt)

  /** Something that must be closed: a configurator or an input output. */
  datatype Resource = ConfiguratorOf(id: nat) | OutputOf(id: nat)

  function Held(t: Option<ActiveTarget>): set<Resource> {
    if t.Some? then {ConfiguratorOf(t.value.configurator), OutputOf(t.value.output)} else {}
  }

  /** What is open is what is held or lost, and two things were lost per drop. */
  predicate Accounts(open: set<Resource>, held: set<Resource>, lost: set<Resource>, drops: nat) {
    open == held + lost && held !! lost && |lost| == 2 * drops
  }

  lemma AccountsAfterClose(open: set<Resource>, held: set<Resource>, lost: set<Resource>, drops: nat)
    requires Accounts(open, held, lost, drops)
    ensures Accounts(open - held, {}, lost, drops)
  {
  }

  lemma AccountsAfterOpen(open: set<Resource>, held: set<Resource>, lost: set<Resource>, drops: nat,
                          more: set<Resource>)
    requires Accounts(open, held, lost, drops) && open !! more && |held| in {0, 2}
    ensures Accounts(open + more, more, lost + held, drops + |held| / 2)
  {
    assert open + more == more + (lost + held);
    assert |lost + held| == |lost| + |held|;
  }

  /** The decisions of the event handler. */
  datatype Decision = Ignore | End | Begin

  predicate Named(event: ChildEvent) {
    event.child.Some? || event.metadata != Metadata("", 0)
  }

  /** The active target goes to sleep or is removed. */
  predicate EndsTarget(event: ChildEvent, selector: Selector, driven: Option<Option<Child>>) {
    && Named(event) && (event.kind.Sleeping? || event.kind.Removed?) && driven.Some?
    && (SameChild(driven.value, event.child) || Matches(event.metadata, selector))
  }

  /** A selected child that is not the active one becomes ready. */
  predicate BeginsTarget(event: ChildEvent, selector: Selector, driven: Option<Option<Child>>) {
    && Named(event) && event.kind.Ready? && Matches(event.metadata, selector)
    && !(driven.Some? && SameChild(driven.value, event.child))
  }

  // ---- The select loop without its resources ----

  /** The child of the active target, the child of the armed retry timer, and whether the session
      has ended with an error. */
  datatype Situation = Situation(driven: Option<Option<Child>>, retry: Option<Option<Child>>, failed: bool)

  const START := Situation(None, None, false)

  /** A deferred target arms the timer, the end of a target disarms it, and a ready event leaves it
      as it is. */
  function Turn(selector: Selector, s: Situation, step: Step): Situation {
    if s.failed then s
    else
      match step
      case OnChild(event, attempt) => ChildTurn(selector, s, event, attempt)
      case OnRetryTimer(stillReady, attempt) => RetryTurn(s, stillReady, attempt)
  }

  function ChildTurn(selector: Selector, s: Situation, event: ChildEvent, attempt: Attempt): Situation {
    if EndsTarget(event, selector, s.driven) then Situation(None, None, false)
    else if BeginsTarget(event, selector, s.driven) then
      if s.driven.Some? && attempt.closeFails then Situation(None, s.retry, true)
      else Situation(if Succeeds(attempt) then Some(event.child) else None,
                     if Defers(attempt) then Some(event.child) else s.retry,
                     !Succeeds(attempt) && !Defers(attempt))
    else if event.kind.Sleeping? || event.kind.Removed? then s.(retry := None)
    else s
  }

  function RetryTurn(s: Situation, stillReady: bool, attempt: Attempt): Situation {
    if s.retry.None? || (s.retry.value.Some? && !stillReady) then s.(retry := None)
    else if Succeeds(attempt) then Situation(Some(s.retry.value), None, s.failed)
    else if Defers(attempt) then s
    else Situation(s.driven, None, true)
  }

  function After(selector: Selector, script: seq<Step>): Situation {
    if script == [] then START
    else Turn(selector, After(selector, script[..|script| - 1]), script[|script| - 1])
  }

  /** The guard of the losing branch: the timer activates a target while another one is active. */
  predicate LosesTarget(step: Step, s: Situation) {
    && !s.failed && step.OnRetryTimer? && s.retry.Some? && (s.retry.value.None? || step.stillReady)
    && Succeeds(step.attempt) && s.driven.Some?
  }

  function Losses(selector: Selector, script: seq<Step>): nat {
    if script == [] then 0
    else
      var earlier := script[..|script| - 1];
      Losses(selector, earlier) + if LosesTarget(script[|script| - 1], After(selector, earlier)) then 1 else 0
  }

  lemma {:induction false} FailedForGood(selector: Selector, script: seq<Step>, i: nat)
    requires i <= |script| && After(selector, script[..i]).failed
    ensures After(selector, script) == After(selector, script[..i])
    ensures Losses(selector, script) == Losses(selector, script[..i])
  {
    if i == |script| {
      assert script[..i] == script;
    } else {
      var earlier := script[..|script| - 1];
      assert earlier[..i] == script[..i];
      FailedForGood(selector, earlier, i);
    }
  }

  lemma OneMore(selector: Selector, script: seq<Step>, i: nat)
    requires i < |script|
    ensures var s := After(selector, script[..i]);
            && After(selector, script[..i + 1]) == Turn(selector, s, script[i])
            && Losses(selector, script[..i + 1]) == Losses(selector, script[..i])
                 + if LosesTarget(script[i], s) then 1 else 0
  {
    assert script[..i + 1][..i] == script[..i];
  }

  predicate LosesAt(selector: Selector, script: seq<Step>, i: nat)
    requires i < |script|
  {
    LosesTarget(script[i], After(selector, script[..i]))
  }

  /** A run loses nothing if and only if the retry timer never activates a target over an active
      one. */
  lemma {:induction false} NothingLostExactlyWhen(selector: Selector, script: seq<Step>)
    ensures Losses(selector, script) == 0 <==> forall i | 0 <= i < |script| :: !LosesAt(selector, script, i)
  {
    if script != [] {
      var n := |script| - 1;
      NothingLostExactlyWhen(selector, script[..n]);
      forall i | 0 <= i < n ensures LosesAt(selector, script, i) == LosesAt(selector, script[..n], i) {
        assert script[..n][..i] == script[..i];
      }
      assert LosesAt(selector, script, n) <==> LosesTarget(script[n], After(selector, script[..n]));
    }
  }

  class Session {
    const selector: Selector
    var active: Option<ActiveTarget>

    /** The armed retry timer, with the child it is for. */
    var retry: Option<Option<Child>>
    var next: nat

    /** Acquired and not yet released. */
    ghost var open: set<Resource>

    /** Targets that were replaced without being closed, and what they still hold. */
    ghost var drops: nat
    ghost var lost: set<Resource>

    /** Everything acquired belongs to the active target or was lost with a dropped one. */
    ghost predicate Valid()
      reads this`active, this`open, this`next, this`drops, this`lost
    {
      && Accounts(open, Held(active), lost, drops)
      && Numbered()
    }

    ghost predicate Numbered()
      reads this`open, this`next
    {
      forall r | r in open :: r.id < next
    }

    function Driven(): Option<Option<Child>>
      reads this`active
    {
      if active.Some? then Some(active.value.child) else None
    }

    twostate predicate NothingLost()
      reads this`drops, this`lost
    {
      drops == old(drops) && lost == old(lost)
    }

    constructor (selector: Selector)
      ensures Valid() && this.selector == selector && active == None && retry == None && drops == 0
    {
      this.selector := selector;
      active, retry, next := None, None, 0;
      open, drops, lost := {}, 0, {};
    }

    /** Whatever fails on the way, what was acquired so far is released again. */
    method ActivateTarget(child: Option<Child>, attempt: Attempt) returns (r: Activation)
      requires Numbered()
      modifies this`next, this`open
      ensures Numbered()
      ensures r.Configured? <==> Succeeds(attempt)
      ensures r.Retry? <==> Defers(attempt)
      ensures r.Configured? <==> attempt.made.Made? && (attempt.applied.Applied? || attempt.applied.FeatureMissing?)
                                 && attempt.outputOpened && attempt.started.Started?
      ensures r.Retry? <==> attempt.made.MakeRecoverable? || (attempt.made.Made? && attempt.applied.ApplyRecoverable?)
      ensures r.Configured? ==>
                r.target.child == child && open == old(open) + Held(Some(r.target)) && old(open) !! Held(Some(r.target))
      ensures !r.Configured? ==> open == old(open)
    {
      if attempt.made.MakeRecoverable? { return Retry; }
      if attempt.made.MakeFatal? || attempt.made.MadeNil? { return Failed; }
      var configured := next;
      next := next + 1;
      open := open + {ConfiguratorOf(configured)};
      if !attempt.applied.Applied? && !attempt.applied.FeatureMissing? {
        open := open - {ConfiguratorOf(configured)};
        return if attempt.applied.ApplyRecoverable? then Retry else Failed;
      }
      if !attempt.outputOpened {
        open := open - {ConfiguratorOf(configured)};
        return Failed;
      }
      var output := next;
      next := next + 1;
      open := open + {OutputOf(output)};
      if !attempt.started.Started? {
        open := open - {OutputOf(output)};
        open := open - {ConfiguratorOf(configured)};
        return Failed;
      }
      return Configured(ActiveTarget(child, configured, output));
    }

    /** Stopping the actions closes their output; then the configurator is closed. */
    method CloseTarget(t: Option<ActiveTarget>)
      modifies this`open
      ensures open == old(open) - Held(t)
    {
      if t.None? { return; }
      open := open - {OutputOf(t.value.output)};
      open := open - {ConfiguratorOf(t.value.configurator)};
    }

    method CloseActive()
      requires Valid()
      modifies this`active, this`open
      ensures Valid() && NothingLost() && active == None
    {
      AccountsAfterClose(open, Held(active), lost, drops);
      CloseTarget(active);
      active := None;
    }

    /** What becomes of the retry timer after a child event. */
    function NextRetry(event: ChildEvent, deferred: bool): Option<Option<Child>>
      reads this`retry
    {
      if deferred then Some(event.child)
      else if event.kind.Sleeping? || event.kind.Removed? then None else retry
    }

    /** The new target is active if everything went through, and nothing is active otherwise; what can
        be tried again is deferred, and anything else is an error. */
    twostate predicate Replaced(child: Option<Child>, attempt: Attempt, deferred: bool, failed: bool)
      reads this`active
    {
      if old(active).Some? && attempt.closeFails then active == None && !deferred && failed
      else if attempt.made.Made? && (attempt.applied.Applied? || attempt.applied.FeatureMissing?)
              && attempt.outputOpened && attempt.started.Started? then
        active.Some? && active.value.child == child && !deferred && !failed
      else
        && active == None && failed == !deferred
        && (deferred <==> attempt.made.MakeRecoverable?
                          || (attempt.made.Made? && attempt.applied.ApplyRecoverable?))
    }

    /** The ready target takes the place of the active one, which is closed first. */
    method Replace(child: Option<Child>, attempt: Attempt) returns (deferred: bool, failed: bool)
      requires Valid()
      modifies this`active, this`next, this`open
      ensures Valid() && NothingLost()
      ensures var closes := !(old(active).Some? && attempt.closeFails);
              && Driven() == (if closes && Succeeds(attempt) then Some(child) else None)
              && (deferred <==> closes && Defers(attempt))
              && (failed <==> !closes || (!Defers(attempt) && !Succeeds(attempt)))
      ensures Replaced(child, attempt, deferred, failed)
    {
      var replaced := active.Some?;
      CloseActive();
      if replaced && attempt.closeFails { return false, true; }
      ghost var before := open;
      var r := ActivateTarget(child, attempt);
      deferred, failed := r.Retry?, r.Failed?;
      if r.Configured? {
        AccountsAfterOpen(before, {}, lost, drops, Held(Some(r.target)));
        assert lost + {} == lost;
        active := Some(r.target);
      }
    }

    /** The event is about the child of the active target. */
    twostate predicate AboutTarget(event: ChildEvent)
      reads {}
    {
      old(active).Some? && old(active).value.child.Some? && event.child.Some?
      && old(active).value.child.value.index == event.child.value.index
    }

    /** There was a target, and the event says that its child, or any selected one, sleeps or is gone. */
    twostate predicate Ends(event: ChildEvent)
      reads {}
    {
      && (event.child.Some? || event.metadata.name != "" || event.metadata.index != 0)
      && event.kind in {Sleeping, Removed} && old(active).Some?
      && (AboutTarget(event) || Matches(event.metadata, selector))
    }

    /** A selected child is ready that is not the target's. */
    twostate predicate Begins(event: ChildEvent)
      reads {}
    {
      && (event.child.Some? || event.metadata.name != "" || event.metadata.index != 0)
      && event.kind == Ready && !AboutTarget(event) && Matches(event.metadata, selector)
    }

    method Decide(event: ChildEvent) returns (decision: Decision)
      ensures decision.End? <==> EndsTarget(event, selector, Driven())
      ensures decision.Begin? <==> BeginsTarget(event, selector, Driven())
      ensures (decision.End? <==> Ends(event)) && (decision.Begin? <==> Begins(event))
    {
      if event.child.None? && event.metadata == Metadata("", 0) { return Ignore; }
      match event.kind
      case Sleeping | Removed =>
        if active.None? { return Ignore; }
        return if SameChild(active.value.child, event.child) || Matches(event.metadata, selector) then End else Ignore;
      case Ready =>
        if !Matches(event.metadata, selector) { return Ignore; }
        if active.Some? && SameChild(active.value.child, event.child) { return Ignore; }
        return Begin;
      case Other => return Ignore;
    }

    /** One lifecycle event. `deferred` asks for a retry of the event's child. Nothing that was
        acquired is lost, however the attempt goes. */
    method HandleChildEvent(event: ChildEvent, attempt: Attempt) returns (deferred: bool, failed: bool)
      requires Valid()
      modifies this`active, this`next, this`open
      ensures Valid() && NothingLost()
      ensures Situation(Driven(), NextRetry(event, deferred), failed)
              == ChildTurn(selector, Situation(old(Driven()), retry, false), event, attempt)
      ensures failed ==> !deferred && event.kind.Ready?
      ensures Ends(event) ==> active == None && !deferred && !failed
      ensures Begins(event) ==> Replaced(event.child, attempt, deferred, failed)
      ensures !Ends(event) && !Begins(event) ==>
                active == old(active) && open == old(open) && !deferred && !failed
    {
      deferred, failed := false, false;
      var decision := Decide(event);
      match decision
      case End => CloseActive();
      case Begin => deferred, failed := Replace(event.child, attempt);
      case Ignore =>
    }

    /** The retry timer assigns the new target without closing the one that is active. */
    method FireRetry(stillReady: bool, attempt: Attempt) returns (failed: bool)
      requires Valid() && retry.Some?
      modifies this
      ensures Valid()
      ensures Situation(Driven(), retry, failed)
              == RetryTurn(Situation(old(Driven()), old(retry), false), stillReady, attempt)
      ensures var loses := (old(retry).value.None? || stillReady) && Succeeds(attempt) && old(active).Some?;
              drops == old(drops) + if loses then 1 else 0
      ensures old(retry).value.Some? && !stillReady ==> active == old(active) && retry == None && !failed
      ensures old(retry).value.None? || stillReady ==>
                if attempt.made.Made? && (attempt.applied.Applied? || attempt.applied.FeatureMissing?)
                   && attempt.outputOpened && attempt.started.Started? then
                  active.Some? && active.value.child == old(retry).value && retry == None && !failed
                else
                  && active == old(active)
                  && if attempt.made.MakeRecoverable? || (attempt.made.Made? && attempt.applied.ApplyRecoverable?)
                     then retry == old(retry) && !failed else retry == None && failed
    {
      failed := false;
      var child := retry.value;
      retry := None;
      if child.Some? && !stillReady { return; }
      ghost var before := open;
      var r := ActivateTarget(child, attempt);
      match r
      case Failed => failed := true;
      case Retry => retry := Some(child);
      case Configured(target) => Overwrite(target, before);
    }

    /** Assigns a target that has just been activated on top of what was open before. */
    method Overwrite(target: ActiveTarget, ghost before: set<Resource>)
      requires Accounts(before, Held(active), lost, drops) && Numbered()
      requires open == before + Held(Some(target)) && before !! Held(Some(target))
      modifies this`active, this`drops, this`lost
      ensures Valid() && active == Some(target) && drops == old(drops) + if old(active).Some? then 1 else 0
    {
      assert |Held(active)| == if active.Some? then 2 else 0;
      AccountsAfterOpen(before, Held(active), lost, drops, Held(Some(target)));
      drops := drops + |Held(active)| / 2;
      lost := lost + Held(active);
      active := Some(target);
    }

    /** A whole session: events and retry firings until an error, then the deferred clean-up. What
        is still open afterwards is exactly what the run lost, two resources at a time: nothing if
        and only if the retry timer never activated a target over an active one. */
    method Run(script: seq<Step>) returns (failed: bool)
      requires Valid() && drops == 0 && active == None && retry == None
      modifies this
      ensures Valid() && active == None
      ensures failed == After(selector, script).failed
      ensures open == lost && |open| == 2 * Losses(selector, script)
      ensures open == {} <==> forall i | 0 <= i < |script| :: !LosesAt(selector, script, i)
      ensures (forall step | step in script :: step.OnChild?) ==> open == {}
    {
      failed := Loop(script);
      CloseActive();
      retry := None;
      NothingLostExactlyWhen(selector, script);
      assert forall i | 0 <= i < |script| :: script[i] in script;
    }

    /** The select loop itself. */
    method Loop(script: seq<Step>) returns (failed: bool)
      requires Valid() && drops == 0 && active == None && retry == None
      modifies this
      ensures Valid()
      ensures Situation(Driven(), retry, failed) == After(selector, script)
      ensures drops == Losses(selector, script)
    {
      failed := false;
      var i := 0;
      while i < |script| && !failed
        invariant 0 <= i <= |script| && Valid()
        invariant Situation(Driven(), retry, failed) == After(selector, script[..i])
        invariant drops == Losses(selector, script[..i])
      {
        OneMore(selector, script, i);
        failed := TakeStep(script[i]);
        i := i + 1;
      }
      if failed { FailedForGood(selector, script, i); }
      assert script[..|script|] == script;
    }

    /** One turn of the select loop. */
    method TakeStep(step: Step) returns (failed: bool)
      requires Valid()
      modifies this
      ensures Valid()
      ensures var before := Situation(old(Driven()), old(retry), false);
              && Situation(Driven(), retry, failed) == Turn(selector, before, step)
              && drops == old(drops) + if LosesTarget(step, before) then 1 else 0
    {
      failed := false;
      match step
      case OnChild(event, attempt) => failed := TakeChildEvent(event, attempt);
      case OnRetryTimer(stillReady, attempt) =>
        if retry.Some? {
          failed := FireRetry(stillReady, attempt);
        }
    }

    method TakeChildEvent(event: ChildEvent, attempt: Attempt) returns (failed: bool)
      requires Valid()
      modifies this
      ensures Valid() && NothingLost()
      ensures Situation(Driven(), retry, failed)
              == ChildTurn(selector, Situation(old(Driven()), old(retry), false), event, attempt)
      ensures !failed ==>
                retry == if Begins(event) && active == None then Some(event.child)
                         else if event.kind in {Sleeping, Removed} then None else old(retry)
    {
      var deferred;
      deferred, failed := HandleChildEvent(event, attempt);
      if failed { return; }
      if deferred {
        retry := Some(event.child);
      } else if event.kind.Sleeping? || event.kind.Removed? {
        retry := None;
      }
    }
  }

  /** For every selected child there is a run that loses a target: the first activation is
      deferred, a second ready event activates the child, and the retry that is still armed
      activates it again. */
  lemma RetryOverActiveLosesTarget(selector: Selector, child: Child, metadata: Metadata)
    requires Matches(metadata, selector)
    ensures var ready := ChildEvent(Ready, Some(child), metadata);
            var works := Attempt(false, Made, Applied, true, Started);
            var later := Attempt(false, MakeRecoverable, Applied, true, Started);
            Losses(selector, [OnChild(ready, later), OnChild(ready, works), OnRetryTimer(true, works)]) == 1
  {
    var ready := ChildEvent(Ready, Some(child), metadata);
    var works := Attempt(false, Made, Applied, true, Started);
    var later := Attempt(false, MakeRecoverable, Applied, true, Started);
    var script := [OnChild(ready, later), OnChild(ready, works), OnRetryTimer(true, works)];
    assert script[..2] == [OnChild(ready, later), OnChild(ready, works)];
    assert script[..2][..1] == [OnChild(ready, later)] && script[..2][..1][..0] == [];
    assert After(selector, script[..2][..1]) == Situation(None, Some(Some(child)), false);
    assert After(selector, script[..2]) == Situation(Some(Some(child)), Some(Some(child)), false);
    NothingLostExactlyWhen(selector, script[..2]);
    assert Losses(selector, script) == Losses(selector, script[..2]) + 1;
  }
}
