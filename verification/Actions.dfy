/** The action handler of internal/mxmaster/actions.go: a reconciler that keeps the virtual keyboard
    equal to what the input events ask for, across output failures. */
module Actions {
  import opened Common
  import opened Keyboard
  import opened Inputs

  /** The virtual input device: every operation may fail, and a failed Emit emits nothing. */
  class Output {
    const axes: set<Axis>
    var log: seq<Event>
    var reports: nat

    constructor (axes: set<Axis>)
      ensures this.axes == axes && log == [] && reports == 0
    {
      this.axes, log, reports := axes, [], 0;
    }

    method Emit(e: Event) returns (ok: bool)
      modifies this`log
      ensures log == if ok then old(log) + [e] else old(log)
    {
      ok := *;
      if ok { log := log + [e]; }
    }

    method Sync() returns (ok: bool)
      modifies this`reports
      ensures reports == old(reports) + if ok then 1 else 0
    {
      ok := *;
      if ok { reports := reports + 1; }
    }
  }

  class ActionHandler {
    const output: Output
    var settings: Settings
    var pressed: set<Cid>
    var gesture: Direction
    var gestureDX: int32
    var gestureDY: int32
    var held: set<Code>
    var heldOrder: seq<Code>
    var wheelRest: Rest
    var thumbRest: Rest
    var closed: bool

    /** The keys the handler believes to be held are those that the emitted events leave down, and
        the stream of every key alternates. */
    ghost predicate KeyboardValid()
      reads this, output
    {
      && Consistent({}, output.log)
      && After({}, output.log) == held
      && Elements(heldOrder) == held
      && Distinct(heldOrder)
    }

    ghost predicate Valid()
      reads this, output
    {
      && Compiled(settings)
      && KeyboardValid()
      && MotionValid(settings, MotionNow())
    }

    constructor (settings: Settings, output: Output)
      requires Compiled(settings) && output.log == []
      ensures Valid() && this.settings == settings && this.output == output && !closed
      ensures held == {} && heldOrder == [] && MemoryNow() == BLANK
      ensures pressed == {} && gesture == NoGesture && gestureDX == gestureDY == wheelRest == thumbRest == 0
    {
      this.settings, this.output := settings, output;
      pressed, gesture, gestureDX, gestureDY := {}, NoGesture, 0, 0;
      held, heldOrder, wheelRest, thumbRest, closed := {}, [], 0, 0, false;
    }

    /** The keys of the pressed buttons and of the gesture, each once. */
    method DesiredKeys() returns (result: seq<Code>)
      ensures result == DesiredOrder(settings, Ids(pressed), gesture)
    {
      var ids := SortIds(pressed);
      result := KeysOfButtons(ids);
      if gesture in settings.gestures {
        result := MergeKeys(result, settings.gestures[gesture].keys);
      }
    }

    method KeysOfButtons(ids: seq<Cid>) returns (result: seq<Code>)
      ensures result == ButtonKeys(settings, ids)
    {
      result := [];
      for i := 0 to |ids|
        invariant result == ButtonKeys(settings, ids[..i])
      {
        assert ids[..i + 1][..i] == ids[..i];
        if ids[i] in settings.buttons {
          result := MergeKeys(result, settings.buttons[ids[i]].keys);
        }
      }
      assert ids[..|ids|] == ids;
    }

    method MergeKeys(order: seq<Code>, keys: seq<Code>) returns (result: seq<Code>)
      ensures result == Merge(order, keys)
    {
      result := order;
      var seen := Elements(order);
      for j := 0 to |keys|
        invariant seen == Elements(result) && Merge(result, keys[j..]) == Merge(order, keys)
      {
        if keys[j] !in seen {
          seen := seen + {keys[j]};
          result := result + [keys[j]];
        }
      }
    }

    /** The events of a reconcile, built by two loops over the held and the desired keys. */
    method Difference(extra: seq<Event>, desiredOrder: seq<Code>) returns (events: seq<Event>)
      requires Elements(heldOrder) == held
      ensures events == Plan(heldOrder, extra, desiredOrder)
    {
      var desired := Elements(desiredOrder);
      events := [];
      var offset := |heldOrder|;
      while offset > 0
        invariant 0 <= offset <= |heldOrder| && events == Releases(heldOrder[offset..], desired)
      {
        offset := offset - 1;
        assert heldOrder[offset..][1..] == heldOrder[offset + 1..];
        if heldOrder[offset] !in desired {
          events := events + [Key(heldOrder[offset], false)];
        }
      }
      events := events + extra;
      ghost var start := events;
      for i := 0 to |desiredOrder|
        invariant events == start + Presses(desiredOrder[..i], held)
      {
        assert desiredOrder[..i + 1][..i] == desiredOrder[..i];
        if desiredOrder[i] !in held {
          events := events + [Key(desiredOrder[i], true)];
        }
      }
      assert desiredOrder[..|desiredOrder|] == desiredOrder;
    }

    /** Emits until the first failure, and keeps track of the keys that are really down. */
    method EmitAll(events: seq<Event>) returns (ok: bool, ghost emitted: nat)
      requires KeyboardValid() && Consistent(held, events)
      modifies this`held, this`heldOrder, output`log
      ensures KeyboardValid()
      ensures emitted <= |events| && output.log == old(output.log) + events[..emitted]
      ensures heldOrder == OrderAfter(old(heldOrder), events[..emitted])
      ensures ok ==> emitted == |events| && held == After(old(held), events)
    {
      var actual, actualOrder := held, heldOrder;
      ghost var log, down, order := output.log, held, heldOrder;
      TrackingStarts(log, events, down, order);
      ok := true;
      var i := 0;
      while ok && i < |events|
        invariant 0 <= i <= |events| && (!ok ==> i < |events|)
        invariant Tracking(log, output.log, events, i, down, order, actual, actualOrder)
        decreases |events| - i, ok
      {
        ok := output.Emit(events[i]);
        if ok {
          TrackingStep(log, output.log, events, i, down, order, actual, actualOrder);
          actual, actualOrder := Track(actual, actualOrder, events[i]);
          i := i + 1;
        }
      }
      held, heldOrder, emitted := actual, actualOrder, i;
      assert events[|events|..] == [];
    }

    /** The effect of one emitted event on the keys that are down and their order. */
    static method Track(down: set<Code>, order: seq<Code>, e: Event) returns (down': set<Code>, order': seq<Code>)
      requires Elements(order) == down && Distinct(order) && (e.Key? ==> e.down == (e.code !in down))
      ensures down' == Apply(down, e) && order' == OrderStep(order, e)
    {
      down', order' := down, order;
      if e.Key? && !e.down {
        down' := down - {e.code};
        order' := RemoveFirst(order, e.code);
      } else if e.Key? && e.code !in down {
        assert e.code !in order;
        down' := down + {e.code};
        order' := order + [e.code];
      }
    }

    static method RemoveFirst(order: seq<Code>, code: Code) returns (rest: seq<Code>)
      requires Distinct(order)
      ensures rest == Remove(order, code)
    {
      for i := 0 to |order|
        invariant code !in order[..i]
      {
        if order[i] == code {
          rest := order[..i] + order[i + 1..];
          RemoveAt(order, code, i);
          return;
        }
      }
      assert order[..|order|] == order;
      RemoveAt(order, code, |order|);
      return order;
    }

    /** The keyboard as it was and as it is, related by ReconciledTo. */
    twostate predicate Reconciled(ok: bool, extra: seq<Event>)
      reads this, output
    {
      ReconciledTo(old(Keys()), Keys(), ok, extra, DesiredOrder(settings, Ids(pressed), gesture),
                   WantedKeys(settings, pressed, gesture))
    }

    function Keys(): State
      reads this, output
    {
      State(held, heldOrder, output.log, output.reports)
    }

    method Reconcile(extra: seq<Event>) returns (ok: bool)
      requires Valid() && AllRelative(extra)
      modifies this`held, this`heldOrder, output
      ensures Valid() && Reconciled(ok, extra)
      ensures output.reports == old(output.reports) + if ok && output.log != old(output.log) then 1 else 0
      ensures AddsPart(old(output.log), output.log, ok, extra)
    {
      var desiredOrder := DesiredKeys();
      DesiredIsDistinct(settings, Ids(pressed), gesture);
      DesiredMeansWanted(settings, pressed, gesture);
      var events := Difference(extra, desiredOrder);
      PlanEffect(heldOrder, extra, desiredOrder);
      ghost var before, wanted := Keys(), WantedKeys(settings, pressed, gesture);
      if |events| == 0 {
        NothingPlanned(before, extra, desiredOrder, wanted);
        ok := true;
      } else {
        ghost var emitted;
        ok, emitted := EmitReport(events, desiredOrder);
        PlanEmitted(before, Keys(), ok, extra, desiredOrder, wanted, emitted);
      }
      ReconciledAdds(before, Keys(), ok, extra, desiredOrder, wanted);
    }

    /** Emits and synchronises; only a complete report makes the desired order the held one. */
    method EmitReport(events: seq<Event>, desiredOrder: seq<Code>) returns (ok: bool, ghost emitted: nat)
      requires KeyboardValid() && Consistent(held, events)
      requires After(held, events) == Elements(desiredOrder) && Distinct(desiredOrder)
      modifies this`held, this`heldOrder, output
      ensures KeyboardValid()
      ensures emitted <= |events| && output.log == old(output.log) + events[..emitted]
      ensures ok ==> emitted == |events| && held == Elements(desiredOrder) && heldOrder == desiredOrder
      ensures !ok ==> heldOrder == OrderAfter(old(heldOrder), events[..emitted])
      ensures output.reports == old(output.reports) + if ok then 1 else 0
    {
      ok, emitted := EmitAll(events);
      if ok {
        ok := output.Sync();
        if ok {
          held, heldOrder := Elements(desiredOrder), desiredOrder;
        }
      }
    }

    /** A notification lists the controls that are down. A command bound to a newly pressed control
        is refused before anything changes. */
    method HandleButtons(controlIDs: seq<Cid>) returns (ok: bool)
      requires Valid()
      modifies this`pressed, this`held, this`heldOrder, output
      ensures Valid()
      ensures NewCommand(settings, Ids(Elements(controlIDs)), old(pressed)) ==>
                !ok && pressed == old(pressed) && Quiet()
      ensures !NewCommand(settings, Ids(Elements(controlIDs)), old(pressed)) ==>
                && pressed == Elements(controlIDs)
                && Reconciled(ok, NewRelatives(settings, Ids(pressed), old(pressed)))
      ensures ok ==> Settled() && KeysOf(held, settings, pressed, gesture)
      ensures if exists id :: id in controlIDs && id !in old(pressed) && id in settings.buttons
                              && settings.buttons[id].command
              then !ok && pressed == old(pressed) && Quiet()
              else pressed == set id | id in controlIDs
      ensures AddsPart(old(output.log), output.log, ok, NewRelatives(settings, Ids(Elements(controlIDs)), old(pressed)))
    {
      CommandsMean(settings, controlIDs, pressed);
      ok := PressButtons(controlIDs);
      WantedAreKeysOf(settings, pressed, gesture);
    }

    /** Collects the relative events of the newly pressed controls and reconciles. */
    method PressButtons(controlIDs: seq<Cid>) returns (ok: bool)
      requires Valid()
      modifies this`pressed, this`held, this`heldOrder, output
      ensures Valid()
      ensures NewCommand(settings, Ids(Elements(controlIDs)), old(pressed)) ==>
                !ok && pressed == old(pressed) && Quiet()
      ensures !NewCommand(settings, Ids(Elements(controlIDs)), old(pressed)) ==>
                && pressed == Elements(controlIDs)
                && Reconciled(ok, NewRelatives(settings, Ids(pressed), old(pressed)))
      ensures ok ==> Settled()
      ensures AddsPart(old(output.log), output.log, ok, NewRelatives(settings, Ids(Elements(controlIDs)), old(pressed)))
    {
      var current := Elements(controlIDs);
      var ids := SortIds(current);
      var extra: seq<Event> := [];
      for i := 0 to |ids|
        invariant !NewCommand(settings, ids[..i], pressed)
        invariant extra == NewRelatives(settings, ids[..i], pressed)
      {
        assert ids[..i + 1][..i] == ids[..i] && ids[..i + 1] == ids[..i] + [ids[i]];
        if ids[i] !in pressed {
          var binding := BindingOf(settings.buttons, ids[i]);
          if binding.command {
            assert ids[i] in ids;
            NothingAdded(output.log, false, NewRelatives(settings, ids, pressed));
            return false;
          }
          extra := extra + RelativeOf(binding);
        }
      }
      assert ids[..|ids|] == ids;
      NewRelativesAreRelative(settings, ids, pressed);
      pressed := current;
      ok := Reconcile(extra);
    }

    /** Raw motion: a release, or an event without motion, ends the gesture. An event whose direction
        has no action leaves gesture and keyboard alone exactly when no direction has one, or it
        does not act, or its direction already is the gesture. */
    method HandleRawXY(dx: int16, dy: int16, release: bool) returns (ok: bool)
      requires Valid()
      modifies this`gesture, this`gestureDX, this`gestureDY, this`held, this`heldOrder, output
      ensures Valid()
      ensures MotionNow() == MotionAfter(settings, old(MotionNow()), dx, dy, release)
      ensures Ends(dx, dy, release) ==> Reconciled(ok, [])
      ensures !Ends(dx, dy, release) && settings.gestures == map[] ==> ok && Quiet()
      ensures !Ends(dx, dy, release) && settings.gestures != map[] ==> Moved(ok, dx, dy)
      ensures !Ends(dx, dy, release) && DirectionFor(dx, dy) !in settings.gestures ==>
                (gesture == old(gesture) && Quiet()
                 <==> settings.gestures == map[] || !Acts(settings, old(MotionNow()), dx, dy)
                      || DirectionFor(dx, dy) == old(gesture))
      ensures ok && (Ends(dx, dy, release) || gesture != old(gesture) || old(Settled())) ==>
                Settled() && KeysOf(held, settings, pressed, gesture)
      ensures Follows(settings, old(MotionNow()), dx, dy, release, MotionNow())
      ensures gesture != old(gesture) && gesture != NoGesture ==>
                AddsPart(old(output.log), output.log, ok,
                         if gesture in settings.gestures && settings.gestures[gesture].relative.Some? then
                           var (axis, value) := settings.gestures[gesture].relative.value; [Rel(axis, value)]
                         else [])
      ensures ok && (gesture == old(gesture) || gesture == NoGesture) ==> Rels(output.log) == Rels(old(output.log))
      ensures AddsPart(old(output.log), output.log, ok, GestureExtra(settings, old(MotionNow()), dx, dy, release))
    {
      MotionFollows(settings, MotionNow(), dx, dy, release);
      GestureAsks(settings, MotionNow(), dx, dy, release);
      ok := MoveOrRelease(dx, dy, release);
      WantedAreKeysOf(settings, pressed, gesture);
    }

    /** The branches of HandleRawXY. */
    method MoveOrRelease(dx: int16, dy: int16, release: bool) returns (ok: bool)
      requires Valid()
      modifies this`gesture, this`gestureDX, this`gestureDY, this`held, this`heldOrder, output
      ensures Valid()
      ensures MotionNow() == MotionAfter(settings, old(MotionNow()), dx, dy, release)
      ensures Ends(dx, dy, release) ==> Reconciled(ok, [])
      ensures !Ends(dx, dy, release) && settings.gestures == map[] ==> ok && Quiet()
      ensures !Ends(dx, dy, release) && settings.gestures != map[] ==> Moved(ok, dx, dy)
      ensures !Ends(dx, dy, release) && DirectionFor(dx, dy) !in settings.gestures ==>
                (gesture == old(gesture) && Quiet()
                 <==> settings.gestures == map[] || !Acts(settings, old(MotionNow()), dx, dy)
                      || DirectionFor(dx, dy) == old(gesture))
      ensures ok && (Ends(dx, dy, release) || gesture != old(gesture) || old(Settled())) ==>
                Settled()
      ensures AddsPart(old(output.log), output.log, ok, GestureExtra(settings, old(MotionNow()), dx, dy, release))
    {
      if release || (dx == 0 && dy == 0) {
        gesture, gestureDX, gestureDY := NoGesture, 0, 0;
        ok := Reconcile([]);
      } else if |settings.gestures| == 0 {
        NothingAdded(output.log, true, []);
        ok := true;
      } else {
        ok := Move(dx, dy);
      }
    }

    /** Until a gesture is active the motion accumulates below the threshold; the event that brings
        it there starts the gesture of its own direction. While a gesture is active, an event of
        another direction switches to that one. */
    method Move(dx: int16, dy: int16) returns (ok: bool)
      requires Valid() && !Ends(dx, dy, false) && settings.gestures != map[]
      modifies this`gesture, this`gestureDX, this`gestureDY, this`held, this`heldOrder, output
      ensures Valid() && Moved(ok, dx, dy)
      ensures MotionNow() == MotionAfter(settings, old(MotionNow()), dx, dy, false)
      ensures AddsPart(old(output.log), output.log, ok, GestureExtra(settings, old(MotionNow()), dx, dy, false))
    {
      ghost var target := MotionAfter(settings, MotionNow(), dx, dy, false);
      ghost var extra := GestureExtra(settings, MotionNow(), dx, dy, false);
      MotionCases(settings, MotionNow(), dx, dy);
      var x, y, reached := Accumulated(dx, dy);
      if reached {
        ok := Act(x, y, DirectionFor(dx, dy), target, extra);
      } else {
        NothingAdded(output.log, true, extra);
        ok := Accumulate(x, y);
      }
    }

    method Accumulate(x: int32, y: int32) returns (ok: bool)
      requires Valid() && gesture == NoGesture && MotionValid(settings, Motion(NoGesture, x, y))
      modifies this`gestureDX, this`gestureDY
      ensures Valid() && ok && MotionNow() == Motion(NoGesture, x, y)
    {
      gestureDX, gestureDY, ok := x, y, true;
    }

    /** The motion acts: what had accumulated before the gesture is forgotten. */
    method Act(x: int32, y: int32, direction: Direction, ghost target: Motion, ghost extra: seq<Event>)
      returns (ok: bool)
      requires Valid() && direction != NoGesture && extra == SwitchExtra(settings, gesture, direction)
      requires var next := GestureAfter(settings, gesture, direction);
               target == if gesture == NoGesture then Motion(next, 0, 0) else Motion(next, x, y)
      modifies this`gesture, this`gestureDX, this`gestureDY, this`held, this`heldOrder, output
      ensures Valid() && Switched(ok, direction) && MotionNow() == target
      ensures AddsPart(old(output.log), output.log, ok, extra)
    {
      gestureDX := if gesture == NoGesture then 0 else x;
      gestureDY := if gesture == NoGesture then 0 else y;
      ok := SwitchTo(direction, extra);
    }

    /** The keyboard after a motion that does not act, or that does. */
    twostate predicate Moved(ok: bool, dx: int16, dy: int16)
      reads this, output
    {
      if !Acts(settings, old(MotionNow()), dx, dy) then ok && Quiet() else Switched(ok, DirectionFor(dx, dy))
    }

    twostate predicate Switched(ok: bool, direction: Direction)
      reads this, output
    {
      var binding := BindingOf(settings.gestures, direction);
      if direction == old(gesture) then ok && gesture == old(gesture) && Quiet()
      else if binding.command then !ok && gesture == old(gesture) && Quiet()
      else gesture == direction && Reconciled(ok, RelativeOf(binding))
    }

    /** The accumulated motion after an event, and whether it may act: below the threshold, where
        the sums are compared, 32 bits are always enough. */
    method Accumulated(dx: int16, dy: int16) returns (x: int32, y: int32, reached: bool)
      requires Valid()
      ensures x == Wrap32(gestureDX + dx) && y == Wrap32(gestureDY + dy)
      ensures gesture == NoGesture ==> x == gestureDX + dx && y == gestureDY + dy
      ensures reached <==> Acts(settings, MotionNow(), dx, dy)
      ensures !reached ==> gesture == NoGesture && Abs(x) + Abs(y) < Threshold(settings)
    {
      x, y := Wrap32(gestureDX + dx), Wrap32(gestureDY + dy);
      MotionStaysExact(settings, MotionNow(), dx, dy);
      reached := true;
      if gesture == NoGesture {
        var moved: int32 := Abs(x) + Abs(y);
        reached := moved >= Threshold(settings);
      }
    }

    /** Makes another direction the gesture unless it is bound to a command. */
    method SwitchTo(direction: Direction, ghost extra: seq<Event>) returns (ok: bool)
      requires Valid() && direction != NoGesture && extra == SwitchExtra(settings, gesture, direction)
      modifies this`gesture, this`held, this`heldOrder, output
      ensures Valid() && Switched(ok, direction)
      ensures gesture == GestureAfter(settings, old(gesture), direction)
      ensures AddsPart(old(output.log), output.log, ok, extra)
    {
      if direction == gesture {
        NothingAdded(output.log, true, extra);
        return true;
      }
      var binding := BindingOf(settings.gestures, direction);
      if binding.command {
        NothingAdded(output.log, false, extra);
        return false;
      }
      gesture := direction;
      ok := Reconcile(RelativeOf(binding));
    }

    function MotionNow(): Motion
      reads this
    {
      Motion(gesture, gestureDX, gestureDY)
    }

    function MemoryNow(): Memory
      reads this
    {
      Memory(pressed, MotionNow(), wheelRest, thumbRest)
    }

    twostate predicate Quiet()
      reads this, output
    {
      Keys() == old(Keys())
    }

    /** A low-resolution event is one click per unit and forgets any partial click; a fine one asks for
        its motion and for the clicks that the motion has come to. */
    method HandleWheel(delta: int16, highResolution: bool) returns (ok: bool)
      requires Valid()
      modifies this`wheelRest, this`held, this`heldOrder, output
      ensures Valid()
      ensures wheelRest == RestAfter(settings, MainWheel, old(wheelRest), WheelTurn(delta, highResolution))
      ensures Turned(ok, settings.wheelOutput && delta != 0,
                     TurnExtra(settings, output.axes, MainWheel, old(wheelRest), WheelTurn(delta, highResolution)))
      ensures AddsPart(old(output.log), output.log, ok,
                       TurnExtra(settings, output.axes, MainWheel, old(wheelRest), WheelTurn(delta, highResolution)))
      ensures ok && old(Settled()) ==> Settled()
      ensures !settings.wheelOutput || delta == 0 ==> ok && Quiet() && wheelRest == old(wheelRest)
      ensures settings.wheelOutput && delta != 0 && !highResolution ==>
                wheelRest == 0 && AddsPart(old(output.log), output.log, ok, [Rel(Wheel, delta)])
      ensures settings.wheelOutput && delta != 0 && highResolution ==>
                exists clicks: int32 ::
                  && TurnsInto(old(wheelRest), delta, clicks, wheelRest)
                  && AddsPart(old(output.log), output.log, ok,
                              FineTurn(output.axes, WheelHiRes, Wheel, delta, clicks))
    {
      ConsumeNothing(wheelRest);
      if !settings.wheelOutput || delta == 0 {
        NothingAdded(output.log, true, []);
        return true;
      }
      if !highResolution {
        wheelRest := 0;
        ok := Reconcile([Rel(Wheel, delta)]);
      } else {
        var whole, left := ConsumeHiRes(wheelRest, delta);
        wheelRest := left;
        ok := Reconcile(HiResEvents(output.axes, WheelHiRes, Wheel, delta, whole));
        assert FineTurn(output.axes, WheelHiRes, Wheel, delta, whole)
            == HiResEvents(output.axes, WheelHiRes, Wheel, delta, whole);
        assert TurnsInto(old(wheelRest), delta, whole, wheelRest);
      }
    }

    method HandleThumbWheel(delta: int16) returns (ok: bool)
      requires Valid()
      modifies this`thumbRest, this`held, this`heldOrder, output
      ensures Valid()
      ensures thumbRest == RestAfter(settings, ThumbWheel, old(thumbRest), ThumbTurn(delta))
      ensures Turned(ok, settings.thumbOutput && delta != 0,
                     TurnExtra(settings, output.axes, ThumbWheel, old(thumbRest), ThumbTurn(delta)))
      ensures AddsPart(old(output.log), output.log, ok,
                       TurnExtra(settings, output.axes, ThumbWheel, old(thumbRest), ThumbTurn(delta)))
      ensures ok && old(Settled()) ==> Settled()
      ensures !settings.thumbOutput || delta == 0 ==> ok && Quiet() && thumbRest == old(thumbRest)
      ensures settings.thumbOutput && delta != 0 ==>
                exists clicks: int32 ::
                  && TurnsInto(old(thumbRest), delta, clicks, thumbRest)
                  && AddsPart(old(output.log), output.log, ok,
                              FineTurn(output.axes, HWheelHiRes, HWheel, delta, clicks))
    {
      ConsumeNothing(thumbRest);
      if !settings.thumbOutput || delta == 0 {
        NothingAdded(output.log, true, []);
        return true;
      }
      var whole, left := ConsumeHiRes(thumbRest, delta);
      thumbRest := left;
      ok := Reconcile(HiResEvents(output.axes, HWheelHiRes, HWheel, delta, whole));
      assert FineTurn(output.axes, HWheelHiRes, HWheel, delta, whole)
          == HiResEvents(output.axes, HWheelHiRes, HWheel, delta, whole);
      assert TurnsInto(old(thumbRest), delta, whole, thumbRest);
    }

    /** A turn that counts is reconciled, any other leaves everything alone. */
    twostate predicate Turned(ok: bool, counts: bool, extra: seq<Event>)
      reads this, output
    {
      && (counts ==> Reconciled(ok, extra))
      && (!counts ==> ok && Quiet())
    }

    /** Forgets every control, gesture and partial click. */
    method Clear()
      requires Valid()
      modifies this`pressed, this`gesture, this`gestureDX, this`gestureDY, this`wheelRest, this`thumbRest
      ensures Valid() && MemoryNow() == BLANK
    {
      pressed, gesture, gestureDX, gestureDY := {}, NoGesture, 0, 0;
      wheelRest, thumbRest := 0, 0;
    }

    /** Clears the state and releases what is held; after a success every key is up. */
    method ReleaseAll() returns (ok: bool)
      requires Valid()
      modifies this`pressed, this`gesture, this`gestureDX, this`gestureDY, this`wheelRest, this`thumbRest
      modifies this`held, this`heldOrder, output
      ensures Valid()
      ensures MemoryNow() == BLANK
      ensures pressed == {} && gesture == NoGesture && gestureDX == gestureDY == wheelRest == thumbRest == 0
      ensures ok ==> held == {} && heldOrder == [] && After({}, output.log) == {}
      ensures EmittedPart(old(output.log), Releases(old(heldOrder), {}), output.log)
      ensures Rels(output.log) == Rels(old(output.log))
    {
      Clear();
      ok := ReleaseHeld();
      ReleasesOnly(old(heldOrder), {});
      ReleasesShowNothing(old(output.log), Releases(old(heldOrder), {}), output.log);
      if ok {
        held, heldOrder := {}, [];
      }
    }

    method ReleaseHeld() returns (ok: bool)
      requires Valid() && pressed == {} && gesture == NoGesture
      modifies this`held, this`heldOrder, output
      ensures Valid()
      ensures ok ==> held == {} && heldOrder == []
      ensures EmittedPart(old(output.log), Releases(old(heldOrder), {}), output.log)
    {
      NothingDesired(settings, heldOrder);
      ok := Reconcile([]);
      assert Elements<Code>([]) == {};
      assert heldOrder != [] ==> heldOrder[0] in Elements(heldOrder);
    }

    /** Releases the gesture's keys and keeps those of the buttons. */
    method ReleaseGesture() returns (ok: bool)
      requires Valid()
      modifies this`gesture, this`gestureDX, this`gestureDY, this`held, this`heldOrder, output
      ensures Valid()
      ensures closed ==> ok && Quiet() && gesture == old(gesture)
      ensures !closed ==> gesture == NoGesture && gestureDX == gestureDY == 0 && Reconciled(ok, [])
    {
      if closed { return true; }
      ok := EndGesture();
    }

    /** Forgets the gesture and reconciles. */
    method EndGesture() returns (ok: bool)
      requires Valid()
      modifies this`gesture, this`gestureDX, this`gestureDY, this`held, this`heldOrder, output
      ensures Valid() && gesture == NoGesture && gestureDX == gestureDY == 0 && Reconciled(ok, [])
    {
      ghost var keys := Keys();
      gesture, gestureDX, gestureDY := NoGesture, 0, 0;
      assert Keys() == keys;
      ok := Reconcile([]);
    }

    ghost predicate Settled()
      reads this
    {
      SettledFor(settings, MemoryNow(), held)
    }

    /** One input event. A closed handler refuses it. A success settles the keyboard, or leaves a
        settled one settled; of the relative events that the event asks for an initial part is
        emitted, on success all of them. Controls, gesture, motion and partial clicks are updated
        whether or not the output fails, unless the event is refused. */
    method Handle(event: InputEvent) returns (ok: bool)
      requires Valid()
      modifies this`pressed, this`gesture, this`gestureDX, this`gestureDY, this`wheelRest, this`thumbRest
      modifies this`held, this`heldOrder, output
      ensures Valid()
      ensures closed ==> !ok && Quiet() && MemoryNow() == old(MemoryNow())
      ensures ok && (Reconciles(event) || old(Settled())) ==> Settled()
      ensures ok ==> MemoryNow() == MemoryAfter(settings, old(MemoryNow()), event)
      ensures !closed ==> MemoryNow() == if Refused(settings, old(MemoryNow()), event) then old(MemoryNow())
                                         else MemoryAfter(settings, old(MemoryNow()), event)
      ensures Refused(settings, old(MemoryNow()), event) ==> !ok && Quiet()
      ensures ok && (Reconciles(event) || old(Settled())) ==> KeysOf(held, settings, pressed, gesture)
      ensures ok && event.Buttons? ==>
                pressed == (set id | id in event.controlIDs) && KeysOf(held, settings, pressed, gesture)
      ensures !closed && event.RawXY? ==>
                Follows(settings, old(MotionNow()), event.dx, event.dy, event.release, MotionNow())
      ensures AddsPart(old(output.log), output.log, ok, ExtraOf(settings, output.axes, old(MemoryNow()), event))
    {
      if closed {
        NothingAdded(output.log, false, ExtraOf(settings, output.axes, MemoryNow(), event));
        return false;
      }
      if event.RawXY? { MotionFollows(settings, MotionNow(), event.dx, event.dy, event.release); }
      ok := HandleOpen(event);
      WantedAreKeysOf(settings, pressed, gesture);
    }

    /** The event has been handled, see HandledTo. */
    twostate predicate Handled(ok: bool, event: InputEvent)
      reads this, output
    {
      HandledTo(settings, output.axes, event, ok, old(MemoryNow()), MemoryNow(), old(Keys()), Keys())
    }

    method HandleOpen(event: InputEvent) returns (ok: bool)
      requires Valid()
      modifies this`pressed, this`gesture, this`gestureDX, this`gestureDY, this`wheelRest, this`thumbRest
      modifies this`held, this`heldOrder, output
      ensures Valid() && Handled(ok, event)
    {
      match event
      case Buttons(_) => ok := HandleControl(event);
      case RawXY(_, _, _) => ok := HandleControl(event);
      case WheelTurn(delta, highResolution) => ok := HandleMainTurn(delta, highResolution);
      case ThumbTurn(delta) => ok := HandleThumbTurn(delta);
      case OtherInput =>
        EventCases(settings, output.axes, MemoryNow(), event);
        NothingAdded(output.log, true, []);
        ok := true;
    }

    method HandleControl(event: InputEvent) returns (ok: bool)
      requires Valid() && (event.Buttons? || event.RawXY?)
      modifies this`pressed, this`gesture, this`gestureDX, this`gestureDY, this`held, this`heldOrder, output
      ensures Valid() && Handled(ok, event)
    {
      EventCases(settings, output.axes, MemoryNow(), event);
      if event.Buttons? {
        ok := HandleButtons(event.controlIDs);
      } else {
        ok := HandleRawXY(event.dx, event.dy, event.release);
      }
    }

    method HandleMainTurn(delta: int16, highResolution: bool) returns (ok: bool)
      requires Valid()
      modifies this`wheelRest, this`held, this`heldOrder, output
      ensures Valid() && Handled(ok, WheelTurn(delta, highResolution))
    {
      ghost var m, keys := MemoryNow(), Keys();
      ok := HandleWheel(delta, highResolution);
      TurnHandled(settings, output.axes, MainWheel, WheelTurn(delta, highResolution), ok, m, MemoryNow(), keys, Keys());
    }

    method HandleThumbTurn(delta: int16) returns (ok: bool)
      requires Valid()
      modifies this`thumbRest, this`held, this`heldOrder, output
      ensures Valid() && Handled(ok, ThumbTurn(delta))
    {
      ghost var m, keys := MemoryNow(), Keys();
      ok := HandleThumbWheel(delta);
      TurnHandled(settings, output.axes, ThumbWheel, ThumbTurn(delta), ok, m, MemoryNow(), keys, Keys());
    }

    /** The worker: events until the stream ends or one fails, then everything is released. Whatever
        fails, the relative events emitted are an initial part of those that the stream asks for, in
        their order: all of those of the events handled, and some of the one that failed. */
    method Run(events: seq<InputEvent>) returns (handled: nat, released: bool)
      requires Valid()
      modifies this`pressed, this`gesture, this`gestureDX, this`gestureDY, this`wheelRest, this`thumbRest
      modifies this`held, this`heldOrder, output
      ensures Valid() && handled <= |events| && MemoryNow() == BLANK
      ensures released ==> Settled() && After({}, output.log) == {}
      ensures closed ==> handled == 0
      ensures ShowsThrough(old(output.log), output.log, settings, output.axes, old(MemoryNow()), events, handled)
      ensures handled == |events| ==>
                forall w :: TurnsShown(old(output.log), output.log, settings, output.axes, w, old(MemoryNow()), events)
    {
      ghost var m, log := MemoryNow(), output.log;
      var ok;
      handled, ok := Work(events);
      ghost var shown := output.log;
      released := ReleaseAll();
      ShownStays(log, shown, output.log, settings, output.axes, m, events, handled);
      if handled == |events| {
        LogShowsTurns(log, output.log, settings, output.axes, MainWheel, m, events);
        LogShowsTurns(log, output.log, settings, output.axes, ThumbWheel, m, events);
      }
    }

    /** The loop of the worker. */
    method Work(events: seq<InputEvent>) returns (handled: nat, ok: bool)
      requires Valid()
      modifies this`pressed, this`gesture, this`gestureDX, this`gestureDY, this`wheelRest, this`thumbRest
      modifies this`held, this`heldOrder, output
      ensures Valid() && handled <= |events| && (ok <==> handled == |events|)
      ensures closed ==> handled == 0
      ensures ok && old(Settled()) ==> Settled()
      ensures Progress(old(output.log), output.log, ok, settings, output.axes, old(MemoryNow()), MemoryNow(),
                       events, handled)
    {
      handled, ok := 0, true;
      ghost var m, log := MemoryNow(), output.log;
      ProgressStarts(log, settings, output.axes, m, events);
      while ok && handled < |events|
        invariant handled <= |events| && Valid() && (closed ==> handled == 0)
        invariant !ok ==> handled < |events|
        invariant ok && old(Settled()) ==> Settled()
        invariant Progress(log, output.log, ok, settings, output.axes, m, MemoryNow(), events, handled)
        decreases |events| - handled, ok
      {
        ghost var before, now := output.log, MemoryNow();
        ok := Handle(events[handled]);
        ProgressStep(log, before, output.log, ok, settings, output.axes, m, now, MemoryNow(), events, handled);
        if ok { handled := handled + 1; }
      }
    }

    /** Releases everything and keeps the handler usable. */
    method Reset() returns (ok: bool)
      requires Valid()
      modifies this`pressed, this`gesture, this`gestureDX, this`gestureDY, this`wheelRest, this`thumbRest
      modifies this`held, this`heldOrder, output
      ensures Valid()
      ensures closed ==> ok && Quiet()
      ensures !closed ==> MemoryNow() == BLANK
      ensures !closed && ok ==> After({}, output.log) == {}
    {
      if closed { return true; }
      ok := ReleaseAll();
    }

    /** Closes the handler for good, after one last attempt to release everything. */
    method Stop() returns (ok: bool)
      requires Valid()
      modifies this, output
      ensures Valid() && closed && settings == old(settings)
      ensures old(closed) ==> Quiet()
      ensures !old(closed) ==> MemoryNow() == BLANK
      ensures !old(closed) && ok ==> After({}, output.log) == {}
    {
      if closed { return true; }
      ok := ReleaseAll();
      closed := true;
    }

    /** The new settings take effect only when everything of the old ones could be released. */
    method Reconfigure(next: Settings) returns (ok: bool)
      requires Valid() && Compiled(next)
      modifies this, output
      ensures Valid() && closed == old(closed)
      ensures old(closed) ==> !ok && Quiet()
      ensures settings == if ok then next else old(settings)
      ensures !old(closed) ==> MemoryNow() == BLANK
      ensures ok ==> held == {} && After({}, output.log) == {}
    {
      if closed { return false; }
      ok := ReleaseAll();
      if ok {
        settings := next;
        Clear();
      }
    }
  }

  /** The same on a fresh handler: 20 units to the right, for which nothing is bound, make the right
      the gesture, and a single unit to the left then holds the key of the left action. */
  method OmittedDirectionTakesOver() returns (h: ActionHandler, ok: bool)
    ensures fresh(h) && h.Valid() && h.gesture == Left
    ensures ok ==> h.held == {30}
  {
    var output := new Output({});
    h := new ActionHandler(LEFT_ONLY, output);
    ok := RightThenLeft(h);
  }

  method RightThenLeft(h: ActionHandler) returns (ok: bool)
    requires h.Valid() && h.settings == LEFT_ONLY && h.MemoryNow() == BLANK
    modifies h`gesture, h`gestureDX, h`gestureDY, h`held, h`heldOrder, h.output
    ensures h.Valid() && h.gesture == Left
    ensures ok ==> h.held == {30}
  {
    OmittedDirectionIsNotIgnored();
    ok := h.HandleRawXY(20, 0, false);
    ok := OneLeft(h);
  }

  method OneLeft(h: ActionHandler) returns (ok: bool)
    requires h.Valid() && h.settings == LEFT_ONLY && h.pressed == {} && h.MotionNow() == Motion(Right, 0, 0)
    modifies h`gesture, h`gestureDX, h`gestureDY, h`held, h`heldOrder, h.output
    ensures h.Valid() && h.gesture == Left
    ensures ok ==> h.held == {30}
  {
    OmittedDirectionIsNotIgnored();
    LeftOnlyWants();
    ok := h.HandleRawXY(-1, 0, false);
  }
}
