/** The virtual keyboard of internal/mxmaster/actions.go: event streams, which keys they leave down,
    and the difference that brings the keys held to the keys desired. */
module Keyboard {
  import opened Common

  type Code = word

  datatype Axis = X | Y | Wheel | HWheel | WheelHiRes | HWheelHiRes

  datatype Event = Key(code: Code, down: bool) | Rel(axis: Axis, value: int32)

  // ---- The virtual device ----

  /** The keys that are down after the events, starting from those down before. */
  function After(down: set<Code>, events: seq<Event>): set<Code>
    decreases events
  {
    if events == [] then down
    else After(Apply(down, events[0]), events[1..])
  }

  function Apply(down: set<Code>, e: Event): set<Code> {
    match e
    case Key(code, true) => down + {code}
    case Key(code, false) => down - {code}
    case Rel(_, _) => down
  }

  /** No key is pressed twice or released while it is up. */
  predicate Consistent(down: set<Code>, events: seq<Event>)
    decreases events
  {
    events == [] || ((events[0].Key? ==> events[0].down == (events[0].code !in down))
                     && Consistent(Apply(down, events[0]), events[1..]))
  }

  lemma {:induction false} AfterConcat(down: set<Code>, a: seq<Event>, b: seq<Event>)
    ensures After(down, a + b) == After(After(down, a), b)
    ensures Consistent(down, a + b) <==> Consistent(down, a) && Consistent(After(down, a), b)
    decreases a
  {
    if a == [] {
      assert a + b == b;
    } else {
      assert (a + b)[1..] == a[1..] + b;
      AfterConcat(Apply(down, a[0]), a[1..], b);
    }
  }

  function KeyStream(events: seq<Event>, code: Code): seq<bool> {
    if events == [] then []
    else if events[0].Key? && events[0].code == code then [events[0].down] + KeyStream(events[1..], code)
    else KeyStream(events[1..], code)
  }

  predicate Alternates(stream: seq<bool>, isDown: bool) {
    forall i | 0 <= i < |stream| :: stream[i] == if i % 2 == 0 then !isDown else isDown
  }

  lemma AlternatesTail(stream: seq<bool>, isDown: bool)
    requires stream != []
    ensures Alternates(stream, isDown) <==> stream[0] != isDown && Alternates(stream[1..], !isDown)
  {
    var rest := stream[1..];
    if stream[0] != isDown && Alternates(rest, !isDown) {
      forall i | 0 <= i < |stream| ensures stream[i] == if i % 2 == 0 then !isDown else isDown {
        if i > 0 { assert stream[i] == rest[i - 1]; }
      }
    }
    if Alternates(stream, isDown) {
      forall i | 0 <= i < |rest| ensures rest[i] == if i % 2 == 0 then isDown else !isDown {
        assert rest[i] == stream[i + 1];
      }
    }
  }

  /** Consistency is what it should be for every single key: its events alternate between press
      and release, beginning with the one that is possible. */
  lemma {:induction false} ConsistentMeansAlternating(down: set<Code>, events: seq<Event>)
    ensures Consistent(down, events) <==> forall code :: Alternates(KeyStream(events, code), code in down)
    decreases events
  {
    if events != [] {
      var e := events[0];
      ConsistentMeansAlternating(Apply(down, e), events[1..]);
      if e.Key? {
        AlternatesTail(KeyStream(events, e.code), e.code in down);
        assert KeyStream(events, e.code)[1..] == KeyStream(events[1..], e.code);
        forall code | code != e.code
          ensures Alternates(KeyStream(events, code), code in down)
                  <==> Alternates(KeyStream(events[1..], code), code in Apply(down, e)) {}
        if Consistent(down, events) {
          forall code ensures Alternates(KeyStream(events, code), code in down) {
            assert Alternates(KeyStream(events[1..], code), code in Apply(down, e));
          }
        }
        if forall code :: Alternates(KeyStream(events, code), code in down) {
          assert Alternates(KeyStream(events, e.code), e.code in down);
          forall code ensures Alternates(KeyStream(events[1..], code), code in Apply(down, e)) {
            assert Alternates(KeyStream(events, code), code in down);
          }
        }
      } else {
        forall code ensures KeyStream(events, code) == KeyStream(events[1..], code) {}
      }
    }
  }

  function Elements<T>(s: seq<T>): set<T> {
    set x | x in s
  }

  predicate Distinct<T(==)>(s: seq<T>) {
    forall i, j | 0 <= i < j < |s| :: s[i] != s[j]
  }

  /** Appends the keys that are not there yet. */
  function Merge(order: seq<Code>, keys: seq<Code>): seq<Code>
    decreases keys
  {
    if keys == [] then order
    else Merge(if keys[0] in order then order else order + [keys[0]], keys[1..])
  }

  lemma {:induction false} MergeMeaning(order: seq<Code>, keys: seq<Code>)
    ensures forall c :: c in Merge(order, keys) <==> c in order || c in keys
    ensures Distinct(order) ==> Distinct(Merge(order, keys))
    decreases keys
  {
    if keys != [] {
      MergeMeaning(if keys[0] in order then order else order + [keys[0]], keys[1..]);
    }
  }

  lemma {:induction false} MergeExtends(order: seq<Code>, keys: seq<Code>)
    ensures order <= Merge(order, keys)
    decreases keys
  {
    if keys != [] { MergeExtends(if keys[0] in order then order else order + [keys[0]], keys[1..]); }
  }

  // ---- The difference that a reconcile emits ----

  function Releases(heldOrder: seq<Code>, desired: set<Code>): seq<Event> {
    if heldOrder == [] then []
    else
      Releases(heldOrder[1..], desired) + if heldOrder[0] in desired then [] else [Key(heldOrder[0], false)]
  }

  function Presses(desiredOrder: seq<Code>, held: set<Code>): seq<Event> {
    if desiredOrder == [] then []
    else
      var n := |desiredOrder| - 1;
      Presses(desiredOrder[..n], held) + if desiredOrder[n] in held then [] else [Key(desiredOrder[n], true)]
  }

  /** Releases in reverse order of pressing, then the relative events, then the presses. */
  function Plan(heldOrder: seq<Code>, extra: seq<Event>, desiredOrder: seq<Code>): seq<Event> {
    Releases(heldOrder, Elements(desiredOrder)) + extra + Presses(desiredOrder, Elements(heldOrder))
  }

  function Remove(order: seq<Code>, code: Code): seq<Code> {
    if order == [] then []
    else if order[0] == code then order[1..]
    else [order[0]] + Remove(order[1..], code)
  }

  function OrderStep(order: seq<Code>, e: Event): seq<Code> {
    match e
    case Key(code, true) => if code in order then order else order + [code]
    case Key(code, false) => Remove(order, code)
    case Rel(_, _) => order
  }

  /** The keys that are down in the order in which they were pressed, after the events. */
  function OrderAfter(order: seq<Code>, events: seq<Event>): seq<Code> {
    if events == [] then order
    else OrderStep(OrderAfter(order, events[..|events| - 1]), events[|events| - 1])
  }

  lemma {:induction false} RemoveAt(order: seq<Code>, code: Code, i: nat)
    requires i <= |order| && code !in order[..i] && (i < |order| ==> order[i] == code)
    ensures Remove(order, code) == if i < |order| then order[..i] + order[i + 1..] else order
  {
    if i > 0 {
      var rest := order[1..];
      assert order == [order[0]] + rest && order[0] in order[..i];
      assert forall c | c in rest[..i - 1] :: c in order[..i];
      RemoveAt(rest, code, i - 1);
      if i < |order| { ConsSplice(order, i); }
    }
  }

  lemma ConsSplice(order: seq<Code>, i: nat)
    requires 0 < i < |order|
    ensures order[..i] + order[i + 1..] == [order[0]] + (order[1..][..i - 1] + order[1..][i..])
  {
  }

  predicate AllRelative(events: seq<Event>) {
    forall e | e in events :: e.Rel?
  }

  lemma {:induction false} ReleasesEffect(heldOrder: seq<Code>, desired: set<Code>, down: set<Code>)
    requires Distinct(heldOrder) && Elements(heldOrder) <= down
    ensures Consistent(down, Releases(heldOrder, desired))
    ensures After(down, Releases(heldOrder, desired)) == down - (Elements(heldOrder) - desired)
  {
    if heldOrder != [] {
      var rest := heldOrder[1..];
      assert Elements(heldOrder) == Elements(rest) + {heldOrder[0]};
      assert heldOrder[0] !in Elements(rest);
      ReleasesEffect(rest, desired, down);
      var last := if heldOrder[0] in desired then [] else [Key(heldOrder[0], false)];
      AfterConcat(down, Releases(rest, desired), last);
    }
  }

  lemma {:induction false} PressesEffect(order: seq<Code>, held: set<Code>, down: set<Code>)
    requires Distinct(order) && (Elements(order) - held) !! down
    ensures Consistent(down, Presses(order, held))
    ensures After(down, Presses(order, held)) == down + (Elements(order) - held)
  {
    if order != [] {
      var n := |order| - 1;
      var rest := order[..n];
      DistinctLast(order);
      PressesEffect(rest, held, down);
      var last := if order[n] in held then [] else [Key(order[n], true)];
      AfterConcat(down, Presses(rest, held), last);
    }
  }

  lemma DistinctLast(s: seq<Code>)
    requires s != [] && Distinct(s)
    ensures var n := |s| - 1;
            Elements(s) == Elements(s[..n]) + {s[n]} && s[n] !in Elements(s[..n]) && Distinct(s[..n])
  {
    assert s == s[..|s| - 1] + [s[|s| - 1]];
  }

  lemma {:induction false} RelativeEffect(extra: seq<Event>, down: set<Code>)
    requires AllRelative(extra)
    ensures Consistent(down, extra) && After(down, extra) == down
  {
    if extra != [] {
      assert extra[0] in extra;
      RelativeEffect(extra[1..], down);
    }
  }

  /** From the keys held, the plan leads consistently to exactly the keys desired. */
  lemma PlanEffect(heldOrder: seq<Code>, extra: seq<Event>, desiredOrder: seq<Code>)
    requires Distinct(heldOrder) && Distinct(desiredOrder) && AllRelative(extra)
    ensures Consistent(Elements(heldOrder), Plan(heldOrder, extra, desiredOrder))
    ensures After(Elements(heldOrder), Plan(heldOrder, extra, desiredOrder)) == Elements(desiredOrder)
  {
    var held, desired := Elements(heldOrder), Elements(desiredOrder);
    var releases, presses := Releases(heldOrder, desired), Presses(desiredOrder, held);
    ReleasesEffect(heldOrder, desired, held);
    var kept := held - (held - desired);
    RelativeEffect(extra, kept);
    AfterConcat(held, releases, extra);
    PressesEffect(desiredOrder, held, kept);
    AfterConcat(held, releases + extra, presses);
  }

  /** A key that is still wanted, because another holder of it remains, is neither released nor
      pressed again. */
  lemma {:induction false} PlanSparesSharedKeys(heldOrder: seq<Code>, extra: seq<Event>, desiredOrder: seq<Code>,
                                                code: Code)
    requires AllRelative(extra) && code in desiredOrder
    ensures Key(code, false) !in Plan(heldOrder, extra, desiredOrder)
    ensures code in heldOrder ==> Key(code, true) !in Plan(heldOrder, extra, desiredOrder)
  {
    ReleasesOnly(heldOrder, Elements(desiredOrder));
    PressesOnly(desiredOrder, Elements(heldOrder));
  }

  /** Keys go up in the reverse of the order in which they went down, and down in the desired order. */
  lemma PlanKeepsOrder(heldOrder: seq<Code>, a: nat, b: nat, desiredOrder: seq<Code>)
    requires a < b < |heldOrder| && heldOrder[a] !in desiredOrder && heldOrder[b] !in desiredOrder
    ensures exists i, j :: 0 <= i < j < |Releases(heldOrder, Elements(desiredOrder))|
                           && Releases(heldOrder, Elements(desiredOrder))[i] == Key(heldOrder[b], false)
                           && Releases(heldOrder, Elements(desiredOrder))[j] == Key(heldOrder[a], false)
  {
    var desired := Elements(desiredOrder);
    var rest := heldOrder[a + 1..];
    ReleasesOnly(rest, desired);
    assert rest[b - a - 1] == heldOrder[b];
    var i :| 0 <= i < |Releases(rest, desired)| && Releases(rest, desired)[i] == Key(heldOrder[b], false);
    ReleasesOfTail(heldOrder, desired, a);
    var part, all := Releases(heldOrder[a..], desired), Releases(heldOrder, desired);
    assert heldOrder[a..][1..] == rest && heldOrder[a] !in desired;
    assert part == Releases(rest, desired) + [Key(heldOrder[a], false)];
    var j := |Releases(rest, desired)|;
    assert all[i] == part[i] && all[j] == part[j];
  }

  lemma {:induction false} ReleasesOfTail(heldOrder: seq<Code>, desired: set<Code>, a: nat)
    requires a <= |heldOrder|
    ensures Releases(heldOrder[a..], desired) <= Releases(heldOrder, desired)
    decreases a
  {
    if a == 0 {
      assert heldOrder[0..] == heldOrder;
    } else {
      assert heldOrder[a..] == heldOrder[1..][a - 1..];
      ReleasesOfTail(heldOrder[1..], desired, a - 1);
    }
  }

  lemma PressesKeepOrder(desiredOrder: seq<Code>, a: nat, b: nat, held: set<Code>)
    requires a < b < |desiredOrder| && desiredOrder[a] !in held && desiredOrder[b] !in held
    ensures exists i, j :: 0 <= i < j < |Presses(desiredOrder, held)|
                           && Presses(desiredOrder, held)[i] == Key(desiredOrder[a], true)
                           && Presses(desiredOrder, held)[j] == Key(desiredOrder[b], true)
  {
    var first := desiredOrder[..b];
    PressesOnly(first, held);
    assert first[a] == desiredOrder[a];
    var i :| 0 <= i < |Presses(first, held)| && Presses(first, held)[i] == Key(desiredOrder[a], true);
    PressesOfHead(desiredOrder, held, b + 1);
    var part, all := Presses(desiredOrder[..b + 1], held), Presses(desiredOrder, held);
    assert desiredOrder[..b + 1][..b] == first;
    assert part == Presses(first, held) + [Key(desiredOrder[b], true)];
    var j := |Presses(first, held)|;
    assert all[i] == part[i] && all[j] == part[j];
  }

  lemma {:induction false} PressesOfHead(order: seq<Code>, held: set<Code>, n: nat)
    requires n <= |order|
    ensures Presses(order[..n], held) <= Presses(order, held)
    decreases |order|
  {
    if n == |order| {
      assert order[..n] == order;
    } else {
      assert order[..|order| - 1][..n] == order[..n];
      PressesOfHead(order[..|order| - 1], held, n);
    }
  }

  lemma {:induction false} ReleasesOnly(heldOrder: seq<Code>, desired: set<Code>)
    ensures forall e ::
              e in Releases(heldOrder, desired) <==> e.Key? && !e.down && e.code in heldOrder && e.code !in desired
  {
    if heldOrder != [] {
      ReleasesOnly(heldOrder[1..], desired);
      assert heldOrder == [heldOrder[0]] + heldOrder[1..];
    }
  }

  lemma {:induction false} PressesOnly(order: seq<Code>, held: set<Code>)
    ensures forall e :: e in Presses(order, held) <==> e.Key? && e.down && e.code in order && e.code !in held
  {
    if order != [] {
      var n := |order| - 1;
      PressesOnly(order[..n], held);
      assert order == order[..n] + [order[n]];
    }
  }

  // ---- Keeping track while events are emitted ----

  /** After i of the events: what is down, in which order, and what the rest still does. */
  ghost predicate Tracking(before: seq<Event>, log: seq<Event>, events: seq<Event>, i: nat, down: set<Code>,
                           order: seq<Code>, actual: set<Code>, actualOrder: seq<Code>)
    requires i <= |events|
  {
    && log == before + events[..i]
    && Consistent({}, log) && After({}, log) == actual
    && Elements(actualOrder) == actual && Distinct(actualOrder)
    && actualOrder == OrderAfter(order, events[..i])
    && Consistent(actual, events[i..]) && After(actual, events[i..]) == After(down, events)
  }

  lemma TrackingStarts(log: seq<Event>, events: seq<Event>, down: set<Code>, order: seq<Code>)
    requires Consistent({}, log) && After({}, log) == down && Elements(order) == down && Distinct(order)
    requires Consistent(down, events)
    ensures Tracking(log, log, events, 0, down, order, down, order)
  {
    assert log + events[..0] == log && events[0..] == events;
  }

  lemma TrackingStep(before: seq<Event>, log: seq<Event>, events: seq<Event>, i: nat, down: set<Code>,
                     order: seq<Code>, actual: set<Code>, actualOrder: seq<Code>)
    requires i < |events| && |log| > 0 && log[|log| - 1] == events[i]
    requires Tracking(before, log[..|log| - 1], events, i, down, order, actual, actualOrder)
    ensures events[i].Key? ==> events[i].down == (events[i].code !in actual)
    ensures Tracking(before, log, events, i + 1, down, order, Apply(actual, events[i]),
                     OrderStep(actualOrder, events[i]))
  {
    var e, earlier := events[i], log[..|log| - 1];
    assert log == earlier + [e];
    assert events[i..] == [e] + events[i + 1..] && events[..i + 1] == events[..i] + [e];
    assert events[..i + 1][..i] == events[..i];
    assert before + events[..i + 1] == before + events[..i] + [e];
    AfterOne({}, earlier, e);
    OrderStepKeeps(actualOrder, e);
  }

  lemma AfterOne(down: set<Code>, events: seq<Event>, e: Event)
    ensures After(down, events + [e]) == Apply(After(down, events), e)
    ensures Consistent(down, events + [e]) <==>
              Consistent(down, events) && (e.Key? ==> e.down == (e.code !in After(down, events)))
  {
    AfterConcat(down, events, [e]);
    assert [e][1..] == [];
  }

  lemma OrderStepKeeps(order: seq<Code>, e: Event)
    requires Distinct(order) && (e.Key? ==> e.down == (e.code !in order))
    ensures Distinct(OrderStep(order, e)) && Elements(OrderStep(order, e)) == Apply(Elements(order), e)
  {
    if e.Key? && !e.down {
      RemoveKeeps(order, e.code);
    } else if e.Key? {
      assert OrderStep(order, e) == order + [e.code];
    }
  }

  lemma {:induction false} RemoveKeeps(order: seq<Code>, code: Code)
    requires Distinct(order)
    ensures Distinct(Remove(order, code)) && Elements(Remove(order, code)) == Elements(order) - {code}
  {
    if order != [] {
      var rest := order[1..];
      assert order == [order[0]] + rest && order[0] !in rest;
      assert Elements(order) == {order[0]} + Elements(rest);
      RemoveKeeps(rest, code);
      if order[0] != code {
        assert forall c | c in Remove(rest, code) :: c in Elements(Remove(rest, code));
        assert Elements([order[0]] + Remove(rest, code)) == {order[0]} + Elements(Remove(rest, code));
      }
    }
  }

  // ---- The relative events of a stream ----

  function Rels(events: seq<Event>): seq<Event> {
    if events == [] then []
    else
      var last := events[|events| - 1];
      Rels(events[..|events| - 1]) + if last.Rel? then [last] else []
  }

  lemma {:induction false} RelsConcat(a: seq<Event>, b: seq<Event>)
    ensures Rels(a + b) == Rels(a) + Rels(b)
  {
    if b == [] {
      assert a + b == a;
    } else {
      var n := |b| - 1;
      assert (a + b)[..|a + b| - 1] == a + b[..n];
      RelsConcat(a, b[..n]);
    }
  }

  lemma {:induction false} RelsOfKeys(events: seq<Event>)
    requires forall e | e in events :: e.Key?
    ensures Rels(events) == []
  {
    if events != [] {
      var n := |events| - 1;
      assert events[n] in events;
      assert forall e | e in events[..n] :: e in events;
      RelsOfKeys(events[..n]);
    }
  }

  lemma {:induction false} RelsOfRelatives(events: seq<Event>)
    requires AllRelative(events)
    ensures Rels(events) == events
  {
    if events != [] {
      var n := |events| - 1;
      assert events[n] in events;
      assert forall e | e in events[..n] :: e in events;
      RelsOfRelatives(events[..n]);
      assert events == events[..n] + [events[n]];
    }
  }

  /** How many of the extra events are among the first n of a plan. */
  function ExtraOfPrefix(releases: nat, extra: nat, n: nat): nat {
    if n <= releases then 0 else if n - releases <= extra then n - releases else extra
  }

  /** The relative events of any initial part of a plan are an initial part of the extra events, and
      those of the whole plan are all of them. */
  lemma PlanPrefixRels(heldOrder: seq<Code>, extra: seq<Event>, desiredOrder: seq<Code>, n: nat)
    requires AllRelative(extra) && n <= |Plan(heldOrder, extra, desiredOrder)|
    ensures var k := ExtraOfPrefix(|Releases(heldOrder, Elements(desiredOrder))|, |extra|, n);
            && Rels(Plan(heldOrder, extra, desiredOrder)[..n]) == extra[..k]
            && (n == |Plan(heldOrder, extra, desiredOrder)| ==> k == |extra|)
  {
    var releases := Releases(heldOrder, Elements(desiredOrder));
    var presses := Presses(desiredOrder, Elements(heldOrder));
    ReleasesOnly(heldOrder, Elements(desiredOrder));
    PressesOnly(desiredOrder, Elements(heldOrder));
    var r := if n < |releases| then n else |releases|;
    var k := ExtraOfPrefix(|releases|, |extra|, n);
    PrefixOfThree(releases, extra, presses, n, r, k);
    RelsOfThree(releases[..r], extra[..k], presses[..n - r - k]);
  }

  lemma PrefixOfThree(a: seq<Event>, b: seq<Event>, c: seq<Event>, n: nat, r: nat, k: nat)
    requires n <= |a + b + c| && r == if n < |a| then n else |a|
    requires k == ExtraOfPrefix(|a|, |b|, n)
    ensures n - r - k >= 0 && (a + b + c)[..n] == a[..r] + b[..k] + c[..n - r - k]
  {
  }

  lemma RelsOfThree(keys: seq<Event>, relatives: seq<Event>, moreKeys: seq<Event>)
    requires (forall e | e in keys :: e.Key?) && AllRelative(relatives) && (forall e | e in moreKeys :: e.Key?)
    ensures Rels(keys + relatives + moreKeys) == relatives
  {
    RelsConcat(keys + relatives, moreKeys);
    RelsConcat(keys, relatives);
    RelsOfKeys(keys);
    RelsOfRelatives(relatives);
    RelsOfKeys(moreKeys);
  }

  // ---- What relative events add up to on one axis ----

  function Value(e: Event, axis: Axis): int {
    if e.Rel? && e.axis == axis then e.value else 0
  }

  function AxisSum(events: seq<Event>, axis: Axis): int {
    if events == [] then 0 else AxisSum(events[..|events| - 1], axis) + Value(events[|events| - 1], axis)
  }

  lemma AxisSumSnoc(a: seq<Event>, e: Event, axis: Axis)
    ensures AxisSum(a + [e], axis) == AxisSum(a, axis) + Value(e, axis)
  {
    assert (a + [e])[..|a|] == a;
  }

  lemma {:induction false} AxisSumConcat(a: seq<Event>, b: seq<Event>, axis: Axis)
    ensures AxisSum(a + b, axis) == AxisSum(a, axis) + AxisSum(b, axis)
  {
    if b == [] {
      assert a + b == a;
    } else {
      var n := |b| - 1;
      assert (a + b)[..|a + b| - 1] == a + b[..n];
      AxisSumConcat(a, b[..n], axis);
    }
  }

  /** Only the relative events of a stream count. */
  lemma {:induction false} AxisSumOfRels(events: seq<Event>, axis: Axis)
    ensures AxisSum(Rels(events), axis) == AxisSum(events, axis)
  {
    if events != [] {
      var n := |events| - 1;
      AxisSumOfRels(events[..n], axis);
      if events[n].Rel? {
        AxisSumSnoc(Rels(events[..n]), events[n], axis);
      } else {
        assert Rels(events[..n]) + [] == Rels(events[..n]);
      }
    }
  }

  // ---- What a reconcile promises ----

  datatype State = State(held: set<Code>, order: seq<Code>, log: seq<Event>, reports: nat)

  /** What a reconcile promises for the keys pressed and the gesture at its end: the first n events
      of the plan are emitted, all of them on success; after a success the keys held are exactly
      those that some pressed button or the gesture wants, whatever failed before, and the events
      have been synchronised as one report; after a failure they are those that the emitted events
      left down, in the order in which they went down. */
  ghost predicate ReconciledTo(before: State, after: State, ok: bool, extra: seq<Event>,
                               desiredOrder: seq<Code>, wanted: set<Code>)
  {
    var plan := Plan(before.order, extra, desiredOrder);
    exists n | 0 <= n <= |plan| ::
      && after.log == before.log + plan[..n]
      && (ok ==> n == |plan| && after.held == wanted)
      && (ok ==> after.order == if plan == [] then before.order else desiredOrder)
      && (!ok ==> after.order == OrderAfter(before.order, plan[..n]))
      && after.reports == before.reports + if ok && plan != [] then 1 else 0
  }

  /** With nothing to emit the keys held already are the wanted ones. */
  lemma NothingPlanned(before: State, extra: seq<Event>, desiredOrder: seq<Code>, wanted: set<Code>)
    requires Plan(before.order, extra, desiredOrder) == [] && before.held == Elements(before.order)
    requires Distinct(before.order) && Distinct(desiredOrder) && AllRelative(extra) && Elements(desiredOrder) == wanted
    ensures ReconciledTo(before, before, true, extra, desiredOrder, wanted)
  {
    PlanEffect(before.order, extra, desiredOrder);
    assert before.log == before.log + Plan(before.order, extra, desiredOrder)[..0];
  }

  /** So many events of a plan have been emitted, and synchronised if all went well. */
  lemma PlanEmitted(before: State, after: State, ok: bool, extra: seq<Event>, desiredOrder: seq<Code>,
                    wanted: set<Code>, n: nat)
    requires var plan := Plan(before.order, extra, desiredOrder);
             && plan != [] && n <= |plan| && after.log == before.log + plan[..n]
             && (ok ==> n == |plan|)
             && (!ok ==> after.order == OrderAfter(before.order, plan[..n]))
    requires ok ==> after.held == wanted && after.order == desiredOrder
    requires after.reports == before.reports + if ok then 1 else 0
    ensures ReconciledTo(before, after, ok, extra, desiredOrder, wanted)
  {
  }

  /** The relative events between two logs are the first k of the extra events. */
  predicate Adds(before: seq<Event>, after: seq<Event>, extra: seq<Event>, k: nat)
    requires k <= |extra|
  {
    Rels(after) == Rels(before) + extra[..k]
  }

  /** An initial part of the extra events has been emitted, and on success all of them. */
  ghost predicate AddsPart(before: seq<Event>, after: seq<Event>, ok: bool, extra: seq<Event>) {
    exists k | 0 <= k <= |extra| :: Adds(before, after, extra, k) && (ok ==> k == |extra|)
  }

  lemma ReconciledAdds(before: State, after: State, ok: bool, extra: seq<Event>,
                       desiredOrder: seq<Code>, wanted: set<Code>)
    requires ReconciledTo(before, after, ok, extra, desiredOrder, wanted) && AllRelative(extra)
    ensures AddsPart(before.log, after.log, ok, extra)
  {
    var plan := Plan(before.order, extra, desiredOrder);
    var n :| 0 <= n <= |plan| && after.log == before.log + plan[..n] && (ok ==> n == |plan|);
    RelsConcat(before.log, plan[..n]);
    PlanPrefixRels(before.order, extra, desiredOrder, n);
    assert Adds(before.log, after.log, extra,
                ExtraOfPrefix(|Releases(before.order, Elements(desiredOrder))|, |extra|, n));
  }

  lemma NothingAdded(log: seq<Event>, ok: bool, extra: seq<Event>)
    requires ok ==> extra == []
    ensures AddsPart(log, log, ok, extra)
  {
    assert Adds(log, log, extra, 0);
  }

  /** An initial part of the events was appended to the log. */
  ghost predicate EmittedPart(before: seq<Event>, events: seq<Event>, after: seq<Event>) {
    exists n | 0 <= n <= |events| :: after == before + events[..n]
  }
}
