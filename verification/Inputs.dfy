/** What the input events of the mouse ask for (internal/mxmaster/actions.go): the keys of pressed
    controls and gestures, the gesture threshold, the wheel accumulators, and the relative events of
    a whole stream. */
module Inputs {
  import opened Common
  import opened Keyboard

  const CLICK := 120
  const DEFAULT_THRESHOLD := 20
  const MAX_THRESHOLD := 32767

  type Cid = word

  // ---- What the pressed controls ask for ----

  datatype Direction = NoGesture | Left | Right | Up | Down

  datatype Binding = Binding(keys: seq<Code>, relative: Option<(Axis, int32)>, command: bool)

  const UNBOUND := Binding([], None, false)

  /** Compiled settings. `threshold` is the gesture threshold as configured: absent, zero for the
      default, or up to 32767. */
  datatype Settings = Settings(buttons: map<Cid, Binding>, gestures: map<Direction, Binding>,
                               threshold: Option<int>, wheelOutput: bool, thumbOutput: bool)

  predicate Compiled(s: Settings) {
    NoGesture !in s.gestures && (s.threshold.Some? ==> 0 <= s.threshold.value <= MAX_THRESHOLD)
  }

  function Threshold(s: Settings): int {
    if s.threshold.Some? && s.threshold.value > 0 then s.threshold.value else DEFAULT_THRESHOLD
  }

  function ButtonKeys(s: Settings, ids: seq<Cid>): seq<Code> {
    if ids == [] then []
    else
      var n := |ids| - 1;
      Merge(ButtonKeys(s, ids[..n]), if ids[n] in s.buttons then s.buttons[ids[n]].keys else [])
  }

  ghost predicate Ascending(ids: seq<Cid>, pressed: set<Cid>) {
    Elements(ids) == pressed && StrictlyUp(ids)
  }

  ghost predicate StrictlyUp(ids: seq<Cid>) {
    forall i, j | 0 <= i < j < |ids| :: ids[i] < ids[j]
  }

  /** The keys to hold, in order: those of the pressed buttons by control ID, then the gesture's. */
  function DesiredOrder(s: Settings, ids: seq<Cid>, gesture: Direction): seq<Code> {
    Merge(ButtonKeys(s, ids), if gesture in s.gestures then s.gestures[gesture].keys else [])
  }

  /** The same as a set, without any order: exactly the keys of pressed buttons and gesture. */
  function WantedKeys(s: Settings, pressed: set<Cid>, gesture: Direction): set<Code> {
    (set cid, code | cid in pressed && cid in s.buttons && code in s.buttons[cid].keys :: code)
    + if gesture in s.gestures then Elements(s.gestures[gesture].keys) else {}
  }

  lemma {:induction false} ButtonKeysMeaning(s: Settings, ids: seq<Cid>)
    ensures forall c ::
              c in ButtonKeys(s, ids) <==> exists cid :: cid in ids && cid in s.buttons && c in s.buttons[cid].keys
    ensures Distinct(ButtonKeys(s, ids))
  {
    if ids != [] {
      var n := |ids| - 1;
      ButtonKeysMeaning(s, ids[..n]);
      MergeMeaning(ButtonKeys(s, ids[..n]), if ids[n] in s.buttons then s.buttons[ids[n]].keys else []);
      assert ids == ids[..n] + [ids[n]];
    }
  }

  lemma DesiredIsDistinct(s: Settings, ids: seq<Cid>, gesture: Direction)
    ensures Distinct(DesiredOrder(s, ids, gesture))
  {
    ButtonKeysMeaning(s, ids);
    MergeMeaning(ButtonKeys(s, ids), if gesture in s.gestures then s.gestures[gesture].keys else []);
  }

  // ---- Sorting the pressed controls ----

  ghost function IdsBelow(pressed: set<Cid>, n: nat): seq<Cid>
    requires n <= 0x1_0000
  {
    if n == 0 then [] else IdsBelow(pressed, n - 1) + if n - 1 in pressed then [n - 1] else []
  }

  lemma {:induction false} IdsAscending(pressed: set<Cid>, n: nat)
    requires n <= 0x1_0000
    ensures forall x :: x in IdsBelow(pressed, n) <==> x in pressed && x < n
    ensures StrictlyUp(IdsBelow(pressed, n))
  {
    if n > 0 {
      IdsAscending(pressed, n - 1);
      var ids := IdsBelow(pressed, n - 1);
      assert forall i | 0 <= i < |ids| :: ids[i] in ids && ids[i] < n - 1;
      assert StrictlyUp(ids + [n - 1]);
    }
  }

  lemma AscendingExists(pressed: set<Cid>)
    ensures exists ids :: Ascending(ids, pressed)
  {
    var n := 0x1_0000;
    IdsAscending(pressed, n);
    assert Ascending(IdsBelow(pressed, n), pressed);
  }

  /** The pressed controls in ascending order. */
  ghost function Ids(pressed: set<Cid>): seq<Cid> {
    AscendingExists(pressed);
    var ids :| Ascending(ids, pressed);
    ids
  }

  lemma IdsSorted(pressed: set<Cid>)
    ensures Ascending(Ids(pressed), pressed)
  {
    AscendingExists(pressed);
  }

  lemma AscendingHead(a: seq<Cid>, b: seq<Cid>, s: set<Cid>)
    requires Ascending(a, s) && Ascending(b, s)
    ensures a == [] <==> b == []
    ensures a != [] ==> a[0] == b[0]
  {
    if a != [] { assert a[0] in Elements(b); }
    if b != [] { assert b[0] in Elements(a); }
  }

  lemma {:induction false} AscendingUnique(a: seq<Cid>, b: seq<Cid>, s: set<Cid>)
    requires Ascending(a, s) && Ascending(b, s)
    ensures a == b
  {
    AscendingHead(a, b, s);
    if a != [] {
      TailAscending(a, s);
      TailAscending(b, s);
      AscendingUnique(a[1..], b[1..], s - {a[0]});
      assert a == [a[0]] + a[1..] && b == [b[0]] + b[1..];
    }
  }

  lemma TailAscending(a: seq<Cid>, s: set<Cid>)
    requires a != [] && Ascending(a, s)
    ensures Ascending(a[1..], s - {a[0]})
  {
    assert a == [a[0]] + a[1..];
    assert Elements(a) == {a[0]} + Elements(a[1..]);
    assert forall i | 0 <= i < |a[1..]| :: a[1..][i] == a[i + 1];
  }

  lemma InsertAscending(ids: seq<Cid>, at: nat, x: Cid, s: set<Cid>)
    requires Ascending(ids, s) && x !in s && at <= |ids|
    requires (forall i | 0 <= i < at :: ids[i] < x) && (at < |ids| ==> ids[at] >= x)
    ensures Ascending(ids[..at] + [x] + ids[at..], s + {x})
  {
    assert forall y :: y in ids <==> y in Elements(ids);
    assert ids == ids[..at] + ids[at..];
    assert Elements(ids[..at] + [x] + ids[at..]) == s + {x};
    forall i | at <= i < |ids| ensures x < ids[i] {
      assert ids[i] in ids;
    }
    InsertStrictlyUp(ids, at, x);
  }

  lemma InsertStrictlyUp(ids: seq<Cid>, at: nat, x: Cid)
    requires StrictlyUp(ids) && at <= |ids|
    requires (forall i | 0 <= i < at :: ids[i] < x) && (forall i | at <= i < |ids| :: x < ids[i])
    ensures StrictlyUp(ids[..at] + [x] + ids[at..])
  {
    var more := ids[..at] + [x] + ids[at..];
    assert forall i | 0 <= i < |more| :: more[i] == if i < at then ids[i] else if i == at then x else ids[i - 1];
  }

  method SortIds(s: set<Cid>) returns (ids: seq<Cid>)
    ensures ids == Ids(s)
  {
    ids := [];
    var rest := s;
    while rest != {}
      invariant rest <= s && Ascending(ids, s - rest)
      decreases |rest|
    {
      var x :| x in rest;
      var at := 0;
      while at < |ids| && ids[at] < x
        invariant 0 <= at <= |ids| && forall i | 0 <= i < at :: ids[i] < x
      {
        at := at + 1;
      }
      InsertAscending(ids, at, x, s - rest);
      ids := ids[..at] + [x] + ids[at..];
      assert s - (rest - {x}) == (s - rest) + {x};
      rest := rest - {x};
    }
    assert s - rest == s;
    IdsSorted(s);
    AscendingUnique(ids, Ids(s), s);
  }

  /** Desired order means wanted keys: the union over the pressed buttons and the gesture. */
  lemma DesiredMeansWanted(s: Settings, pressed: set<Cid>, gesture: Direction)
    ensures Elements(DesiredOrder(s, Ids(pressed), gesture)) == WantedKeys(s, pressed, gesture)
  {
    var ids := Ids(pressed);
    IdsSorted(pressed);
    ButtonKeysMeaning(s, ids);
    MergeMeaning(ButtonKeys(s, ids), if gesture in s.gestures then s.gestures[gesture].keys else []);
    assert forall cid :: cid in ids <==> cid in Elements(ids);
  }

  /** Exactly the keys bound to a pressed control or to the gesture. */
  ghost predicate KeysOf(held: set<Code>, s: Settings, pressed: set<Cid>, gesture: Direction) {
    forall code :: code in held <==>
      || (exists cid :: cid in pressed && cid in s.buttons && code in s.buttons[cid].keys)
      || (gesture in s.gestures && code in s.gestures[gesture].keys)
  }

  lemma WantedAreKeysOf(s: Settings, pressed: set<Cid>, gesture: Direction)
    ensures KeysOf(WantedKeys(s, pressed, gesture), s, pressed, gesture)
  {
  }

  /** The keys of controls with lower IDs come first and keep their order, those of the gesture last. */
  lemma DesiredOrderGrows(s: Settings, ids: seq<Cid>, n: nat, gesture: Direction)
    requires n <= |ids|
    ensures ButtonKeys(s, ids[..n]) <= ButtonKeys(s, ids) <= DesiredOrder(s, ids, gesture)
  {
    MergeExtends(ButtonKeys(s, ids), if gesture in s.gestures then s.gestures[gesture].keys else []);
    ButtonKeysGrow(s, ids, n);
  }

  lemma {:induction false} ButtonKeysGrow(s: Settings, ids: seq<Cid>, n: nat)
    requires n <= |ids|
    ensures ButtonKeys(s, ids[..n]) <= ButtonKeys(s, ids)
    decreases |ids|
  {
    if n == |ids| {
      assert ids[..n] == ids;
    } else {
      var m := |ids| - 1;
      assert ids[..m][..n] == ids[..n];
      ButtonKeysGrow(s, ids[..m], n);
      MergeExtends(ButtonKeys(s, ids[..m]), if ids[m] in s.buttons then s.buttons[ids[m]].keys else []);
    }
  }

  // ---- The wheel accumulator ----

  /** Division that truncates toward zero. */
  function TruncDiv(a: int, b: int): int
    requires b > 0
  {
    if a >= 0 then a / b else -((-a) / b)
  }

  /** Less than a click in either direction. */
  type Rest = x: int | -CLICK < x < CLICK

  /** Whole clicks and the remainder after adding a delta. */
  function Consume(rest: Rest, delta: int32): (int32, Rest) {
    var value := rest + delta;
    var whole := TruncDiv(value, CLICK);
    (whole, value - whole * CLICK)
  }

  function TotalClicks(deltas: seq<int32>): (int, Rest) {
    if deltas == [] then (0, 0)
    else
      var (clicks, rest) := TotalClicks(deltas[..|deltas| - 1]);
      var (whole, rest') := Consume(rest, deltas[|deltas| - 1]);
      (clicks + whole, rest')
  }

  function Sum(s: seq<int>): int {
    if s == [] then 0 else Sum(s[..|s| - 1]) + s[|s| - 1]
  }

  /** No motion is lost: over any run the clicks never drift a full click from the motion. */
  lemma {:induction false} WheelConservesMotion(deltas: seq<int32>)
    ensures var (clicks, rest) := TotalClicks(deltas);
            120 * clicks + rest == Sum(deltas)
  {
    if deltas != [] { WheelConservesMotion(deltas[..|deltas| - 1]); }
  }

  /** Motion in one direction yields exactly the truncated quotient of the whole. */
  lemma {:induction false} OneWayTurnIsExact(deltas: seq<int32>)
    requires forall d | d in deltas :: d >= 0
    ensures Sum(deltas) >= 0 && TotalClicks(deltas) == (Sum(deltas) / 120, Sum(deltas) % 120)
  {
    if deltas != [] {
      var n := |deltas| - 1;
      assert deltas[n] in deltas;
      assert forall d | d in deltas[..n] :: d in deltas;
      OneWayTurnIsExact(deltas[..n]);
      Carry(Sum(deltas[..n]), deltas[n]);
    }
  }

  lemma Carry(sum: nat, delta: nat)
    ensures sum / CLICK + (sum % CLICK + delta) / CLICK == (sum + delta) / CLICK
    ensures (sum % CLICK + delta) % CLICK == (sum + delta) % CLICK
  {
  }

  /** Whole clicks carry all of the motion but less than a click of its own direction. */
  predicate Splits(sum: int, whole: int, left: int) {
    && CLICK * whole + left == sum
    && -CLICK < left < CLICK
    && (left == 0 || (left > 0 <==> sum > 0))
  }

  /** There is only one way to do that. */
  lemma ConsumeSplits(rest: Rest, delta: int32, whole: int, left: int)
    ensures Splits(rest + delta, whole, left) <==> (whole, left) == Consume(rest, delta)
  {
    var sum := rest + delta;
    var magnitude := if sum >= 0 then sum else -sum;
    assert magnitude == CLICK * (magnitude / CLICK) + magnitude % CLICK;
    if Splits(sum, whole, left) {
      assert magnitude == CLICK * (if sum >= 0 then whole else -whole) + (if sum >= 0 then left else -left);
    }
  }

  /** One conversion in int32 and int64: a 64-bit sum, and a quotient and remainder that
      fit 32 bits without truncation, for every 32-bit delta. */
  method ConsumeHiRes(rest: Rest, delta: int32) returns (whole: int32, left: int32)
    ensures Splits(rest + delta, whole, left) && (whole, left) == Consume(rest, delta)
  {
    var value: int64 := rest + delta;
    whole := TruncDiv(value, CLICK);
    value := value - whole * CLICK;
    left := value;
  }

  /** A decoded input report; other kinds of reports are ignored. */
  datatype InputEvent =
    | Buttons(controlIDs: seq<Cid>)
    | RawXY(dx: int16, dy: int16, release: bool)
    | WheelTurn(wheelDelta: int16, highResolution: bool)
    | ThumbTurn(thumbDelta: int16)
    | OtherInput

  function Abs(x: int): int {
    if x < 0 then -x else x
  }

  /** Two's complement 32-bit wrap-around. */
  function Wrap32(x: int): int32 {
    (x + 0x8000_0000) % 0x1_0000_0000 - 0x8000_0000
  }

  /** The larger component decides; a tie is horizontal. */
  function DirectionFor(dx: int16, dy: int16): Direction {
    if dx == 0 && dy == 0 then NoGesture
    else if Abs(dx) >= Abs(dy) then (if dx < 0 then Left else Right)
    else if dy < 0 then Up else Down
  }

  /** Left, right, up and down by the signs and sizes of the two components; a tie is horizontal. */
  predicate Points(d: Direction, dx: int, dy: int) {
    match d
    case Left => dx < 0 && dx <= dy <= -dx
    case Right => dx > 0 && -dx <= dy <= dx
    case Up => dy < 0 && dy < dx < -dy
    case Down => dy > 0 && -dy < dx < dy
    case NoGesture => dx == 0 && dy == 0
  }

  lemma DirectionMeans(dx: int16, dy: int16, d: Direction)
    ensures DirectionFor(dx, dy) == d <==> Points(d, dx, dy)
  {
  }

  /** The event makes the handler compare the keyboard with what it should be, in any case. */
  predicate Reconciles(e: InputEvent) {
    e.Buttons? || (e.RawXY? && Ends(e.dx, e.dy, e.release))
  }

  // ---- Gestures ----

  /** The gesture and the motion accumulated towards it. */
  datatype Motion = Motion(gesture: Direction, dx: int32, dy: int32)

  /** The event ends any gesture: a release, or no motion at all. */
  predicate Ends(dx: int16, dy: int16, release: bool) {
    release || (dx == 0 && dy == 0)
  }

  /** The event acts: a gesture is already active, or the motion is now enough for one. */
  predicate Acts(s: Settings, m: Motion, dx: int16, dy: int16) {
    m.gesture != NoGesture || Abs(Wrap32(m.dx + dx)) + Abs(Wrap32(m.dy + dy)) >= Threshold(s)
  }

  /** A direction bound to a command never becomes the gesture. */
  function GestureAfter(s: Settings, before: Direction, direction: Direction): Direction {
    if BindingOf(s.gestures, direction).command then before else direction
  }

  function MotionAfter(s: Settings, m: Motion, dx: int16, dy: int16, release: bool): Motion {
    if Ends(dx, dy, release) then Motion(NoGesture, 0, 0)
    else if s.gestures == map[] then m
    else if !Acts(s, m, dx, dy) then Motion(NoGesture, Wrap32(m.dx + dx), Wrap32(m.dy + dy))
    else
      var gesture := GestureAfter(s, m.gesture, DirectionFor(dx, dy));
      if m.gesture == NoGesture then Motion(gesture, 0, 0)
      else Motion(gesture, Wrap32(m.dx + dx), Wrap32(m.dy + dy))
  }

  lemma MotionCases(s: Settings, m: Motion, dx: int16, dy: int16)
    requires !Ends(dx, dy, false) && s.gestures != map[]
    ensures var x, y, next := Wrap32(m.dx + dx), Wrap32(m.dy + dy), GestureAfter(s, m.gesture, DirectionFor(dx, dy));
            MotionAfter(s, m, dx, dy, false)
            == if !Acts(s, m, dx, dy) then Motion(NoGesture, x, y)
               else if m.gesture == NoGesture then Motion(next, 0, 0) else Motion(next, x, y)
    ensures GestureExtra(s, m, dx, dy, false)
            == if !Acts(s, m, dx, dy) then [] else SwitchExtra(s, m.gesture, DirectionFor(dx, dy))
  {
  }

  /** What the handler keeps: below the threshold as long as there is no gesture. */
  predicate MotionValid(s: Settings, m: Motion) {
    m.gesture == NoGesture ==> Abs(m.dx) + Abs(m.dy) < Threshold(s)
  }

  lemma WrapExact(x: int)
    requires -0x8000_0000 <= x < 0x8000_0000
    ensures Wrap32(x) == x
  {
  }

  /** The sums that are compared with the threshold never wrap around. */
  lemma MotionStaysExact(s: Settings, m: Motion, dx: int16, dy: int16)
    requires Compiled(s) && MotionValid(s, m)
    ensures m.gesture == NoGesture ==>
              && Wrap32(m.dx + dx) == m.dx + dx && Wrap32(m.dy + dy) == m.dy + dy
              && Abs(m.dx + dx) + Abs(m.dy + dy) < 0x8000_0000
  {
    if m.gesture == NoGesture {
      assert Abs(m.dx) <= MAX_THRESHOLD && Abs(m.dy) <= MAX_THRESHOLD;
      WrapExact(m.dx + dx);
      WrapExact(m.dy + dy);
    }
  }

  /** Every event keeps the motion below the threshold, and a gesture starts only on an event that
      brings it there, in the direction of that event. */
  lemma GestureStartsAtThreshold(s: Settings, m: Motion, dx: int16, dy: int16, release: bool)
    requires Compiled(s) && MotionValid(s, m)
    ensures var m' := MotionAfter(s, m, dx, dy, release);
            && MotionValid(s, m')
            && (m'.gesture != m.gesture && m'.gesture != NoGesture ==> m'.gesture == DirectionFor(dx, dy))
            && (m.gesture == NoGesture && m'.gesture != NoGesture ==>
                  Abs(m.dx + dx) + Abs(m.dy + dy) >= Threshold(s))
  {
    MotionStaysExact(s, m, dx, dy);
  }

  /** The accumulated motion is still too little for a gesture. */
  predicate TooLittle(s: Settings, x: int, y: int) {
    (if x < 0 then -x else x) + (if y < 0 then -y else y)
    < if s.threshold.Some? && s.threshold.value > 0 then s.threshold.value else 20
  }

  /** The whole automaton in these terms. */
  ghost predicate Follows(s: Settings, m: Motion, dx: int16, dy: int16, release: bool, m': Motion) {
    if release || (dx == 0 && dy == 0) then m' == Motion(NoGesture, 0, 0)
    else if s.gestures == map[] then m' == m
    else if m.gesture == NoGesture && TooLittle(s, m.dx + dx, m.dy + dy) then
      m'.gesture == NoGesture && m'.dx == m.dx + dx && m'.dy == m.dy + dy
    else
      && (m.gesture == NoGesture ==> m'.dx == m'.dy == 0)
      && forall d :: Points(d, dx, dy) ==>
           m'.gesture == if d in s.gestures && s.gestures[d].command then m.gesture else d
  }

  /** Enough motion makes the direction in which the event points the gesture, unless a command is bound
      to it. */
  lemma MotionFollows(s: Settings, m: Motion, dx: int16, dy: int16, release: bool)
    requires Compiled(s) && MotionValid(s, m)
    ensures Follows(s, m, dx, dy, release, MotionAfter(s, m, dx, dy, release))
  {
    MotionStaysExact(s, m, dx, dy);
    forall d | Points(d, dx, dy) ensures d == DirectionFor(dx, dy) {
      DirectionMeans(dx, dy, d);
    }
    if !Ends(dx, dy, release) && s.gestures != map[] { MotionCases(s, m, dx, dy); }
  }

  /** An event whose direction has no action changes nothing at all if and only if no direction has
      an action; it leaves the gesture as it is if and only if no direction has an action, or it does
      not act, or that direction already is the gesture. */
  lemma OmittedDirectionIgnoredExactlyWhen(s: Settings, m: Motion, dx: int16, dy: int16)
    requires Compiled(s) && MotionValid(s, m) && !Ends(dx, dy, false) && DirectionFor(dx, dy) !in s.gestures
    ensures MotionAfter(s, m, dx, dy, false) == m <==> s.gestures == map[]
    ensures MotionAfter(s, m, dx, dy, false).gesture == m.gesture
            <==> s.gestures == map[] || !Acts(s, m, dx, dy) || DirectionFor(dx, dy) == m.gesture
  {
    if s.gestures != map[] {
      WrapMoves(m.dx, dx);
      WrapMoves(m.dy, dy);
    }
  }

  lemma WrapMoves(x: int32, d: int16)
    ensures Wrap32(x + d) == x <==> d == 0
  {
  }

  const LEFT_ONLY := Settings(map[], map[Left := Binding([30], None, false)], Some(20), false, false)

  /** Enough motion at once starts the gesture of its direction, whether or not that has an action. */
  lemma StartsGesture(s: Settings, dx: int16, direction: Direction)
    requires s.gestures != map[] && Abs(dx) >= Threshold(s) && DirectionFor(dx, 0) == direction != NoGesture
    requires !BindingOf(s.gestures, direction).command
    ensures MotionAfter(s, Motion(NoGesture, 0, 0), dx, 0, false) == Motion(direction, 0, 0)
  {
    WrapExact(dx);
    WrapExact(0);
    MotionCases(s, Motion(NoGesture, 0, 0), dx, 0);
  }

  /** With a gesture any motion, however small, switches to its own direction. */
  lemma SwitchesGesture(s: Settings, before: Direction, dx: int16, direction: Direction)
    requires s.gestures != map[] && before != NoGesture && DirectionFor(dx, 0) == direction != NoGesture
    requires !BindingOf(s.gestures, direction).command
    ensures MotionAfter(s, Motion(before, 0, 0), dx, 0, false).gesture == direction
  {
    MotionCases(s, Motion(before, 0, 0), dx, 0);
  }

  lemma StartsNothing(s: Settings, dx: int16)
    requires s.gestures != map[] && 0 < Abs(dx) < Threshold(s)
    ensures MotionAfter(s, Motion(NoGesture, 0, 0), dx, 0, false).gesture == NoGesture
  {
    WrapExact(dx);
    WrapExact(0);
    MotionCases(s, Motion(NoGesture, 0, 0), dx, 0);
  }

  /** One action to the left, nothing to the right: enough motion to the right makes that the
      gesture, after which one unit to the left is enough for the left action. */
  lemma OmittedDirectionIsNotIgnored()
    ensures var m := MotionAfter(LEFT_ONLY, Motion(NoGesture, 0, 0), 20, 0, false);
            && m == Motion(Right, 0, 0)
            && MotionAfter(LEFT_ONLY, m, -1, 0, false).gesture == Left
            && MotionAfter(LEFT_ONLY, Motion(NoGesture, 0, 0), -1, 0, false).gesture == NoGesture
  {
    LeftOnly();
    StartsGesture(LEFT_ONLY, 20, Right);
    SwitchesGesture(LEFT_ONLY, Right, -1, Left);
    StartsNothing(LEFT_ONLY, -1);
  }

  lemma LeftOnly()
    ensures LEFT_ONLY.gestures != map[] && Threshold(LEFT_ONLY) == 20
    ensures !BindingOf(LEFT_ONLY.gestures, Left).command && !BindingOf(LEFT_ONLY.gestures, Right).command
  {
    assert Left in LEFT_ONLY.gestures;
  }

  function BindingOf<K>(bindings: map<K, Binding>, key: K): Binding {
    if key in bindings then bindings[key] else UNBOUND
  }

  function RelativeOf(b: Binding): seq<Event> {
    if b.relative.Some? then [Rel(b.relative.value.0, b.relative.value.1)] else []
  }

  /** The relative events of the controls that were not pressed before, by control ID. */
  function NewRelatives(s: Settings, ids: seq<Cid>, before: set<Cid>): seq<Event> {
    if ids == [] then []
    else
      var n := |ids| - 1;
      NewRelatives(s, ids[..n], before)
      + if ids[n] in before then [] else RelativeOf(BindingOf(s.buttons, ids[n]))
  }

  /** Each newly pressed control with a relative action asks for exactly that, in the order of the
      controls, and nothing else is asked for. */
  lemma NewRelativesMean(s: Settings, ids: seq<Cid>, id: Cid, before: set<Cid>)
    ensures NewRelatives(s, [], before) == []
    ensures var more := NewRelatives(s, ids + [id], before);
            if id in before || id !in s.buttons || s.buttons[id].relative.None? then
              more == NewRelatives(s, ids, before)
            else
              more == NewRelatives(s, ids, before)
                      + [Rel(s.buttons[id].relative.value.0, s.buttons[id].relative.value.1)]
  {
    assert (ids + [id])[..|ids|] == ids;
  }

  predicate NewCommand(s: Settings, ids: seq<Cid>, before: set<Cid>) {
    exists id | id in ids :: id !in before && BindingOf(s.buttons, id).command
  }

  lemma CommandsMean(s: Settings, controlIDs: seq<Cid>, before: set<Cid>)
    ensures NewCommand(s, Ids(Elements(controlIDs)), before)
            <==> exists id :: id in controlIDs && id !in before && id in s.buttons && s.buttons[id].command
  {
    IdsSorted(Elements(controlIDs));
    var ids := Ids(Elements(controlIDs));
    assert forall id :: id in ids <==> id in Elements(ids);
  }

  lemma {:induction false} NewRelativesAreRelative(s: Settings, ids: seq<Cid>, before: set<Cid>)
    ensures AllRelative(NewRelatives(s, ids, before))
  {
    if ids != [] { NewRelativesAreRelative(s, ids[..|ids| - 1], before); }
  }

  /** All of the motion becomes whole clicks but for less than a click of its own direction. */
  predicate TurnsInto(rest: int, delta: int, clicks: int, rest': int) {
    && 120 * clicks + rest' == rest + delta
    && -120 < rest' < 120
    && (rest' > 0 ==> rest + delta > 0) && (rest' < 0 ==> rest + delta < 0)
  }

  /** A fine turn asks for its motion and its clicks, each on its own axis if the output has that. */
  function FineTurn(axes: set<Axis>, fine: Axis, coarse: Axis, delta: int32, clicks: int32): seq<Event> {
    (if fine in axes then [Rel(fine, delta)] else [])
    + if clicks != 0 && coarse in axes then [Rel(coarse, clicks)] else []
  }

  /** The fine event and, when whole clicks have come together, the coarse one, each on an axis that
      the output supports. */
  function HiResEvents(axes: set<Axis>, fine: Axis, coarse: Axis, delta: int32, whole: int32): seq<Event> {
    (if fine in axes then [Rel(fine, delta)] else [])
    + if whole != 0 && coarse in axes then [Rel(coarse, whole)] else []
  }

  // ---- What a whole stream of input events asks for ----

  /** The inputs as the handler remembers them between events. */
  datatype Memory = Memory(pressed: set<Cid>, motion: Motion, wheelRest: Rest, thumbRest: Rest)

  const BLANK := Memory({}, Motion(NoGesture, 0, 0), 0, 0)

  datatype WheelId = MainWheel | ThumbWheel

  function FineAxis(w: WheelId): Axis {
    if w == MainWheel then WheelHiRes else HWheelHiRes
  }

  function CoarseAxis(w: WheelId): Axis {
    if w == MainWheel then Wheel else HWheel
  }

  function RestOf(m: Memory, w: WheelId): Rest {
    if w == MainWheel then m.wheelRest else m.thumbRest
  }

  /** The motion that an event adds to the accumulator of a wheel. */
  function FineDelta(s: Settings, w: WheelId, e: InputEvent): int16 {
    if w == MainWheel && e.WheelTurn? && e.highResolution && s.wheelOutput then e.wheelDelta
    else if w == ThumbWheel && e.ThumbTurn? && s.thumbOutput then e.thumbDelta
    else 0
  }

  /** A low-resolution event is one click per unit; only the main wheel has them. */
  function CoarseDelta(s: Settings, w: WheelId, e: InputEvent): int16 {
    if w == MainWheel && e.WheelTurn? && !e.highResolution && s.wheelOutput then e.wheelDelta else 0
  }

  /** It also forgets any partial click. */
  function RestAfter(s: Settings, w: WheelId, rest: Rest, e: InputEvent): Rest {
    if CoarseDelta(s, w, e) != 0 then 0 else Consume(rest, FineDelta(s, w, e)).1
  }

  function MemoryAfter(s: Settings, m: Memory, e: InputEvent): Memory {
    Memory(if e.Buttons? then Elements(e.controlIDs) else m.pressed,
           if e.RawXY? then MotionAfter(s, m.motion, e.dx, e.dy, e.release) else m.motion,
           RestAfter(s, MainWheel, m.wheelRest, e), RestAfter(s, ThumbWheel, m.thumbRest, e))
  }

  /** A notification that presses a control bound to a command is refused before anything changes. */
  ghost predicate Refused(s: Settings, m: Memory, e: InputEvent) {
    e.Buttons? && NewCommand(s, Ids(Elements(e.controlIDs)), m.pressed)
  }

  function SwitchExtra(s: Settings, before: Direction, direction: Direction): seq<Event> {
    if direction == before then [] else RelativeOf(BindingOf(s.gestures, direction))
  }

  /** The relative event of a gesture that starts. */
  function GestureExtra(s: Settings, m: Motion, dx: int16, dy: int16, release: bool): seq<Event> {
    if Ends(dx, dy, release) || s.gestures == map[] || !Acts(s, m, dx, dy) then []
    else SwitchExtra(s, m.gesture, DirectionFor(dx, dy))
  }

  /** A gesture that starts asks for the relative event bound to it, if there is one, and no other event
      of the motion asks for any, unless it is refused. */
  lemma GestureAsks(s: Settings, m: Motion, dx: int16, dy: int16, release: bool)
    requires Compiled(s)
    ensures var m', extra := MotionAfter(s, m, dx, dy, release), GestureExtra(s, m, dx, dy, release);
            && (m'.gesture != m.gesture && m'.gesture != NoGesture ==>
                  extra == if m'.gesture in s.gestures && s.gestures[m'.gesture].relative.Some? then
                             var (axis, value) := s.gestures[m'.gesture].relative.value; [Rel(axis, value)]
                           else [])
            && (m'.gesture == m.gesture || m'.gesture == NoGesture ==>
                  extra == [] || BindingOf(s.gestures, DirectionFor(dx, dy)).command)
  {
    if !Ends(dx, dy, release) && s.gestures != map[] { MotionCases(s, m, dx, dy); }
  }

  /** The relative events bound to newly pressed controls or to a new gesture. */
  ghost function BoundExtra(s: Settings, m: Memory, e: InputEvent): seq<Event> {
    match e
    case Buttons(controlIDs) => NewRelatives(s, Ids(Elements(controlIDs)), m.pressed)
    case RawXY(dx, dy, release) => GestureExtra(s, m.motion, dx, dy, release)
    case _ => []
  }

  /** The relative events of one turn of a wheel. */
  function TurnEvents(axes: set<Axis>, w: WheelId, coarse: int16, fine: int16, whole: int32): seq<Event> {
    if coarse != 0 then [Rel(CoarseAxis(w), coarse)]
    else if fine != 0 then HiResEvents(axes, FineAxis(w), CoarseAxis(w), fine, whole)
    else []
  }

  function TurnExtra(s: Settings, axes: set<Axis>, w: WheelId, rest: Rest, e: InputEvent): seq<Event> {
    TurnEvents(axes, w, CoarseDelta(s, w, e), FineDelta(s, w, e), Consume(rest, FineDelta(s, w, e)).0)
  }

  ghost function ExtraOf(s: Settings, axes: set<Axis>, m: Memory, e: InputEvent): seq<Event> {
    BoundExtra(s, m, e) + TurnExtra(s, axes, MainWheel, m.wheelRest, e) + TurnExtra(s, axes, ThumbWheel, m.thumbRest, e)
  }

  /** Every event concerns one of the three at most. */
  lemma EventCases(s: Settings, axes: set<Axis>, m: Memory, e: InputEvent)
    ensures ExtraOf(s, axes, m, e)
            == match e
               case WheelTurn(_, _) => TurnExtra(s, axes, MainWheel, m.wheelRest, e)
               case ThumbTurn(_) => TurnExtra(s, axes, ThumbWheel, m.thumbRest, e)
               case _ => BoundExtra(s, m, e)
    ensures MemoryAfter(s, m, e)
            == match e
               case Buttons(controlIDs) => m.(pressed := Elements(controlIDs))
               case RawXY(dx, dy, release) => m.(motion := MotionAfter(s, m.motion, dx, dy, release))
               case WheelTurn(_, _) => m.(wheelRest := RestAfter(s, MainWheel, m.wheelRest, e))
               case ThumbTurn(_) => m.(thumbRest := RestAfter(s, ThumbWheel, m.thumbRest, e))
               case OtherInput => m
  {
    ConsumeNothing(m.wheelRest);
    ConsumeNothing(m.thumbRest);
  }

  /** The keys held are exactly those that the pressed buttons and the gesture ask for. */
  ghost predicate SettledFor(s: Settings, m: Memory, held: set<Code>) {
    held == WantedKeys(s, m.pressed, m.motion.gesture)
  }

  /** What one event does to an open handler with this memory and keyboard. */
  ghost predicate HandledTo(s: Settings, axes: set<Axis>, e: InputEvent, ok: bool, m: Memory, m': Memory,
                            k: State, k': State)
  {
    && (ok && (Reconciles(e) || SettledFor(s, m, k.held)) ==> SettledFor(s, m', k'.held))
    && m' == (if Refused(s, m, e) then m else MemoryAfter(s, m, e))
    && (Refused(s, m, e) ==> !ok && k' == k)
    && AddsPart(k.log, k'.log, ok, ExtraOf(s, axes, m, e))
  }

  /** A turn of a wheel concerns nothing but its own accumulator and axes. */
  lemma TurnHandled(s: Settings, axes: set<Axis>, w: WheelId, e: InputEvent, ok: bool, m: Memory, m': Memory,
                    k: State, k': State)
    requires if w == MainWheel then e.WheelTurn? else e.ThumbTurn?
    requires var rest := RestAfter(s, w, RestOf(m, w), e);
             m' == if w == MainWheel then m.(wheelRest := rest) else m.(thumbRest := rest)
    requires ok && SettledFor(s, m, k.held) ==> SettledFor(s, m', k'.held)
    requires AddsPart(k.log, k'.log, ok, TurnExtra(s, axes, w, RestOf(m, w), e))
    ensures HandledTo(s, axes, e, ok, m, m', k, k')
  {
    EventCases(s, axes, m, e);
  }

  /** From one log to the other, the relative events are those of the first events of the stream and
      an initial part of the next. */
  ghost predicate ShowsThrough(before: seq<Event>, after: seq<Event>, s: Settings, axes: set<Axis>, m: Memory,
                               events: seq<InputEvent>, handled: nat)
    requires handled <= |events|
  {
    var all, done := StreamExtra(s, axes, m, events), StreamExtra(s, axes, m, events[..handled]);
    exists k | |done| <= k <= |all| :: Adds(before, after, all, k) && (handled == |events| ==> k == |all|)
  }

  /** Where the worker stands in the stream, as long as nothing failed. */
  ghost predicate Progress(log: seq<Event>, after: seq<Event>, ok: bool, s: Settings, axes: set<Axis>,
                           m: Memory, now: Memory, events: seq<InputEvent>, handled: nat)
    requires handled <= |events|
  {
    && ShowsThrough(log, after, s, axes, m, events, handled)
    && (ok ==> now == MemoryThrough(s, m, events[..handled]))
    && (ok ==> Rels(after) == Rels(log) + StreamExtra(s, axes, m, events[..handled]))
  }

  lemma ProgressStarts(log: seq<Event>, s: Settings, axes: set<Axis>, m: Memory, events: seq<InputEvent>)
    ensures Progress(log, log, true, s, axes, m, m, events, 0)
  {
    NothingShown(log, s, axes, m, events);
    assert Rels(log) == Rels(log) + [];
  }

  lemma ProgressStep(log: seq<Event>, before: seq<Event>, after: seq<Event>, ok: bool, s: Settings, axes: set<Axis>,
                     m: Memory, now: Memory, now': Memory, events: seq<InputEvent>, i: nat)
    requires i < |events| && Progress(log, before, true, s, axes, m, now, events, i)
    requires AddsPart(before, after, ok, ExtraOf(s, axes, now, events[i]))
    requires ok ==> now' == MemoryAfter(s, now, events[i])
    ensures Progress(log, after, ok, s, axes, m, now', events, if ok then i + 1 else i)
  {
    ShownNext(log, before, after, ok, s, axes, m, events, i);
    if ok { ShownAll(log, before, after, s, axes, m, events, i); }
  }

  lemma NothingShown(log: seq<Event>, s: Settings, axes: set<Axis>, m: Memory, events: seq<InputEvent>)
    ensures ShowsThrough(log, log, s, axes, m, events, 0)
    ensures MemoryThrough(s, m, events[..0]) == m && StreamExtra(s, axes, m, events[..0]) == []
  {
    assert events[..0] == [];
    assert Adds(log, log, StreamExtra(s, axes, m, events), 0);
  }

  lemma AddsExtend(log: seq<Event>, before: seq<Event>, after: seq<Event>, all: seq<Event>, done: seq<Event>,
                   extra: seq<Event>, k: nat)
    requires Rels(before) == Rels(log) + done && done + extra <= all
    requires k <= |extra| && Adds(before, after, extra, k)
    ensures |done| + k <= |all| && Adds(log, after, all, |done| + k)
  {
    assert all[..|done| + k] == (done + extra)[..|done| + k] == done + extra[..k];
    assert Rels(log) + done + extra[..k] == Rels(log) + (done + extra[..k]);
  }

  /** The next event extends what has been shown, if it succeeds by all of its relative events. */
  lemma ShownNext(log: seq<Event>, before: seq<Event>, after: seq<Event>, ok: bool, s: Settings, axes: set<Axis>,
                  m: Memory, events: seq<InputEvent>, i: nat)
    requires i < |events| && Rels(before) == Rels(log) + StreamExtra(s, axes, m, events[..i])
    requires AddsPart(before, after, ok, ExtraOf(s, axes, MemoryThrough(s, m, events[..i]), events[i]))
    ensures ShowsThrough(log, after, s, axes, m, events, if ok then i + 1 else i)
  {
    var done, all := StreamExtra(s, axes, m, events[..i]), StreamExtra(s, axes, m, events);
    var extra := ExtraOf(s, axes, MemoryThrough(s, m, events[..i]), events[i]);
    StreamSnoc(s, axes, m, events, i);
    StreamPrefix(s, axes, m, events, i + 1);
    var k :| 0 <= k <= |extra| && Adds(before, after, extra, k) && (ok ==> k == |extra|);
    AddsExtend(log, before, after, all, done, extra, k);
    if i + 1 == |events| { assert events[..i + 1] == events; }
  }

  lemma ShownAll(log: seq<Event>, before: seq<Event>, after: seq<Event>, s: Settings, axes: set<Axis>,
                 m: Memory, events: seq<InputEvent>, i: nat)
    requires i < |events| && Rels(before) == Rels(log) + StreamExtra(s, axes, m, events[..i])
    requires AddsPart(before, after, true, ExtraOf(s, axes, MemoryThrough(s, m, events[..i]), events[i]))
    ensures Rels(after) == Rels(log) + StreamExtra(s, axes, m, events[..i + 1])
    ensures MemoryThrough(s, m, events[..i + 1]) == MemoryAfter(s, MemoryThrough(s, m, events[..i]), events[i])
  {
    StreamSnoc(s, axes, m, events, i);
    AddsAll(log, before, after, StreamExtra(s, axes, m, events[..i]),
            ExtraOf(s, axes, MemoryThrough(s, m, events[..i]), events[i]));
  }

  lemma AddsAll(log: seq<Event>, before: seq<Event>, after: seq<Event>, done: seq<Event>, extra: seq<Event>)
    requires Rels(before) == Rels(log) + done && AddsPart(before, after, true, extra)
    ensures Rels(after) == Rels(log) + (done + extra)
  {
    var k :| 0 <= k <= |extra| && Adds(before, after, extra, k) && k == |extra|;
    assert extra[..k] == extra;
    assert Rels(log) + done + extra == Rels(log) + (done + extra);
  }

  lemma ShownStays(log: seq<Event>, before: seq<Event>, after: seq<Event>, s: Settings, axes: set<Axis>,
                   m: Memory, events: seq<InputEvent>, handled: nat)
    requires handled <= |events| && ShowsThrough(log, before, s, axes, m, events, handled)
    requires Rels(after) == Rels(before)
    ensures ShowsThrough(log, after, s, axes, m, events, handled)
  {
    var all, done := StreamExtra(s, axes, m, events), StreamExtra(s, axes, m, events[..handled]);
    var k :| |done| <= k <= |all| && Adds(log, before, all, k) && (handled == |events| ==> k == |all|);
    assert Adds(log, after, all, k);
  }

  function MemoryThrough(s: Settings, m: Memory, events: seq<InputEvent>): Memory {
    if events == [] then m
    else MemoryAfter(s, MemoryThrough(s, m, events[..|events| - 1]), events[|events| - 1])
  }

  /** All the relative events that a stream asks for, in order. */
  ghost function StreamExtra(s: Settings, axes: set<Axis>, m: Memory, events: seq<InputEvent>): seq<Event> {
    if events == [] then []
    else
      var earlier := events[..|events| - 1];
      StreamExtra(s, axes, m, earlier) + ExtraOf(s, axes, MemoryThrough(s, m, earlier), events[|events| - 1])
  }

  lemma StreamSnoc(s: Settings, axes: set<Axis>, m: Memory, events: seq<InputEvent>, i: nat)
    requires i < |events|
    ensures var before := MemoryThrough(s, m, events[..i]);
            && MemoryThrough(s, m, events[..i + 1]) == MemoryAfter(s, before, events[i])
            && StreamExtra(s, axes, m, events[..i + 1])
               == StreamExtra(s, axes, m, events[..i]) + ExtraOf(s, axes, before, events[i])
  {
    assert events[..i + 1][..i] == events[..i];
  }

  lemma {:induction false} StreamPrefix(s: Settings, axes: set<Axis>, m: Memory, events: seq<InputEvent>, i: nat)
    requires i <= |events|
    ensures StreamExtra(s, axes, m, events[..i]) <= StreamExtra(s, axes, m, events)
    decreases |events|
  {
    if i == |events| {
      assert events[..i] == events;
    } else {
      var earlier := events[..|events| - 1];
      assert earlier[..i] == events[..i];
      StreamPrefix(s, axes, m, earlier, i);
    }
  }

  // ---- What that adds up to on the axes of a wheel ----

  /** What a log shows of a wheel for a stream: its clicks and coarse turns on one axis, its fine
      motion on the other, both with what bindings add, and the clicks stay within one click of the
      motion but for what coarse turns make forgotten. */
  ghost predicate TurnsShown(before: seq<Event>, after: seq<Event>, s: Settings, axes: set<Axis>, w: WheelId,
                             m: Memory, events: seq<InputEvent>)
  {
    var t, bound := TallyOf(s, w, m, events), StreamBound(s, m, events);
    var (coarse, fine) := if w == MainWheel then (Wheel, WheelHiRes) else (HWheel, HWheelHiRes);
    && AxisSum(after, coarse) - AxisSum(before, coarse)
       == (if coarse in axes then t.clicks else 0) + t.coarse + AxisSum(bound, coarse)
    && AxisSum(after, fine) - AxisSum(before, fine)
       == (if fine in axes then t.motion else 0) + AxisSum(bound, fine)
    && -120 < RestOf(m, w) + t.motion - t.forgotten - 120 * t.clicks < 120
  }

  lemma LogShowsTurns(before: seq<Event>, after: seq<Event>, s: Settings, axes: set<Axis>, w: WheelId,
                      m: Memory, events: seq<InputEvent>)
    requires ShowsThrough(before, after, s, axes, m, events, |events|)
    ensures TurnsShown(before, after, s, axes, w, m, events)
  {
    var extra := StreamExtra(s, axes, m, events);
    assert extra[..|extra|] == extra;
    assert Rels(after) == Rels(before) + extra;
    StreamConservesMotion(s, w, m, events);
    StreamShowsTurns(s, axes, w, m, events);
    LogSum(before, after, extra, CoarseAxis(w));
    LogSum(before, after, extra, FineAxis(w));
  }

  lemma LogSum(before: seq<Event>, after: seq<Event>, extra: seq<Event>, axis: Axis)
    requires Rels(after) == Rels(before) + extra
    ensures AxisSum(after, axis) == AxisSum(before, axis) + AxisSum(extra, axis)
  {
    AxisSumOfRels(after, axis);
    AxisSumOfRels(before, axis);
    AxisSumConcat(Rels(before), extra, axis);
  }

  /** Whole clicks computed, fine motion received, coarse turns, and partial clicks forgotten. */
  datatype Tally = Tally(clicks: int, motion: int, coarse: int, forgotten: int)

  function TallyOf(s: Settings, w: WheelId, m: Memory, events: seq<InputEvent>): Tally {
    if events == [] then Tally(0, 0, 0, 0)
    else
      var earlier, e := events[..|events| - 1], events[|events| - 1];
      var t, rest := TallyOf(s, w, m, earlier), RestOf(MemoryThrough(s, m, earlier), w);
      Tally(t.clicks + Consume(rest, FineDelta(s, w, e)).0, t.motion + FineDelta(s, w, e),
            t.coarse + CoarseDelta(s, w, e), t.forgotten + if CoarseDelta(s, w, e) != 0 then rest else 0)
  }

  ghost function StreamBound(s: Settings, m: Memory, events: seq<InputEvent>): seq<Event> {
    if events == [] then []
    else
      var earlier := events[..|events| - 1];
      StreamBound(s, m, earlier) + BoundExtra(s, MemoryThrough(s, m, earlier), events[|events| - 1])
  }

  /** What each event adds to the tally of a wheel, by its kind. */
  lemma TallySteps(s: Settings, w: WheelId, m: Memory, events: seq<InputEvent>, e: InputEvent)
    ensures TallyOf(s, w, m, []) == Tally(0, 0, 0, 0)
    ensures var t, t' := TallyOf(s, w, m, events), TallyOf(s, w, m, events + [e]);
            && t'.motion - t.motion ==
               (if w == MainWheel && e.WheelTurn? && e.highResolution && s.wheelOutput then e.wheelDelta
                else if w == ThumbWheel && e.ThumbTurn? && s.thumbOutput then e.thumbDelta else 0)
            && t'.coarse - t.coarse ==
               (if w == MainWheel && e.WheelTurn? && !e.highResolution && s.wheelOutput then e.wheelDelta else 0)
            && (t'.coarse == t.coarse ==> t'.forgotten == t.forgotten)
            && -120 < t'.forgotten - t.forgotten < 120
  {
    assert (events + [e])[..|events|] == events;
  }

  lemma ConsumeNothing(rest: Rest)
    ensures Consume(rest, 0) == (0, rest)
  {
  }

  /** For every stream, however coarse and fine turns, buttons and gestures are mixed: the clicks and
      what is left of them make up the fine motion exactly, but for what coarse turns make forgotten. */
  lemma {:induction false} StreamConservesMotion(s: Settings, w: WheelId, m: Memory, events: seq<InputEvent>)
    ensures var t := TallyOf(s, w, m, events);
            120 * t.clicks + RestOf(MemoryThrough(s, m, events), w) + t.forgotten == RestOf(m, w) + t.motion
  {
    if events != [] {
      var earlier, e := events[..|events| - 1], events[|events| - 1];
      StreamConservesMotion(s, w, m, earlier);
      var rest := RestOf(MemoryThrough(s, m, earlier), w);
      TurnConserves(s, w, rest, e);
    }
  }

  lemma TurnConserves(s: Settings, w: WheelId, rest: Rest, e: InputEvent)
    ensures CLICK * Consume(rest, FineDelta(s, w, e)).0 + RestAfter(s, w, rest, e)
            + (if CoarseDelta(s, w, e) != 0 then rest else 0) == rest + FineDelta(s, w, e)
  {
    ConsumeNothing(rest);
    ConsumeSplits(rest, FineDelta(s, w, e), Consume(rest, FineDelta(s, w, e)).0, Consume(rest, FineDelta(s, w, e)).1);
  }

  /** And every stream asks for exactly these sums on the two axes of a wheel: the clicks and the
      coarse turns on the one, the fine motion on the other, each with what bindings add. */
  lemma {:induction false} StreamShowsTurns(s: Settings, axes: set<Axis>, w: WheelId, m: Memory,
                                            events: seq<InputEvent>)
    ensures var t, bound := TallyOf(s, w, m, events), StreamBound(s, m, events);
            var extra := StreamExtra(s, axes, m, events);
            && AxisSum(extra, CoarseAxis(w))
               == Supported(axes, CoarseAxis(w), t.clicks) + t.coarse + AxisSum(bound, CoarseAxis(w))
            && AxisSum(extra, FineAxis(w)) == Supported(axes, FineAxis(w), t.motion) + AxisSum(bound, FineAxis(w))
  {
    if events != [] {
      var earlier, e := events[..|events| - 1], events[|events| - 1];
      var m1 := MemoryThrough(s, m, earlier);
      StreamShowsTurns(s, axes, w, m, earlier);
      EventShowsTurn(s, axes, w, m1, e, CoarseAxis(w));
      EventShowsTurn(s, axes, w, m1, e, FineAxis(w));
      AxisSumConcat(StreamExtra(s, axes, m, earlier), ExtraOf(s, axes, m1, e), CoarseAxis(w));
      AxisSumConcat(StreamExtra(s, axes, m, earlier), ExtraOf(s, axes, m1, e), FineAxis(w));
      AxisSumConcat(StreamBound(s, m, earlier), BoundExtra(s, m1, e), CoarseAxis(w));
      AxisSumConcat(StreamBound(s, m, earlier), BoundExtra(s, m1, e), FineAxis(w));
    }
  }

  /** What one turn of a wheel shows on an axis. */
  function TurnValue(axes: set<Axis>, w: WheelId, coarse: int16, fine: int16, whole: int32, axis: Axis): int {
    if axis == CoarseAxis(w) then Supported(axes, axis, whole) + coarse
    else if axis == FineAxis(w) then Supported(axes, axis, fine)
    else 0
  }

  function TurnSum(s: Settings, axes: set<Axis>, w: WheelId, rest: Rest, e: InputEvent, axis: Axis): int {
    TurnValue(axes, w, CoarseDelta(s, w, e), FineDelta(s, w, e), Consume(rest, FineDelta(s, w, e)).0, axis)
  }

  lemma EventShowsTurn(s: Settings, axes: set<Axis>, w: WheelId, m: Memory, e: InputEvent, axis: Axis)
    requires axis == CoarseAxis(w) || axis == FineAxis(w)
    ensures AxisSum(ExtraOf(s, axes, m, e), axis)
            == AxisSum(BoundExtra(s, m, e), axis) + TurnSum(s, axes, w, RestOf(m, w), e, axis)
  {
    var main := TurnExtra(s, axes, MainWheel, m.wheelRest, e);
    var thumb := TurnExtra(s, axes, ThumbWheel, m.thumbRest, e);
    AxisSumConcat(BoundExtra(s, m, e) + main, thumb, axis);
    AxisSumConcat(BoundExtra(s, m, e), main, axis);
    TurnShows(s, axes, MainWheel, m.wheelRest, e, axis);
    TurnShows(s, axes, ThumbWheel, m.thumbRest, e, axis);
  }

  lemma TurnShows(s: Settings, axes: set<Axis>, w: WheelId, rest: Rest, e: InputEvent, axis: Axis)
    ensures AxisSum(TurnExtra(s, axes, w, rest, e), axis) == TurnSum(s, axes, w, rest, e, axis)
  {
    ConsumeNothing(rest);
    CoarseOrFine(s, w, e);
    TurnEventsShow(axes, w, CoarseDelta(s, w, e), FineDelta(s, w, e), Consume(rest, FineDelta(s, w, e)).0, axis);
  }

  lemma CoarseOrFine(s: Settings, w: WheelId, e: InputEvent)
    ensures CoarseDelta(s, w, e) == 0 || FineDelta(s, w, e) == 0
  {
  }

  lemma TurnEventsShow(axes: set<Axis>, w: WheelId, coarse: int16, fine: int16, whole: int32, axis: Axis)
    requires (coarse == 0 || fine == 0) && (fine == 0 ==> whole == 0)
    ensures AxisSum(TurnEvents(axes, w, coarse, fine, whole), axis) == TurnValue(axes, w, coarse, fine, whole, axis)
  {
    if coarse != 0 {
      SumOfOne(Rel(CoarseAxis(w), coarse), axis);
    } else if fine != 0 {
      HiResSum(axes, FineAxis(w), CoarseAxis(w), fine, whole, axis);
    } else {
      assert AxisSum([], axis) == 0;
    }
  }

  /** Of a turn that failed the clicks are shown as a whole, or lost as a whole. */
  lemma PartOfTurnShows(axes: set<Axis>, w: WheelId, coarse: int16, fine: int16, whole: int32, k: nat)
    requires (coarse == 0 || fine == 0) && (fine == 0 ==> whole == 0) && k <= |TurnEvents(axes, w, coarse, fine, whole)|
    ensures var shown := AxisSum(TurnEvents(axes, w, coarse, fine, whole)[..k], CoarseAxis(w));
            shown == 0 || shown == TurnValue(axes, w, coarse, fine, whole, CoarseAxis(w))
  {
    var events := TurnEvents(axes, w, coarse, fine, whole);
    if k == |events| {
      assert events[..k] == events;
      TurnEventsShow(axes, w, coarse, fine, whole, CoarseAxis(w));
    } else if k == 0 {
      assert events[..k] == [];
    } else {
      assert events[..k] == [Rel(FineAxis(w), fine)];
      SumOfOne(Rel(FineAxis(w), fine), CoarseAxis(w));
    }
  }

  function Supported(axes: set<Axis>, axis: Axis, value: int): int {
    if axis in axes then value else 0
  }

  lemma HiResSum(axes: set<Axis>, fine: Axis, coarse: Axis, delta: int32, whole: int32, axis: Axis)
    requires fine != coarse
    ensures AxisSum(HiResEvents(axes, fine, coarse, delta, whole), axis)
            == if axis == fine then Supported(axes, fine, delta)
               else if axis == coarse then Supported(axes, coarse, whole) else 0
  {
    var first := if fine in axes then [Rel(fine, delta)] else [];
    var second := if whole != 0 && coarse in axes then [Rel(coarse, whole)] else [];
    AxisSumConcat(first, second, axis);
    SumIf(fine in axes, Rel(fine, delta), axis);
    SumIf(whole != 0 && coarse in axes, Rel(coarse, whole), axis);
  }

  lemma SumIf(there: bool, e: Event, axis: Axis)
    ensures AxisSum(if there then [e] else [], axis) == if there then Value(e, axis) else 0
  {
    if there { SumOfOne(e, axis); }
  }

  lemma SumOfOne(e: Event, axis: Axis)
    ensures AxisSum([e], axis) == Value(e, axis)
  {
    assert [e] == [] + [e];
    AxisSumSnoc([], e, axis);
  }

  lemma ReleasesShowNothing(before: seq<Event>, releases: seq<Event>, after: seq<Event>)
    requires EmittedPart(before, releases, after) && forall e | e in releases :: e.Key?
    ensures Rels(after) == Rels(before)
  {
    var n :| 0 <= n <= |releases| && after == before + releases[..n];
    RelsConcat(before, releases[..n]);
    RelsOfKeys(releases[..n]);
  }

  lemma NothingDesired(s: Settings, heldOrder: seq<Code>)
    requires Compiled(s)
    ensures Plan(heldOrder, [], DesiredOrder(s, Ids({}), NoGesture)) == Releases(heldOrder, {})
    ensures DesiredOrder(s, Ids({}), NoGesture) == []
  {
    IdsSorted({});
    assert forall i | 0 <= i < |Ids({})| :: Ids({})[i] in Elements(Ids({}));
    assert Elements<Code>([]) == {};
  }

  lemma LeftOnlyWants()
    ensures WantedKeys(LEFT_ONLY, {}, Left) == {30}
  {
    assert Left in LEFT_ONLY.gestures && Elements<Code>([30]) == {30};
  }
}
