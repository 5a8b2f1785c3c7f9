/** HID report descriptors (internal/hidpp/report.go `descriptorReportLengths`,
    `RecognizeDescriptor`; Device Class Definition for HID 1.11, sections 6.2.2.2 to 6.2.2.7). */
module Descriptor {
  import opened Common
  import Wire

  // ---- Items and their bytes ----

  datatype Item = ShortItem(typ: int, tag: int, payload: seq<byte>) | LongItem(longTag: byte, payload: seq<byte>)

  const LONG_PREFIX := 0xfe

  /** The items that the encoding of sections 6.2.2.2 and 6.2.2.3 can express. The short prefix of
      a two-byte item with type 3 and tag 15 is the long item prefix. */
  predicate WellFormed(item: Item) {
    match item
    case ShortItem(typ, tag, payload) =>
      0 <= typ < 4 && 0 <= tag < 16 && |payload| in {0, 1, 2, 4} && !(typ == 3 && tag == 15 && |payload| == 2)
    case LongItem(_, payload) => |payload| < 0x100
  }

  function PrintItem(item: Item): seq<byte>
    requires WellFormed(item)
  {
    match item
    case ShortItem(typ, tag, payload) =>
      [tag * 16 + typ * 4 + if |payload| == 4 then 3 else |payload|] + payload
    case LongItem(longTag, payload) => [LONG_PREFIX, |payload|, longTag] + payload
  }

  function Print(items: seq<Item>): seq<byte>
    requires forall item | item in items :: WellFormed(item)
  {
    if items == [] then [] else PrintItem(items[0]) + Print(items[1..])
  }

  function SizeOf(prefix: byte): nat {
    if prefix % 4 == 3 then 4 else prefix % 4
  }

  /** How many bytes an item takes. */
  function Size(item: Item): nat {
    if item.LongItem? then 3 + |item.payload| else 1 + |item.payload|
  }

  /** The first item of the data, if it is all there. */
  function FirstItem(data: seq<byte>): (item: Option<Item>)
    requires data != []
    ensures item.Some? ==> Size(item.value) <= |data|
  {
    var prefix := data[0];
    if prefix == LONG_PREFIX then
      if |data| < 3 || data[1] > |data| - 3 then None
      else Some(LongItem(data[2], data[3..3 + data[1]]))
    else
      var size := SizeOf(prefix);
      if size > |data| - 1 then None
      else Some(ShortItem((prefix / 4) % 4, prefix / 16, data[1..1 + size]))
  }

  /** The format itself. The low two bits of the prefix of a short item say how many bytes follow, the
      next two are the type and the high four the tag; the long prefix is followed by the size and the
      long tag. */
  lemma ItemLayout(data: seq<byte>)
    requires data != []
    ensures data[0] != 0xfe ==>
              var n: int := [0, 1, 2, 4][data[0] % 4];
              && (FirstItem(data).Some? <==> |data| >= 1 + n)
              && (FirstItem(data).Some? ==>
                    var item := FirstItem(data).value;
                    && item.ShortItem? && item.payload == data[1..1 + n] && Size(item) == 1 + n
                    && 0 <= item.typ < 4 && 16 * item.tag + 4 * item.typ == data[0] - data[0] % 4)
    ensures data[0] == 0xfe ==>
              && (FirstItem(data).Some? <==> |data| >= 3 && |data| - 3 >= data[1])
              && (FirstItem(data).Some? ==> FirstItem(data).value == LongItem(data[2], data[3..3 + data[1]])
                                            && Size(FirstItem(data).value) - 3 == data[1])
  {
    Prefix(data[0]);
  }

  lemma FirstItemPrints(data: seq<byte>)
    requires data != [] && FirstItem(data).Some?
    ensures var item := FirstItem(data).value;
            WellFormed(item) && |PrintItem(item)| == Size(item) && PrintItem(item) == data[..Size(item)]
  {
    var item := FirstItem(data).value;
    if item.ShortItem? {
      Prefix(data[0]);
    }
  }

  lemma Prefix(prefix: byte)
    ensures prefix == prefix / 16 * 16 + (prefix / 4) % 4 * 4 + prefix % 4
    ensures SizeOf(prefix) == 2 ==> prefix % 4 == 2
  {
  }

  /** All complete items, and whether they account for every byte. */
  datatype Stream = Stream(items: seq<Item>, complete: bool)

  function Tokens(data: seq<byte>): Stream {
    if data == [] then Stream([], true)
    else
      match FirstItem(data)
      case None => Stream([], false)
      case Some(item) =>
        var rest := Tokens(data[Size(item)..]);
        Stream([item] + rest.items, rest.complete)
  }

  function Precede(items: seq<Item>, rest: Stream): Stream {
    Stream(items + rest.items, rest.complete)
  }

  lemma TokensCons(data: seq<byte>, item: Item)
    requires data != [] && FirstItem(data) == Some(item)
    ensures Tokens(data).items == [item] + Tokens(data[Size(item)..]).items
    ensures Tokens(data).complete == Tokens(data[Size(item)..]).complete
  {
  }

  lemma {:induction false} TokensWellFormed(data: seq<byte>)
    ensures forall item | item in Tokens(data).items :: WellFormed(item)
  {
    if data != [] && FirstItem(data).Some? {
      FirstItemPrints(data);
      TokensWellFormed(data[Size(FirstItem(data).value)..]);
    }
  }

  lemma PrintSplit(item: Item, data: seq<byte>, more: seq<Item>)
    requires WellFormed(item) && Size(item) <= |data| && PrintItem(item) == data[..Size(item)]
    requires forall i | i in more :: WellFormed(i)
    requires Print(more) <= data[Size(item)..]
    ensures Print([item] + more) <= data
    ensures Print(more) == data[Size(item)..] ==> Print([item] + more) == data
  {
    assert data == data[..Size(item)] + data[Size(item)..];
    assert ([item] + more)[1..] == more;
  }

  lemma {:induction false} PrintTokens(data: seq<byte>)
    ensures forall item | item in Tokens(data).items :: WellFormed(item)
    ensures Print(Tokens(data).items) <= data
    ensures Tokens(data).complete ==> Print(Tokens(data).items) == data
  {
    TokensWellFormed(data);
    if data != [] && FirstItem(data).Some? {
      FirstItemPrints(data);
      var item := FirstItem(data).value;
      PrintTokens(data[Size(item)..]);
      PrintSplit(item, data, Tokens(data[Size(item)..]).items);
    }
  }

  lemma FirstPrinted(item: Item, rest: seq<byte>)
    requires WellFormed(item)
    ensures |PrintItem(item)| == Size(item)
    ensures FirstItem(PrintItem(item) + rest) == Some(item)
  {
    var data := PrintItem(item) + rest;
    match item
    case LongItem(_, payload) =>
      assert data[3..3 + |payload|] == payload;
    case ShortItem(typ, tag, payload) =>
      PrintedPrefix(typ, tag, |payload|);
      assert data[1..1 + |payload|] == payload;
  }

  lemma PrintedPrefix(typ: int, tag: int, n: nat)
    requires 0 <= typ < 4 && 0 <= tag < 16 && n in {0, 1, 2, 4} && !(typ == 3 && tag == 15 && n == 2)
    ensures var prefix := tag * 16 + typ * 4 + if n == 4 then 3 else n;
            && 0 <= prefix < 0x100 && prefix != LONG_PREFIX
            && prefix / 16 == tag && (prefix / 4) % 4 == typ && SizeOf(prefix) == n
  {
  }

  lemma {:induction false} TokensPrintRest(items: seq<Item>, rest: seq<byte>)
    requires forall item | item in items :: WellFormed(item)
    ensures Tokens(Print(items) + rest) == Precede(items, Tokens(rest))
  {
    if items == [] {
      assert [] + rest == rest && [] + Tokens(rest).items == Tokens(rest).items;
    } else {
      TokensPrintRest(items[1..], rest);
      TokensAfterFirst(items, rest, Print(items[1..]), Tokens(rest));
    }
  }

  lemma TokensAfterFirst(items: seq<Item>, rest: seq<byte>, printed: seq<byte>, more: Stream)
    requires items != [] && (forall item | item in items :: WellFormed(item)) && printed == Print(items[1..])
    requires Tokens(printed + rest) == Precede(items[1..], more)
    ensures Tokens(Print(items) + rest) == Precede(items, more)
  {
    Associates(PrintItem(items[0]), printed, rest);
    TokensOfItem(items[0], printed + rest, Print(items) + rest);
    ItemsInParts(items, more.items);
  }

  lemma Associates(a: seq<byte>, b: seq<byte>, c: seq<byte>)
    ensures a + b + c == a + (b + c)
  {
  }

  lemma ItemsInParts(items: seq<Item>, more: seq<Item>)
    requires items != []
    ensures [items[0]] + (items[1..] + more) == items + more
  {
  }

  lemma TokensOfItem(item: Item, more: seq<byte>, data: seq<byte>)
    requires WellFormed(item) && data == PrintItem(item) + more
    ensures Tokens(data) == Precede([item], Tokens(more))
  {
    FirstPrinted(item, more);
    TokensCons(data, item);
    assert data[Size(item)..] == more;
  }

  lemma TokensPrint(items: seq<Item>)
    requires forall item | item in items :: WellFormed(item)
    ensures Tokens(Print(items)) == Stream(items, true)
  {
    TokensPrintRest(items, []);
    assert Print(items) + [] == Print(items) && items + [] == items;
  }

  /** A byte string is completely tokenised exactly when it is the print of a list of well-formed
      items, and then of that list only. */
  lemma TokensInversePrint(data: seq<byte>, items: seq<Item>)
    requires forall item | item in items :: WellFormed(item)
    ensures Tokens(data) == Stream(items, true) <==> Print(items) == data
  {
    PrintTokens(data);
    TokensPrint(items);
  }

  // ---- The item-level interpreter ----

  datatype Kind = Input | Output | Feature

  datatype Globals = Globals(size: int, count: int, id: byte)

  /** One data main item: `size * count` bits of one report in one direction. */
  datatype Field = Field(id: byte, kind: Kind, bits: int)

  datatype Machine = Machine(globals: Globals, stack: seq<Globals>, fields: seq<Field>)

  datatype Error =
    | Truncated | BadSize | BadReportID | BadCount | PopWithoutPush | NoSizeOrCount | SizeOverflow | LengthOverflow

  const START := Machine(Globals(0, 0, 0), [], [])

  /** Little-endian value. */
  function Unsigned(payload: seq<byte>): nat {
    if payload == [] then 0 else payload[0] + 0x100 * Unsigned(payload[1..])
  }

  function Bytes(bits: int): int {
    (bits + 7) / 8
  }

  function MainKind(tag: int): Option<Kind> {
    if tag == 8 then Some(Input) else if tag == 9 then Some(Output) else if tag == 11 then Some(Feature) else None
  }

  /** Payload bytes of one report in one direction: every main item is rounded up by itself. */
  function Total(fields: seq<Field>, id: byte, kind: Kind): int {
    if fields == [] then 0
    else
      var last := fields[|fields| - 1];
      Total(fields[..|fields| - 1], id, kind) + if last.id == id && last.kind == kind then Bytes(last.bits) else 0
  }

  function Step(m: Machine, item: Item): Result<Machine, Error> {
    if item.LongItem? then Ok(m)
    else if item.typ == 1 then StepGlobal(m, item.tag, item.payload)
    else if item.typ == 0 && MainKind(item.tag).Some? then StepMain(m, MainKind(item.tag).value)
    else Ok(m)
  }

  function StepGlobal(m: Machine, tag: int, payload: seq<byte>): Result<Machine, Error> {
    var g := m.globals;
    match tag
    case 7 =>
      if payload == [] || Unsigned(payload) > MAX_INT then Err(BadSize)
      else Ok(m.(globals := g.(size := Unsigned(payload))))
    case 8 =>
      if |payload| != 1 || payload[0] == 0 then Err(BadReportID) else Ok(m.(globals := g.(id := payload[0])))
    case 9 =>
      if payload == [] || Unsigned(payload) > MAX_INT then Err(BadCount)
      else Ok(m.(globals := g.(count := Unsigned(payload))))
    case 10 => Ok(m.(stack := m.stack + [g]))
    case 11 =>
      if m.stack == [] then Err(PopWithoutPush)
      else Ok(m.(globals := m.stack[|m.stack| - 1], stack := m.stack[..|m.stack| - 1]))
    case _ => Ok(m)
  }

  function StepMain(m: Machine, kind: Kind): Result<Machine, Error> {
    var g := m.globals;
    var bits := g.size * g.count;
    if g.size == 0 || g.count == 0 then Err(NoSizeOrCount)
    else if bits > MAX_INT then Err(SizeOverflow)
    else if Total(m.fields, g.id, kind) + Bytes(bits) > MAX_INT then Err(LengthOverflow)
    else Ok(m.(fields := m.fields + [Field(g.id, kind, bits)]))
  }

  function InterpretFrom(m: Machine, items: seq<Item>): Result<Machine, Error> {
    if items == [] then Ok(m)
    else
      match InterpretFrom(m, items[..|items| - 1])
      case Err(e) => Err(e)
      case Ok(m') => Step(m', items[|items| - 1])
  }

  function Interpret(items: seq<Item>): Result<Machine, Error> {
    InterpretFrom(START, items)
  }

  function Ids(fields: seq<Field>): set<byte> {
    set f | f in fields :: f.id
  }

  function Max(a: int, b: int): int {
    if a < b then b else a
  }

  function Lengths(fields: seq<Field>): map<byte, int> {
    map id | id in Ids(fields) ::
      Max(Total(fields, id, Input), Max(Total(fields, id, Output), Total(fields, id, Feature)))
  }

  /** What the descriptor bytes mean: the first failing item wins, then truncation. */
  function Meaning(data: seq<byte>): Result<map<byte, int>, Error> {
    match Interpret(Tokens(data).items)
    case Err(e) => Err(e)
    case Ok(m) => if Tokens(data).complete then Ok(Lengths(m.fields)) else Err(Truncated)
  }

  lemma {:induction false} ErrorsStick(items: seq<Item>, more: seq<Item>)
    requires Interpret(items).Err?
    ensures Interpret(items + more) == Interpret(items)
  {
    if more == [] {
      assert items + more == items;
    } else {
      var n := |more| - 1;
      ErrorsStick(items, more[..n]);
      assert (items + more)[..|items + more| - 1] == items + more[..n];
    }
  }

  /** Printed items mean what the interpreter makes of them. */
  lemma MeaningOfPrint(items: seq<Item>)
    requires forall item | item in items :: WellFormed(item)
    ensures Meaning(Print(items)).Ok? <==> Interpret(items).Ok?
    ensures Interpret(items).Ok? ==> Meaning(Print(items)) == Ok(Lengths(Interpret(items).value.fields))
  {
    TokensPrint(items);
  }

  /** Pop restores what the matching push saved, whatever the items between them did, as long as
      they are balanced themselves. */
  predicate Balanced(items: seq<Item>, depth: nat) {
    if items == [] then depth == 0
    else
      var item := items[|items| - 1];
      var earlier := items[..|items| - 1];
      if IsPush(item) then depth > 0 && Balanced(earlier, depth - 1)
      else if IsPop(item) then Balanced(earlier, depth + 1)
      else Balanced(earlier, depth)
  }

  lemma {:induction false} StackGrowsBy(m: Machine, items: seq<Item>, depth: nat)
    requires InterpretFrom(m, items).Ok? && Balanced(items, depth)
    ensures var stack := InterpretFrom(m, items).value.stack;
            |stack| == |m.stack| + depth && stack[..|m.stack|] == m.stack
  {
    if items != [] {
      var item := items[|items| - 1];
      var earlier := items[..|items| - 1];
      var d := if IsPush(item) then depth - 1
               else if IsPop(item) then depth + 1 else depth;
      StackGrowsBy(m, earlier, d);
    }
  }

  lemma {:induction false} InterpretConcat(m: Machine, a: seq<Item>, b: seq<Item>)
    ensures InterpretFrom(m, a + b)
            == match InterpretFrom(m, a)
               case Err(e) => Err(e)
               case Ok(m') => InterpretFrom(m', b)
  {
    if b == [] {
      assert a + b == a;
    } else {
      var n := |b| - 1;
      assert (a + b)[..|a + b| - 1] == a + b[..n];
      InterpretConcat(m, a, b[..n]);
    }
  }

  lemma InterpretOne(m: Machine, item: Item)
    ensures InterpretFrom(m, [item]) == Step(m, item)
  {
    assert [item][..0] == [];
  }

  predicate IsPush(item: Item) {
    item.ShortItem? && item.typ == 1 && item.tag == 10
  }

  predicate IsPop(item: Item) {
    item.ShortItem? && item.typ == 1 && item.tag == 11
  }

  /** In every list that is accepted, the global state after a pop is that before its push, and so
      is the rest of the stack. */
  lemma PushPopRestoresGlobals(before: seq<Item>, push: Item, items: seq<Item>, pop: Item)
    requires IsPush(push) && IsPop(pop) && Balanced(items, 0)
    requires Interpret(before + [push] + items + [pop]).Ok?
    ensures Interpret(before).Ok?
    ensures var m, m' := Interpret(before).value, Interpret(before + [push] + items + [pop]).value;
            m'.globals == m.globals && m'.stack == m.stack
  {
    InterpretConcat(START, before + [push] + items, [pop]);
    InterpretConcat(START, before + [push], items);
    InterpretConcat(START, before, [push]);
    var m := Interpret(before).value;
    InterpretOne(m, push);
    var pushed := m.(stack := m.stack + [m.globals]);
    StackGrowsBy(pushed, items, 0);
    InterpretOne(InterpretFrom(pushed, items).value, pop);
  }

  // ---- What each kind of item does, by its type and tag ----

  /** Everything but the five global items 7 to 11 and the main items 8, 9 and 11: collections, usages
      and other local items, reserved and long items. */
  predicate Neutral(item: Item) {
    || item.LongItem?
    || item.typ !in {0, 1}
    || (item.typ == 0 && item.tag !in {8, 9, 11})
    || (item.typ == 1 && item.tag !in {7, 8, 9, 10, 11})
  }

  /** Such an item, anywhere in a list, changes neither the result nor the error. */
  lemma NeutralItemsDoNotMatter(before: seq<Item>, item: Item, after: seq<Item>)
    requires Neutral(item)
    ensures Interpret(before + [item] + after) == Interpret(before + after)
  {
    InterpretConcat(START, before + [item], after);
    InterpretConcat(START, before, [item]);
    InterpretConcat(START, before, after);
    if Interpret(before).Ok? { InterpretOne(Interpret(before).value, item); }
  }

  /** An Input (tag 8), Output (tag 9) or Feature (tag 11) item is accepted exactly when size and count
      are set and its bits and the byte total fit, and then adds size times count bits to its own
      direction of the current report and nothing else. */
  lemma DataItemAddsBits(before: seq<Item>, item: Item, id: byte, kind: Kind)
    requires Interpret(before).Ok? && item.ShortItem? && item.typ == 0 && item.tag in {8, 9, 11}
    ensures var m := Interpret(before).value;
            var own := if item.tag == 8 then Input else if item.tag == 9 then Output else Feature;
            var bits := m.globals.size * m.globals.count;
            && (Interpret(before + [item]).Ok? <==>
                  && m.globals.size != 0 && m.globals.count != 0 && bits <= MAX_INT
                  && Total(m.fields, m.globals.id, own) + Bytes(bits) <= MAX_INT)
            && (Interpret(before + [item]).Ok? ==>
                  var m' := Interpret(before + [item]).value;
                  && m'.globals == m.globals && m'.stack == m.stack
                  && TotalBits(m'.fields, id, kind)
                     == TotalBits(m.fields, id, kind) + if id == m.globals.id && kind == own then bits else 0)
  {
    InterpretConcat(START, before, [item]);
    InterpretOne(Interpret(before).value, item);
    var m := Interpret(before).value;
    if Interpret(before + [item]).Ok? {
      var m' := Interpret(before + [item]).value;
      assert m'.fields[..|m.fields|] == m.fields;
    }
  }

  /** The global items: 7 sets the size, 8 the report ID and 9 the count, 10 saves all three and 11
      brings back what was saved last. */
  lemma GlobalItemsSet(before: seq<Item>, tag: int, payload: seq<byte>)
    requires Interpret(before).Ok? && 7 <= tag <= 11
    ensures GlobalItemSets(Interpret(before).value, tag, payload, Interpret(before + [ShortItem(1, tag, payload)]))
  {
    InterpretConcat(START, before, [ShortItem(1, tag, payload)]);
    InterpretOne(Interpret(before).value, ShortItem(1, tag, payload));
    var m := Interpret(before).value;
    if m.stack != [] { assert m.stack == m.stack[..|m.stack| - 1] + [m.stack[|m.stack| - 1]]; }
  }

  predicate GlobalItemSets(m: Machine, tag: int, payload: seq<byte>, r: Result<Machine, Error>) {
    match tag
    case 7 =>
      var v := Unsigned(payload);
      if payload == [] || v > MAX_INT then r == Err(BadSize)
      else r == Ok(Machine(Globals(v, m.globals.count, m.globals.id), m.stack, m.fields))
    case 8 =>
      if |payload| != 1 || payload[0] == 0 then r == Err(BadReportID)
      else r == Ok(Machine(Globals(m.globals.size, m.globals.count, payload[0]), m.stack, m.fields))
    case 9 =>
      var v := Unsigned(payload);
      if payload == [] || v > MAX_INT then r == Err(BadCount)
      else r == Ok(Machine(Globals(m.globals.size, v, m.globals.id), m.stack, m.fields))
    case 10 => r == Ok(Machine(m.globals, m.stack + [m.globals], m.fields))
    case _ =>
      if m.stack == [] then r == Err(PopWithoutPush)
      else r.Ok? && r.value.fields == m.fields && r.value.stack + [r.value.globals] == m.stack
  }

  /** At first nothing is set: without a report ID item reports have the ID 0, and a data item is an
      error until both size and count have been given. */
  lemma NothingIsSetAtFirst(item: Item)
    ensures Interpret([]) == Ok(Machine(Globals(0, 0, 0), [], []))
    ensures item.ShortItem? && item.typ == 0 && item.tag in {8, 9, 11} ==> Interpret([item]) == Err(NoSizeOrCount)
  {
    InterpretOne(START, item);
  }

  /** Parameters are little-endian numbers of up to four bytes. */
  lemma UnsignedBytes(a: byte, b: byte, c: byte, d: byte)
    ensures Unsigned([a]) == a
    ensures Unsigned([a, b]) == a + 256 * b
    ensures Unsigned([a, b, c, d]) == a + 256 * b + 65536 * c + 16777216 * d
  {
    UnsignedCons(a, []);
    UnsignedCons(b, []);
    UnsignedCons(a, [b]);
    UnsignedCons(d, []);
    UnsignedCons(c, [d]);
    UnsignedCons(b, [c, d]);
    UnsignedCons(a, [b, c, d]);
  }

  lemma UnsignedCons(b: byte, rest: seq<byte>)
    ensures Unsigned([b] + rest) == b + 256 * Unsigned(rest)
    ensures |rest| == 0 ==> [b] + rest == [b]
    ensures |rest| == 1 ==> [b] + rest == [b, rest[0]]
    ensures |rest| == 2 ==> [b] + rest == [b, rest[0], rest[1]]
    ensures |rest| == 3 ==> [b] + rest == [b, rest[0], rest[1], rest[2]]
  {
    assert ([b] + rest)[1..] == rest;
  }

  /** A descriptor is accepted exactly when it is the print of a list of items that is. */
  lemma AcceptedIsPrinted(data: seq<byte>)
    ensures Meaning(data).Ok? <==> exists items :: PrintsAccepted(items, data)
    ensures forall items :: PrintsAccepted(items, data) ==>
              Meaning(data) == Ok(Lengths(Interpret(items).value.fields))
  {
    if Meaning(data).Ok? {
      PrintTokens(data);
      assert PrintsAccepted(Tokens(data).items, data);
    }
    forall items | PrintsAccepted(items, data)
      ensures Meaning(data) == Ok(Lengths(Interpret(items).value.fields))
    {
      MeaningOfPrint(items);
    }
  }

  predicate PrintsAccepted(items: seq<Item>, data: seq<byte>) {
    (forall item | item in items :: WellFormed(item)) && Print(items) == data && Interpret(items).Ok?
  }

  /** The first item that fails decides, whatever bytes come after it. */
  lemma FirstErrorWins(items: seq<Item>, rest: seq<byte>)
    requires (forall item | item in items :: WellFormed(item)) && Interpret(items).Err?
    ensures Meaning(Print(items) + rest) == Err(Interpret(items).error)
  {
    TokensPrintRest(items, rest);
    ErrorsStick(items, Tokens(rest).items);
  }

  // ---- How the byte lengths relate to the bits ----

  function TotalBits(fields: seq<Field>, id: byte, kind: Kind): int {
    if fields == [] then 0
    else
      var last := fields[|fields| - 1];
      TotalBits(fields[..|fields| - 1], id, kind) + if last.id == id && last.kind == kind then last.bits else 0
  }

  function Count(fields: seq<Field>, id: byte, kind: Kind): nat {
    if fields == [] then 0
    else
      var last := fields[|fields| - 1];
      Count(fields[..|fields| - 1], id, kind) + if last.id == id && last.kind == kind then 1 else 0
  }

  lemma RoundingUp(total: int, bits: int)
    ensures Bytes(total + bits) <= Bytes(total) + Bytes(bits) <= Bytes(total + bits) + 1
    ensures bits % 8 == 0 ==> 8 * Bytes(bits) == bits
  {
  }

  /** Per report and direction: never too short, too long by less than one byte per main item
      after the first, and exact when every item fills whole bytes. */
  lemma {:induction false} LengthCoversBits(fields: seq<Field>, id: byte, kind: Kind)
    ensures var n := Count(fields, id, kind);
            && Bytes(TotalBits(fields, id, kind)) <= Total(fields, id, kind)
            && (n > 0 ==> Total(fields, id, kind) <= Bytes(TotalBits(fields, id, kind)) + n - 1)
            && (n == 0 ==> Total(fields, id, kind) == TotalBits(fields, id, kind) == 0)
            && ((forall f | f in fields && f.id == id && f.kind == kind :: f.bits % 8 == 0) ==>
                  8 * Total(fields, id, kind) == TotalBits(fields, id, kind))
  {
    if fields != [] {
      var rest := fields[..|fields| - 1];
      LengthCoversBits(rest, id, kind);
      RoundingUp(TotalBits(rest, id, kind), fields[|fields| - 1].bits);
      assert fields == rest + [fields[|fields| - 1]];
    }
  }

  /** Every accepted descriptor: a report is listed exactly when a main item mentions it, with a
      positive length that fits the platform's int and covers each of its directions. */
  lemma LengthsAreSound(data: seq<byte>, id: byte, kind: Kind)
    requires Meaning(data).Ok?
    ensures var fields := Interpret(Tokens(data).items).value.fields;
            && (id in Meaning(data).value <==> exists f :: f in fields && f.id == id)
            && (id in Meaning(data).value ==>
                  && 1 <= Meaning(data).value[id] <= MAX_INT
                  && Bytes(TotalBits(fields, id, kind)) <= Meaning(data).value[id]
                  && exists k :: Meaning(data).value[id] == Total(fields, id, k))
  {
    var items := Tokens(data).items;
    var fields := Interpret(items).value.fields;
    FieldsFit(items);
    LengthCoversBits(fields, id, kind);
    if f :| f in fields && f.id == id {
      TotalAtLeast(fields, f);
      var length := Meaning(data).value[id];
      LengthIsMaximum(fields, id);
    }
  }

  /** Every parameter and every total of the machine is a non-negative 64-bit integer. */
  ghost predicate Fits(m: Machine) {
    && (forall id, kind :: 0 <= Total(m.fields, id, kind) <= MAX_INT)
    && (forall f | f in m.fields :: 1 <= f.bits <= MAX_INT)
    && GlobalsFit(m.globals)
    && (forall g | g in m.stack :: GlobalsFit(g))
  }

  predicate GlobalsFit(g: Globals) {
    0 <= g.size <= MAX_INT && 0 <= g.count <= MAX_INT
  }

  lemma MainFits(m: Machine, kind: Kind)
    requires Fits(m) && StepMain(m, kind).Ok?
    ensures Fits(StepMain(m, kind).value)
  {
    var g := m.globals;
    Positive(g.size, g.count);
    var f := Field(g.id, kind, g.size * g.count);
    TotalSnoc(m.fields, f);
    forall id, k ensures 0 <= Total(m.fields + [f], id, k) <= MAX_INT {
      assert 0 <= Total(m.fields, id, k) <= MAX_INT;
    }
  }

  lemma Positive(a: nat, b: nat)
    requires a > 0 && b > 0
    ensures a * b >= 1
  {
  }

  lemma GlobalFits(m: Machine, tag: int, payload: seq<byte>)
    requires Fits(m) && StepGlobal(m, tag, payload).Ok?
    ensures Fits(StepGlobal(m, tag, payload).value)
  {
  }

  lemma {:induction false} FieldsFit(items: seq<Item>)
    requires Interpret(items).Ok?
    ensures Fits(Interpret(items).value)
  {
    if items == [] {
      assert Fits(START);
    } else {
      FieldsFit(items[..|items| - 1]);
      var m := Interpret(items[..|items| - 1]).value;
      var item := items[|items| - 1];
      if item.ShortItem? && item.typ == 1 {
        GlobalFits(m, item.tag, item.payload);
      } else if item.ShortItem? && item.typ == 0 && MainKind(item.tag).Some? {
        MainFits(m, MainKind(item.tag).value);
      }
    }
  }

  lemma {:induction false} TotalAtLeast(fields: seq<Field>, f: Field)
    requires f in fields && forall g | g in fields :: g.bits >= 1
    ensures Total(fields, f.id, f.kind) >= 1
  {
    var rest := fields[..|fields| - 1];
    assert fields == rest + [fields[|fields| - 1]];
    TotalNonnegative(rest, f.id, f.kind);
    if fields[|fields| - 1] != f { TotalAtLeast(rest, f); }
  }

  lemma {:induction false} TotalNonnegative(fields: seq<Field>, id: byte, kind: Kind)
    requires forall g | g in fields :: g.bits >= 1
    ensures Total(fields, id, kind) >= 0
  {
    if fields != [] { TotalNonnegative(fields[..|fields| - 1], id, kind); }
  }

  // ---- A report described in full ----

  /** The usual way to describe a report: its ID, the size and number of its fields, and one Input
      (0x81), Output (0x91) or Feature (0xb1) item. The bytes are accepted, and the report has as many
      bytes as its bits need. */
  lemma OneReport(id: byte, size: byte, count: byte, main: byte, flags: byte)
    requires id > 0 && size > 0 && count > 0 && main in {0x81, 0x91, 0xb1}
    ensures var r := Meaning([0x85, id, 0x75, size, 0x95, count, main, flags]);
            r.Ok? && r.value.Keys == {id} && 8 * r.value[id] - 8 < size * count <= 8 * r.value[id]
  {
    var kind := if main == 0x81 then Input else if main == 0x91 then Output else Feature;
    var items := OneReportItems(id, size, count, main, flags);
    OneReportMeans(id, size, count, main, flags, kind, items);
    MeaningOfPrint(items);
    OneFieldLengths(Field(id, kind, size * count));
  }

  /** The four items that these bytes spell. */
  lemma OneReportItems(id: byte, size: byte, count: byte, main: byte, flags: byte) returns (items: seq<Item>)
    requires main in {0x81, 0x91, 0xb1}
    ensures items == [ShortItem(1, 8, [id])] + [ShortItem(1, 7, [size])] + [ShortItem(1, 9, [count])]
                     + [ShortItem(0, main / 16, [flags])]
    ensures forall item | item in items :: WellFormed(item)
    ensures Print(items) == [0x85, id, 0x75, size, 0x95, count, main, flags]
  {
    var a, b, c, d := ShortItem(1, 8, [id]), ShortItem(1, 7, [size]), ShortItem(1, 9, [count]),
        ShortItem(0, main / 16, [flags]);
    var cd := [c] + [d];
    var bcd := [b] + cd;
    items := [a] + bcd;
    PrintedCons(d, [], main, flags);
    assert [d] + [] == [d];
    PrintedCons(c, [d], 0x95, count);
    PrintedCons(b, cd, 0x75, size);
    PrintedCons(a, bcd, 0x85, id);
    FourBytePairs([0x85, id], [0x75, size], [0x95, count], [main, flags]);
    FourItems(a, b, c, d);
  }

  lemma PrintedCons(item: Item, more: seq<Item>, prefix: byte, payload: byte)
    requires item.ShortItem? && item.payload == [payload] && 0 <= item.typ < 4 && 0 <= item.tag < 16
    requires prefix == 16 * item.tag + 4 * item.typ + 1 && forall i | i in more :: WellFormed(i)
    ensures forall i | i in [item] + more :: WellFormed(i)
    ensures Print([item] + more) == [prefix, payload] + Print(more)
  {
    assert ([item] + more)[1..] == more;
    assert PrintItem(item) == [prefix, payload];
  }

  lemma FourBytePairs(a: seq<byte>, b: seq<byte>, c: seq<byte>, d: seq<byte>)
    requires |a| == |b| == |c| == |d| == 2
    ensures a + (b + (c + (d + []))) == [a[0], a[1], b[0], b[1], c[0], c[1], d[0], d[1]]
  {
  }

  lemma FourItems(a: Item, b: Item, c: Item, d: Item)
    ensures [a] + ([b] + ([c] + [d])) == [a] + [b] + [c] + [d]
  {
  }

  lemma OneReportMeans(id: byte, size: byte, count: byte, main: byte, flags: byte, kind: Kind, items: seq<Item>)
    requires id > 0 && size > 0 && count > 0 && MainKind(main / 16) == Some(kind)
    requires items == [ShortItem(1, 8, [id])] + [ShortItem(1, 7, [size])] + [ShortItem(1, 9, [count])]
                      + [ShortItem(0, main / 16, [flags])]
    ensures size * count > 0
    ensures Interpret(items) == Ok(Machine(Globals(size, count, id), [], [Field(id, kind, size * count)]))
  {
    Positive(size, count);
    Scaled(size, count);
    UnsignedBytes(size, count, 0, 0);
    UnsignedBytes(count, size, 0, 0);
    var a, b, c, d := ShortItem(1, 8, [id]), ShortItem(1, 7, [size]), ShortItem(1, 9, [count]),
        ShortItem(0, main / 16, [flags]);
    AdvanceMachine([], START, a);
    assert [] + [a] == [a];
    AdvanceMachine([a], Machine(Globals(0, 0, id), [], []), b);
    AdvanceMachine([a] + [b], Machine(Globals(size, 0, id), [], []), c);
    AdvanceMachine([a] + [b] + [c], Machine(Globals(size, count, id), [], []), d);
    MainStarts(Globals(size, count, id), kind);
  }

  lemma MainStarts(g: Globals, kind: Kind)
    requires g.size > 0 && g.count > 0 && 0 < g.size * g.count <= MAX_INT
    ensures StepMain(Machine(g, [], []), kind) == Ok(Machine(g, [], [Field(g.id, kind, g.size * g.count)]))
  {
    assert [] + [Field(g.id, kind, g.size * g.count)] == [Field(g.id, kind, g.size * g.count)];
  }

  lemma OneFieldLengths(f: Field)
    requires f.bits > 0
    ensures Lengths([f]).Keys == {f.id} && Lengths([f])[f.id] == Bytes(f.bits)
    ensures 8 * Bytes(f.bits) - 8 < f.bits <= 8 * Bytes(f.bits)
  {
    assert Ids([f]) == {f.id};
    forall kind ensures Total([f], f.id, kind) == if kind == f.kind then Bytes(f.bits) else 0 {
      TotalOfOne(f, f.id, kind);
    }
  }

  lemma TotalOfOne(f: Field, id: byte, kind: Kind)
    ensures Total([f], id, kind) == if f.id == id && f.kind == kind then Bytes(f.bits) else 0
  {
    assert [f][..0] == [];
  }

  // ---- The parser ----

  function Power(n: nat): nat {
    if n == 0 then 1 else 0x100 * Power(n - 1)
  }

  lemma {:induction false} UnsignedSnoc(s: seq<byte>, b: byte)
    ensures Unsigned(s + [b]) == Unsigned(s) + Power(|s|) * b
  {
    if s != [] {
      assert (s + [b])[1..] == s[1..] + [b];
      UnsignedSnoc(s[1..], b);
      assert 0x100 * (Power(|s| - 1) * b) == Power(|s|) * b;
    }
  }

  lemma Powers()
    ensures Power(8) == 0x1_0000_0000_0000_0000
  {
    assert Power(2) == 0x1_0000;
    assert Power(4) == 0x100 * (0x100 * Power(2));
    assert Power(6) == 0x100 * (0x100 * Power(4));
  }

  lemma {:induction false} PowerMonotone(m: nat, n: nat)
    requires m <= n
    ensures 1 <= Power(m) <= Power(n)
  {
    if m < n { PowerMonotone(m, n - 1); } else if n > 0 { PowerMonotone(n - 1, n - 1); }
  }

  lemma NextByte(data: seq<byte>, i: nat)
    requires i < |data|
    ensures Unsigned(data[..i + 1]) == Unsigned(data[..i]) + Power(i) * data[i]
    ensures 0 <= Power(i) * data[i] <= 0xff * Power(i)
  {
    UnsignedSnoc(data[..i], data[i]);
    assert data[..i] + [data[i]] == data[..i + 1];
    Scaled(Power(i), data[i]);
  }

  lemma Scaled(unit: nat, b: byte)
    ensures 0 <= unit * b <= 0xff * unit
  {
  }

  /** Assembles up to eight bytes in a 64-bit word; shifted bytes occupy disjoint bits, so their
      bitwise or is a sum. */
  method UnsignedItem(data: seq<byte>) returns (r: Option<int>)
    ensures r.Some? <==> 1 <= |data| <= 8
    ensures r.Some? ==> r.value == Unsigned(data) && r.value < 0x1_0000_0000_0000_0000
  {
    if |data| == 0 || |data| > 8 { return None; }
    var value: int, unit: int := 0, 1;
    for i := 0 to |data|
      invariant unit == Power(i) && value == Unsigned(data[..i]) && 0 <= value < unit
    {
      NextByte(data, i);
      value := value + unit * data[i];
      unit := 0x100 * unit;
    }
    assert data[..|data|] == data;
    PowerMonotone(|data|, 8);
    Powers();
    return Some(value);
  }

  function Entry(lengths: map<byte, map<Kind, int>>, id: byte, kind: Kind): int {
    if id in lengths && kind in lengths[id] then lengths[id][kind] else 0
  }

  /** The nested map holds the totals of the fields seen so far. */
  ghost predicate Agrees(lengths: map<byte, map<Kind, int>>, fields: seq<Field>) {
    && lengths.Keys == Ids(fields)
    && forall id, kind :: Entry(lengths, id, kind) == Total(fields, id, kind)
  }

  lemma ProductFits(a: int, b: int)
    requires a >= 0 && b > 0
    ensures a > MAX_INT / b <==> a * b > MAX_INT
  {
    if a <= MAX_INT / b {
      assert a * b <= (MAX_INT / b) * b;
    } else {
      assert a * b >= (MAX_INT / b + 1) * b;
    }
  }

  /** The parser has read the items before the offset, and they have led the machine to m. */
  ghost predicate Reached(data: seq<byte>, offset: nat, items: seq<Item>, m: Machine) {
    exists rest {:trigger Precede(items, rest)} ::
      && offset <= |data|
      && rest == Tokens(data[offset..])
      && Tokens(data) == Precede(items, rest)
      && Interpret(items) == Ok(m)
  }

  lemma AdvanceTokens(data: seq<byte>, offset: nat, items: seq<Item>, item: Item, n: nat)
    requires offset < |data| && FirstItem(data[offset..]) == Some(item) && n == Size(item)
    requires Tokens(data).items == items + Tokens(data[offset..]).items
    ensures offset + n <= |data|
    ensures Tokens(data).items == items + [item] + Tokens(data[offset + n..]).items
    ensures Tokens(data[offset..]).complete == Tokens(data[offset + n..]).complete
  {
    TokensCons(data[offset..], item);
    DropDrop(data, offset, n);
    ConsAppend(items, item, Tokens(data[offset + n..]).items);
  }

  lemma DropDrop(data: seq<byte>, i: nat, j: nat)
    requires i + j <= |data|
    ensures data[i..][j..] == data[i + j..]
  {
  }

  lemma ConsAppend(items: seq<Item>, item: Item, more: seq<Item>)
    ensures items + ([item] + more) == items + [item] + more
  {
  }

  lemma AdvanceMachine(items: seq<Item>, m: Machine, item: Item)
    requires Interpret(items) == Ok(m)
    ensures Interpret(items + [item]) == Step(m, item)
  {
    assert (items + [item])[..|items|] == items;
  }

  lemma Advance(data: seq<byte>, offset: nat, items: seq<Item>, m: Machine, item: Item, m': Machine)
    requires Reached(data, offset, items, m) && offset < |data| && FirstItem(data[offset..]) == Some(item)
    requires Step(m, item) == Ok(m')
    ensures Reached(data, offset + Size(item), items + [item], m')
  {
    AdvanceTokens(data, offset, items, item, Size(item));
    AdvanceMachine(items, m, item);
    assert Tokens(data) == Precede(items + [item], Tokens(data[offset + Size(item)..]));
  }

  lemma Fails(data: seq<byte>, offset: nat, items: seq<Item>, m: Machine, item: Item, error: Error)
    requires Reached(data, offset, items, m) && offset < |data| && FirstItem(data[offset..]) == Some(item)
    requires Step(m, item) == Err(error)
    ensures Meaning(data) == Err(error)
  {
    AdvanceTokens(data, offset, items, item, Size(item));
    AdvanceMachine(items, m, item);
    ErrorsStick(items + [item], Tokens(data[offset + Size(item)..]).items);
  }

  lemma NothingRead(data: seq<byte>)
    ensures Reached(data, 0, [], START) && Agrees(map[], [])
  {
    assert data[0..] == data && Precede([], Tokens(data)) == Tokens(data);
  }

  lemma Stuck(data: seq<byte>, offset: nat, items: seq<Item>, m: Machine)
    requires Reached(data, offset, items, m) && offset < |data| && FirstItem(data[offset..]) == None
    ensures Meaning(data) == Err(Truncated)
  {
    assert items + Tokens(data[offset..]).items == items;
  }

  lemma Done(data: seq<byte>, items: seq<Item>, m: Machine)
    requires Reached(data, |data|, items, m)
    ensures Meaning(data) == Ok(Lengths(m.fields))
  {
    assert items + [] == items;
  }

  lemma {:induction false} TotalSnoc(fields: seq<Field>, f: Field)
    ensures Ids(fields + [f]) == Ids(fields) + {f.id}
    ensures forall id, kind :: Total(fields + [f], id, kind)
                               == Total(fields, id, kind) + if f.id == id && f.kind == kind then Bytes(f.bits) else 0
  {
    assert (fields + [f])[..|fields|] == fields;
    assert f in fields + [f];
    forall g | g in fields ensures g in fields + [f] {}
  }

  /** Reads the item at the offset, if all of it is there. */
  method ReadItem(data: seq<byte>, offset: nat) returns (r: Option<Item>)
    requires offset < |data|
    ensures r == FirstItem(data[offset..])
  {
    ghost var rest := data[offset..];
    var prefix := data[offset];
    if prefix == LONG_PREFIX {
      if |data| - (offset + 1) < 2 { return None; }
      var size := data[offset + 1];
      assert size == rest[1];
      if size > |data| - (offset + 3) { return None; }
      assert data[offset + 3..offset + 3 + size] == rest[3..3 + size];
      return Some(LongItem(data[offset + 2], data[offset + 3..offset + 3 + size]));
    }
    var size := SizeOf(prefix);
    if size > |data| - (offset + 1) { return None; }
    assert data[offset + 1..offset + 1 + size] == rest[1..1 + size];
    return Some(ShortItem((prefix / 4) % 4, prefix / 16, data[offset + 1..offset + 1 + size]));
  }

  /** The variables of the parser's loop besides its offset. */
  datatype Progress = Progress(state: Globals, stack: seq<Globals>, lengths: map<byte, map<Kind, int>>)

  function MachineOf(p: Progress, fields: seq<Field>): Machine {
    Machine(p.state, p.stack, fields)
  }

  /** The bytes of a descriptor are interpreted as the items they spell; every intermediate value
      is a 64-bit integer. */
  method DescriptorReportLengths(data: seq<byte>) returns (r: Result<map<byte, int>, Error>)
    ensures r == Meaning(data)
  {
    var p := Progress(Globals(0, 0, 0), [], map[]);
    var offset := 0;
    ghost var items: seq<Item>, fields: seq<Field> := [], [];
    NothingRead(data);
    while offset < |data|
      invariant offset <= |data|
      invariant Reached(data, offset, items, MachineOf(p, fields)) && Agrees(p.lengths, fields)
      decreases |data| - offset
    {
      var read := ReadItem(data, offset);
      if read.None? {
        Stuck(data, offset, items, MachineOf(p, fields));
        return Err(Truncated);
      }
      var next;
      ghost var fields';
      next, fields' := ApplyItem(read.value, p, items, fields);
      if next.Err? {
        Fails(data, offset, items, MachineOf(p, fields), read.value, next.error);
        return Err(next.error);
      }
      Advance(data, offset, items, MachineOf(p, fields), read.value, MachineOf(next.value, fields'));
      offset, p := offset + Size(read.value), next.value;
      items, fields := items + [read.value], fields';
    }
    Done(data, items, MachineOf(p, fields));
    FieldsFit(items);
    var result := LargestPerReport(p.lengths, fields);
    return Ok(result);
  }

  /** One item, as the tail of the parser's loop handles it. */
  method ApplyItem(item: Item, p: Progress, ghost items: seq<Item>, ghost fields: seq<Field>)
    returns (r: Result<Progress, Error>, ghost fields': seq<Field>)
    requires Agrees(p.lengths, fields) && Interpret(items) == Ok(MachineOf(p, fields))
    requires item.ShortItem? ==> |item.payload| <= 4
    ensures r.Err? ==> Step(MachineOf(p, fields), item) == Err(r.error)
    ensures r.Ok? ==>
              Step(MachineOf(p, fields), item) == Ok(MachineOf(r.value, fields')) && Agrees(r.value.lengths, fields')
  {
    fields' := fields;
    if item.ShortItem? && item.typ == 1 {
      var next := ApplyGlobal(p.state, p.stack, item.tag, item.payload, fields);
      if next.Err? { return Err(next.error), fields; }
      return Ok(Progress(next.value.0, next.value.1, p.lengths)), fields;
    } else if item.ShortItem? && item.typ == 0 && MainKind(item.tag).Some? {
      var kind := MainKind(item.tag).value;
      FieldsFit(items);
      var added := AddMainItem(p.lengths, p.state, kind, p.stack, fields);
      if added.Err? { return Err(added.error), fields; }
      return Ok(p.(lengths := added.value)), fields + [Field(p.state.id, kind, p.state.size * p.state.count)];
    }
    return Ok(p), fields;
  }

  /** A global item: assigns one parameter, or saves or restores all of them. */
  method ApplyGlobal(state: Globals, stack: seq<Globals>, tag: int, payload: seq<byte>, ghost fields: seq<Field>)
    returns (r: Result<(Globals, seq<Globals>), Error>)
    requires |payload| <= 8
    ensures var next := StepGlobal(Machine(state, stack, fields), tag, payload);
            && (r.Err? ==> next == Err(r.error))
            && (r.Ok? ==> next == Ok(Machine(r.value.0, r.value.1, fields)))
  {
    if tag == 7 {
      var value := UnsignedItem(payload);
      if value.None? || value.value > MAX_INT { return Err(BadSize); }
      return Ok((state.(size := value.value), stack));
    } else if tag == 8 {
      if |payload| != 1 || payload[0] == 0 { return Err(BadReportID); }
      return Ok((state.(id := payload[0]), stack));
    } else if tag == 9 {
      var value := UnsignedItem(payload);
      if value.None? || value.value > MAX_INT { return Err(BadCount); }
      return Ok((state.(count := value.value), stack));
    } else if tag == 10 {
      return Ok((state, stack + [state]));
    } else if tag == 11 {
      if |stack| == 0 { return Err(PopWithoutPush); }
      return Ok((stack[|stack| - 1], stack[..|stack| - 1]));
    }
    return Ok((state, stack));
  }

  /** A data main item: its byte length joins the total of its report and direction. */
  method AddMainItem(lengths: map<byte, map<Kind, int>>, state: Globals, kind: Kind,
                     ghost stack: seq<Globals>, ghost fields: seq<Field>)
    returns (r: Result<map<byte, map<Kind, int>>, Error>)
    requires Agrees(lengths, fields) && GlobalsFit(state)
    requires 0 <= Total(fields, state.id, kind) <= MAX_INT
    ensures StepMain(Machine(state, stack, fields), kind)
            == match r
               case Err(e) => Err(e)
               case Ok(_) => Ok(Machine(state, stack, fields + [Field(state.id, kind, state.size * state.count)]))
    ensures r.Ok? ==> Agrees(r.value, fields + [Field(state.id, kind, state.size * state.count)])
  {
    var payloadLength := ItemBytes(state);
    if payloadLength.Err? { return Err(payloadLength.error); }
    r := AddBytes(lengths, payloadLength.value, fields, Field(state.id, kind, state.size * state.count));
  }

  method AddBytes(lengths: map<byte, map<Kind, int>>, payloadLength: int64, ghost fields: seq<Field>, f: Field)
    returns (r: Result<map<byte, map<Kind, int>>, Error>)
    requires Agrees(lengths, fields) && payloadLength == Bytes(f.bits) >= 0
    requires 0 <= Total(fields, f.id, f.kind) <= MAX_INT
    ensures r.Err? <==> Total(fields, f.id, f.kind) + Bytes(f.bits) > MAX_INT
    ensures r.Err? ==> r.error == LengthOverflow
    ensures r.Ok? ==> Agrees(r.value, fields + [f])
  {
    var current := if f.id in lengths && f.kind in lengths[f.id] then lengths[f.id][f.kind] else 0;
    assert current == Entry(lengths, f.id, f.kind) == Total(fields, f.id, f.kind);
    if current > MAX_INT - payloadLength { return Err(LengthOverflow); }
    var sum: int64 := current + payloadLength;
    AgreesSnoc(lengths, fields, f);
    return Ok(With(lengths, f.id, f.kind, sum));
  }

  /** The byte length of one main item, checked before it is multiplied out. */
  method ItemBytes(state: Globals) returns (r: Result<int64, Error>)
    requires GlobalsFit(state)
    ensures r == if state.size == 0 || state.count == 0 then Err(NoSizeOrCount)
                 else if state.size * state.count > MAX_INT then Err(SizeOverflow)
                 else Ok(Bytes(state.size * state.count))
    ensures r.Ok? ==> r.value >= 0
  {
    if state.size == 0 || state.count == 0 { return Err(NoSizeOrCount); }
    ProductFits(state.size, state.count);
    if state.size > MAX_INT / state.count { return Err(SizeOverflow); }
    Positive(state.size, state.count);
    var bits: int64 := state.size * state.count;
    var payloadLength := WholeBytes(bits);
    return Ok(payloadLength);
  }

  method WholeBytes(bits: int64) returns (n: int64)
    requires bits >= 0
    ensures n == Bytes(bits) >= 0
  {
    n := bits / 8;
    if bits % 8 != 0 { n := n + 1; }
  }

  /** One entry of the nested map assigned, with an inner map made where there is none. */
  function With(lengths: map<byte, map<Kind, int>>, id: byte, kind: Kind, total: int): map<byte, map<Kind, int>> {
    lengths[id := (if id in lengths then lengths[id] else map[])[kind := total]]
  }

  lemma AgreesSnoc(lengths: map<byte, map<Kind, int>>, fields: seq<Field>, f: Field)
    requires Agrees(lengths, fields)
    ensures Agrees(With(lengths, f.id, f.kind, Total(fields, f.id, f.kind) + Bytes(f.bits)), fields + [f])
  {
    TotalSnoc(fields, f);
    var more := With(lengths, f.id, f.kind, Total(fields, f.id, f.kind) + Bytes(f.bits));
    forall id, kind ensures Entry(more, id, kind) == Total(fields + [f], id, kind) {
      assert Entry(lengths, id, kind) == Total(fields, id, kind);
    }
  }

  /** Keeps the longest direction of every report, whatever the iteration order of the maps. */
  method LargestPerReport(lengths: map<byte, map<Kind, int>>, ghost fields: seq<Field>) returns (result: map<byte, int>)
    requires Agrees(lengths, fields) && forall f | f in fields :: f.bits >= 1
    ensures result == Lengths(fields)
  {
    result := map[];
    var ids := lengths.Keys;
    while ids != {}
      invariant ids <= lengths.Keys
      invariant result.Keys == lengths.Keys - ids
      invariant forall id | id in result :: result[id] == Lengths(fields)[id]
      decreases |ids|
    {
      var id :| id in ids;
      ids := ids - {id};
      LargestIsLength(lengths, fields, id);
      var largest := Largest(lengths[id]);
      if largest > 0 {
        result := result[id := largest];
      }
    }
  }

  ghost predicate IsLargest(byKind: map<Kind, int>, m: int) {
    && m >= 0
    && (m > 0 ==> exists k :: k in byKind && byKind[k] == m)
    && forall k | k in byKind :: byKind[k] <= m
  }

  method Largest(byKind: map<Kind, int>) returns (largest: int)
    ensures IsLargest(byKind, largest)
  {
    largest := 0;
    var kinds := byKind.Keys;
    while kinds != {}
      invariant kinds <= byKind.Keys && largest >= 0
      invariant largest > 0 ==> exists k :: k in byKind && byKind[k] == largest
      invariant forall k | k in byKind && k !in kinds :: byKind[k] <= largest
      decreases |kinds|
    {
      var kind :| kind in kinds;
      kinds := kinds - {kind};
      if byKind[kind] > largest { largest := byKind[kind]; }
    }
  }

  lemma LengthIsMaximum(fields: seq<Field>, id: byte)
    requires id in Ids(fields)
    ensures forall k :: Total(fields, id, k) <= Lengths(fields)[id]
    ensures exists k :: Total(fields, id, k) == Lengths(fields)[id]
  {
    forall k ensures Total(fields, id, k) <= Lengths(fields)[id] {
      match k case Input => case Output => case Feature =>
    }
  }

  lemma LargestIsLength(lengths: map<byte, map<Kind, int>>, fields: seq<Field>, id: byte)
    requires Agrees(lengths, fields) && id in lengths && forall f | f in fields :: f.bits >= 1
    ensures Lengths(fields)[id] > 0
    ensures forall m :: IsLargest(lengths[id], m) ==> m == Lengths(fields)[id]
  {
    var f :| f in fields && f.id == id;
    TotalAtLeast(fields, f);
    var length := Lengths(fields)[id];
    LengthIsMaximum(fields, id);
    forall m | IsLargest(lengths[id], m) ensures m == length {
      forall kind ensures Total(fields, id, kind) <= m {
        assert Entry(lengths, id, kind) == Total(fields, id, kind);
      }
      if m > 0 {
        var k :| k in lengths[id] && lengths[id][k] == m;
        assert Entry(lengths, id, k) == Total(fields, id, k) <= length;
      }
    }
  }

  // ---- Recognising HID++ ----

  datatype Format = Format(id: byte, length: nat, parameterLength: nat, descriptorLength: nat, padding: nat)

  /** A report of the right ID whose described payload is the wire payload, with or without one
      byte of padding. */
  function Recognized(id: byte, payload: int): Option<Format> {
    if id == 0x10 && payload in {6, 7} then Some(Format(id, 7, 3, payload + 1, payload - 6))
    else if id == 0x11 && payload in {19, 20} then Some(Format(id, 20, 16, payload + 1, payload - 19))
    else None
  }

  function Formats(lengths: map<byte, int>, id: byte): seq<Format> {
    if id in lengths && Recognized(id, lengths[id]).Some? then [Recognized(id, lengths[id]).value] else []
  }

  /** A report is recognised exactly when its ID is that of a HID++ report and its described payload
      has the length of that report on the wire, with its ID or with one byte of padding; the format
      states these lengths. */
  lemma RecognizedFitsTheWire(id: byte, payload: int)
    ensures Recognized(id, payload).Some?
            <==> exists t: Wire.ReportType :: !t.Unknown? && Wire.IdOf(t) == id
                                              && Wire.Length(t) <= payload + 1 <= Wire.Length(t) + 1
    ensures forall t: Wire.ReportType :: Recognized(id, payload).Some? && Wire.IdOf(t) == id ==>
              Recognized(id, payload).value == Format(id, Wire.Length(t), Wire.Capacity(t), payload + 1,
                                                      payload + 1 - Wire.Length(t))
  {
    if Recognized(id, payload).Some? {
      var t := if id == 0x10 then Wire.Short else Wire.Long;
      assert Wire.IdOf(t) == id;
    }
  }

  lemma FormatsMean(lengths: map<byte, int>)
    ensures var formats := Formats(lengths, 0x10) + Formats(lengths, 0x11);
            && |formats| <= 2 && (|formats| == 2 ==> formats[0].id == 0x10 && formats[1].id == 0x11)
            && ((exists f :: f in formats && f.id == 0x10) <==> 0x10 in lengths && lengths[0x10] in {6, 7})
            && ((exists f :: f in formats && f.id == 0x11) <==> 0x11 in lengths && lengths[0x11] in {19, 20})
            && forall f | f in formats ::
                 && f.id in lengths && f.descriptorLength == lengths[f.id] + 1
                 && (f.length, f.parameterLength) == (if f.id == 0x10 then (7, 3) else (20, 16))
                 && f.padding == f.descriptorLength - f.length && f.padding in {0, 1}
  {
    var short, long := Formats(lengths, 0x10), Formats(lengths, 0x11);
    if 0x10 in lengths && lengths[0x10] in {6, 7} { assert short[0] in short + long; }
    if 0x11 in lengths && lengths[0x11] in {19, 20} { assert long[0] in short + long; }
  }

  /** Short before long, whatever the iteration order of the length map; refused exactly when the bytes
      are no descriptor, or describe neither report in one of its two lengths. */
  method RecognizeDescriptor(data: seq<byte>) returns (r: Result<seq<Format>, Option<Error>>)
    ensures r.Ok? <==>
              && Meaning(data).Ok?
              && ((0x10 in Meaning(data).value && Meaning(data).value[0x10] in {6, 7})
                  || (0x11 in Meaning(data).value && Meaning(data).value[0x11] in {19, 20}))
    ensures r.Ok? ==>
              && (|r.value| == 2 ==> r.value[0].id == 0x10 && r.value[1].id == 0x11)
              && forall f | f in r.value ::
                   && f.id in Meaning(data).value && f.descriptorLength == Meaning(data).value[f.id] + 1
                   && (f.length, f.parameterLength) == (if f.id == 0x10 then (7, 3) else (20, 16))
                   && f.padding == f.descriptorLength - f.length && f.padding in {0, 1}
    ensures Meaning(data).Err? ==> r == Err(Some(Meaning(data).error))
    ensures Meaning(data).Ok? ==>
              var formats := Formats(Meaning(data).value, 0x10) + Formats(Meaning(data).value, 0x11);
              r == if formats == [] then Err(None) else Ok(formats)
  {
    var parsed := DescriptorReportLengths(data);
    if parsed.Err? { return Err(Some(parsed.error)); }
    var formats := CollectFormats(parsed.value);
    FormatsMean(parsed.value);
    assert forall f | f in formats :: f.id in {0x10, 0x11};
    if formats == [] { return Err(None); }
    return Ok(formats);
  }

  method CollectFormats(lengths: map<byte, int>) returns (formats: seq<Format>)
    ensures formats == Formats(lengths, 0x10) + Formats(lengths, 0x11)
  {
    formats := [];
    ghost var short, long := Formats(lengths, 0x10), Formats(lengths, 0x11);
    var ids := lengths.Keys;
    while ids != {}
      invariant ids <= lengths.Keys
      invariant 0x10 in ids && 0x11 in ids ==> formats == []
      invariant 0x10 !in ids && 0x11 in ids ==> formats == short
      invariant 0x10 in ids && 0x11 !in ids ==> formats == long
      invariant 0x10 !in ids && 0x11 !in ids ==> formats == short + long || formats == long + short
      decreases |ids|
    {
      var id :| id in ids;
      ids := ids - {id};
      var payload := lengths[id];
      if id == 0x10 && (payload == 6 || payload == 7) {
        formats := formats + [Format(id, 7, 3, payload + 1, payload + 1 - 7)];
      } else if id == 0x11 && (payload == 19 || payload == 20) {
        formats := formats + [Format(id, 20, 16, payload + 1, payload + 1 - 20)];
      }
    }
    if |formats| == 2 && formats[0].id > formats[1].id {
      formats := [formats[1], formats[0]];
    }
    assert formats == short + long;
  }
}
