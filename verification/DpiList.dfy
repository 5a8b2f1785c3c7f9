/** The adjustable-DPI list of feature 0x2201 (internal/mxmaster/features.go `decodeDPIList`,
    `Supported`, `NearestDPI`). */
module DpiList {
  import opened Common

  const LIMIT := 4096
  const RANGE := 0xe000
  const MAX_REQUESTS := 256

  datatype Error =
    | RangeCut        // a range word without a step, a last value or a first value
    | RangeBackwards  // a range that ends at or before the value it starts from
    | TooLarge
    | NoTerminator    // the data ends before a zero word
    | ShortReply      // a reply without list bytes
    | CallFailed

  // ---- The list as a document ----

  /** A literal value, or the values reached from the previous one in equal steps up to a bound. */
  datatype Item = Literal(value: word) | Range(step: Step, last: word)

  type Step = x: int | 0 <= x < 0x2000

  function PrintItem(item: Item): seq<byte> {
    match item
    case Literal(v) => [v / 0x100, v % 0x100]
    case Range(step, last) =>
      [0xe0 + step / 0x100, step % 0x100, last / 0x100, last % 0x100]
  }

  function Print(items: seq<Item>): seq<byte> {
    if items == [] then [] else PrintItem(items[0]) + Print(items[1..])
  }

  /** The values after `from`, in steps, up to and including `last`. */
  function Progression(from: int, step: int, last: int): seq<word>
    requires from >= 0 && step > 0 && last < 0x1_0000
    decreases last - from
  {
    if from + step > last then [] else [from + step] + Progression(from + step, step, last)
  }

  /** It is the longest arithmetic progression that fits. */
  lemma {:induction false} ProgressionIsArithmetic(from: int, step: int, last: int)
    requires from >= 0 && step > 0 && from <= last < 0x1_0000
    ensures var s := Progression(from, step, last);
            && (forall i | 0 <= i < |s| :: s[i] == from + (i + 1) * step)
            && from + |s| * step <= last < from + (|s| + 1) * step
    decreases last - from
  {
    if from + step <= last {
      ProgressionIsArithmetic(from + step, step, last);
      var rest := Progression(from + step, step, last);
      var s := [from + step] + rest;
      assert (|s| + 1) * step == (|rest| + 1) * step + step && |s| * step == |rest| * step + step;
      forall i | 0 <= i < |s| ensures s[i] == from + (i + 1) * step {
        if i > 0 {
          assert s[i] == rest[i - 1] == from + step + i * step;
          assert (i + 1) * step == i * step + step;
        }
      }
    }
  }

  /** A word that is neither the terminator nor a range marker; a range needs a value to start from
      and must end after it. */
  predicate ItemFits(item: Item, values: seq<word>) {
    match item
    case Literal(v) => 0 < v < RANGE
    case Range(step, last) => step > 0 && values != [] && last > values[|values| - 1]
  }

  function Extend(values: seq<word>, item: Item): seq<word>
    requires ItemFits(item, values)
  {
    match item
    case Literal(v) => values + [v]
    case Range(step, last) => values + Progression(values[|values| - 1], step, last)
  }

  /** A well-formed list: every item fits what precedes it, and the values never exceed the limit. */
  predicate ListFits(values: seq<word>, items: seq<Item>)
    decreases items
  {
    items == [] || (ItemFits(items[0], values)
                    && |Extend(values, items[0])| <= LIMIT
                    && ListFits(Extend(values, items[0]), items[1..]))
  }

  function Expand(values: seq<word>, items: seq<Item>): seq<word>
    requires ListFits(values, items)
    decreases items
  {
    if items == [] then values else Expand(Extend(values, items[0]), items[1..])
  }

  // ---- Decoding ----

  function WordAt(data: seq<byte>, offset: nat): word
    requires offset + 1 < |data|
  {
    BigEndian(data[offset], data[offset + 1])
  }

  /** The item that the words at the offset spell, given the values so far. */
  function ItemAt(data: seq<byte>, offset: nat, values: seq<word>): Result<Item, Error>
    requires offset + 1 < |data| && WordAt(data, offset) != 0
  {
    var value := WordAt(data, offset);
    if value < RANGE then Ok(Literal(value))
    else if value == RANGE || offset + 3 >= |data| || values == [] then Err(RangeCut)
    else if WordAt(data, offset + 2) <= values[|values| - 1] then Err(RangeBackwards)
    else Ok(Range(value - RANGE, WordAt(data, offset + 2)))
  }

  function DecodeFrom(data: seq<byte>, offset: nat, values: seq<word>): Result<seq<word>, Error>
    decreases |data| - offset
  {
    if offset + 1 >= |data| then Err(NoTerminator)
    else if WordAt(data, offset) == 0 then Ok(values)
    else
      match ItemAt(data, offset, values)
      case Err(e) => Err(e)
      case Ok(item) =>
        var longer := Extend(values, item);
        if |longer| > LIMIT then Err(TooLarge)
        else DecodeFrom(data, offset + |PrintItem(item)|, longer)
  }

  function Decode(data: seq<byte>): Result<seq<word>, Error> {
    DecodeFrom(data, 0, [])
  }

  lemma PrintedItemIsRead(data: seq<byte>, offset: nat, values: seq<word>, item: Item)
    requires ItemFits(item, values)
    requires offset + |PrintItem(item)| <= |data|
    requires data[offset..offset + |PrintItem(item)|] == PrintItem(item)
    ensures WordAt(data, offset) != 0 && ItemAt(data, offset, values) == Ok(item)
  {
    var bytes := data[offset..offset + |PrintItem(item)|];
    assert bytes[0] == data[offset] && bytes[1] == data[offset + 1];
    if item.Range? {
      assert bytes[2] == data[offset + 2] && bytes[3] == data[offset + 3];
    }
  }

  lemma PrefixSplit(head: seq<byte>, tail: seq<byte>, data: seq<byte>, offset: nat)
    requires offset <= |data| && head + tail <= data[offset..]
    ensures offset + |head| <= |data| && data[offset..offset + |head|] == head && tail <= data[offset + |head|..]
  {
    assert head + tail == data[offset..offset + |head| + |tail|];
    assert head == (head + tail)[..|head|];
    assert tail == (head + tail)[|head|..];
  }

  lemma PrintHead(data: seq<byte>, offset: nat, items: seq<Item>)
    requires items != [] && offset <= |data| && Print(items) + [0, 0] <= data[offset..]
    ensures var n := |PrintItem(items[0])|;
            && offset + n <= |data|
            && data[offset..offset + n] == PrintItem(items[0])
            && Print(items[1..]) + [0, 0] <= data[offset + n..]
  {
    PrintOne(items);
    PrefixSplit(PrintItem(items[0]), Print(items[1..]) + [0, 0], data, offset);
  }

  lemma PrintOne(items: seq<Item>)
    requires items != []
    ensures Print(items) + [0, 0] == PrintItem(items[0]) + (Print(items[1..]) + [0, 0])
  {
  }

  lemma DecodeEnd(data: seq<byte>, offset: nat, values: seq<word>)
    requires offset <= |data| && [0, 0] <= data[offset..]
    ensures DecodeFrom(data, offset, values) == Ok(values) && ZeroEnd(data, offset) == Some(offset + 2)
  {
    assert data[offset..][0] == data[offset] && data[offset..][1] == data[offset + 1];
  }

  lemma DecodeStep(data: seq<byte>, offset: nat, values: seq<word>, item: Item)
    requires offset + 1 < |data| && WordAt(data, offset) != 0 && ItemAt(data, offset, values) == Ok(item)
    ensures ItemFits(item, values)
    ensures DecodeFrom(data, offset, values)
            == if |Extend(values, item)| > LIMIT then Err(TooLarge)
               else DecodeFrom(data, offset + |PrintItem(item)|, Extend(values, item))
  {
  }

  /** Round trip, with any bytes after the terminator. */
  lemma {:induction false} DecodePrintFrom(data: seq<byte>, offset: nat, values: seq<word>, items: seq<Item>)
    requires offset <= |data| && Print(items) + [0, 0] <= data[offset..]
    requires ListFits(values, items)
    ensures DecodeFrom(data, offset, values) == Ok(Expand(values, items))
    decreases items
  {
    if items == [] {
      DecodeEnd(data, offset, values);
    } else {
      PrintHead(data, offset, items);
      PrintedItemIsRead(data, offset, values, items[0]);
      DecodeStep(data, offset, values, items[0]);
      DecodePrintFrom(data, offset + |PrintItem(items[0])|, Extend(values, items[0]), items[1..]);
    }
  }

  lemma DecodeInvertsPrint(items: seq<Item>, junk: seq<byte>)
    requires ListFits([], items)
    ensures Decode(Print(items) + [0, 0] + junk) == Ok(Expand([], items))
  {
    var data := Print(items) + [0, 0] + junk;
    assert data[0..] == data;
    DecodePrintFrom(data, 0, [], items);
  }

  lemma ReadItemPrints(data: seq<byte>, offset: nat, values: seq<word>)
    requires offset + 1 < |data| && WordAt(data, offset) != 0 && ItemAt(data, offset, values).Ok?
    ensures var item := ItemAt(data, offset, values).value;
            && ItemFits(item, values)
            && offset + |PrintItem(item)| <= |data|
            && data[offset..offset + |PrintItem(item)|] == PrintItem(item)
  {
    var item := ItemAt(data, offset, values).value;
    WordBytes(data[offset], data[offset + 1]);
    if item.Range? {
      WordBytes(data[offset + 2], data[offset + 3]);
    }
  }

  lemma WordBytes(high: byte, low: byte)
    ensures BigEndian(high, low) / 0x100 == high && BigEndian(high, low) % 0x100 == low
    ensures BigEndian(high, low) >= RANGE ==>
              0xe0 + (BigEndian(high, low) - RANGE) / 0x100 == high && (BigEndian(high, low) - RANGE) % 0x100 == low
  {
  }

  lemma PrintCons(data: seq<byte>, offset: nat, item: Item, more: seq<Item>)
    requires offset + |PrintItem(item)| <= |data|
    requires data[offset..offset + |PrintItem(item)|] == PrintItem(item)
    requires Print(more) + [0, 0] <= data[offset + |PrintItem(item)|..]
    ensures Print([item] + more) + [0, 0] <= data[offset..]
  {
    var n := |PrintItem(item)|;
    assert data[offset..] == data[offset..offset + n] + data[offset + n..];
    assert ([item] + more)[1..] == more;
    assert Print([item] + more) + [0, 0] == PrintItem(item) + (Print(more) + [0, 0]);
  }

  /** Conversely, whatever decodes is the print of a well-formed list, a zero word and a tail. */
  lemma {:induction false} DecodedFrom(data: seq<byte>, offset: nat, values: seq<word>) returns (items: seq<Item>)
    requires offset <= |data| && DecodeFrom(data, offset, values).Ok?
    ensures ListFits(values, items) && DecodeFrom(data, offset, values) == Ok(Expand(values, items))
    ensures Print(items) + [0, 0] <= data[offset..]
    decreases |data| - offset
  {
    if WordAt(data, offset) == 0 {
      items := [];
      assert data[offset..][..2] == [0, 0];
    } else {
      ReadItemPrints(data, offset, values);
      var item := ItemAt(data, offset, values).value;
      var n := |PrintItem(item)|;
      var more := DecodedFrom(data, offset + n, Extend(values, item));
      items := [item] + more;
      PrintCons(data, offset, item, more);
    }
  }

  /** The decoder accepts exactly the well-formed lists. */
  lemma DecodeCharacterised(data: seq<byte>, values: seq<word>)
    ensures Decode(data) == Ok(values)
            <==> exists items :: ListFits([], items) && Expand([], items) == values && Print(items) + [0, 0] <= data
  {
    if Decode(data) == Ok(values) {
      var items := DecodedFrom(data, 0, []);
      assert data[0..] == data;
    }
    if items :| ListFits([], items) && Expand([], items) == values && Print(items) + [0, 0] <= data {
      var n := |Print(items)| + 2;
      assert data == Print(items) + [0, 0] + data[n..];
      DecodeInvertsPrint(items, data[n..]);
    }
  }

  lemma DecodeFails(data: seq<byte>, offset: nat, values: seq<word>, error: Error)
    requires offset + 1 < |data| && WordAt(data, offset) != 0 && ItemAt(data, offset, values) == Err(error)
    ensures DecodeFrom(data, offset, values) == Err(error)
  {
  }

  /** The usual list, byte by byte: a first value, a range marker with its step in the low 13 bits, the
      last value, and the zero word. */
  function RangeBytes(first: word, step: Step, last: word): seq<byte> {
    [first / 256, first % 256, 0xe0 + step / 256, step % 256, last / 256, last % 256, 0, 0]
  }

  /** It stands for the values from the first to the last in equal steps, of which there may be 4096;
      the step must not be zero and the range must go up. */
  lemma RangeListMeans(first: word, step: Step, last: word)
    requires 0 < first < 0xe000
    ensures step == 0 ==> Decode(RangeBytes(first, step, last)) == Err(RangeCut)
    ensures step > 0 && last <= first ==> Decode(RangeBytes(first, step, last)) == Err(RangeBackwards)
    ensures step > 0 && last > first ==>
              var n, r := (last - first) / step + 1, Decode(RangeBytes(first, step, last));
              && (n > 4096 ==> r == Err(TooLarge))
              && (n <= 4096 ==> r.Ok? && |r.value| == n && forall i | 0 <= i < n :: r.value[i] == first + i * step)
  {
    var data := RangeBytes(first, step, last);
    DecodeStep(data, 0, [], Literal(first));
    assert [] + [first] == [first];
    assert Decode(data) == DecodeFrom(data, 2, [first]);
    if step == 0 {
      DecodeFails(data, 2, [first], RangeCut);
    } else if last <= first {
      DecodeFails(data, 2, [first], RangeBackwards);
    } else {
      DecodeStep(data, 2, [first], Range(step, last));
      RangeValues(first, step, last);
    }
  }

  lemma RangeValues(first: word, step: Step, last: word)
    requires step > 0 && last > first
    ensures var values := Extend([first], Range(step, last));
            |values| == (last - first) / step + 1 && forall i | 0 <= i < |values| :: values[i] == first + i * step
  {
    var s := Progression(first, step, last);
    ProgressionIsArithmetic(first, step, last);
    Quotient(last - first, step, |s|);
  }

  lemma Quotient(a: nat, b: nat, q: nat)
    requires b > 0 && q * b <= a < (q + 1) * b
    ensures a / b == q
  {
    assert (a / b) * b <= a < (a / b + 1) * b;
    Cancel(q, a / b + 1, b);
    Cancel(a / b, q + 1, b);
  }

  lemma Cancel(x: int, y: int, b: nat)
    requires x * b < y * b
    ensures x < y
  {
  }

  /** A range without a value to start from, or without its last value, is an error. */
  lemma RangeNeedsItsEnds(data: seq<byte>)
    requires |data| >= 2 && data[0] >= 0xe0
    ensures Decode(data) == Err(RangeCut)
  {
    DecodeFails(data, 0, [], RangeCut);
  }

  /** The inner loop of the decoder: the limit is checked after every appended value. */
  method AppendRange(start: seq<word>, step: Step, last: word) returns (r: Result<seq<word>, Error>)
    requires ItemFits(Range(step, last), start) && |start| <= LIMIT
    ensures var whole := Extend(start, Range(step, last));
            r == if |whole| > LIMIT then Err(TooLarge) else Ok(whole)
  {
    var values := start;
    ghost var whole := Extend(start, Range(step, last));
    var next: int := values[|values| - 1] + step;
    while next <= last
      invariant values != [] && values[|values| - 1] == next - step && |values| <= LIMIT
      invariant whole == values + Progression(next - step, step, last)
      decreases last - next
    {
      ghost var rest := Progression(next - step, step, last);
      assert rest == [next] + Progression(next, step, last);
      assert values + rest == values + [next] + rest[1..];
      values := values + [next];
      next := next + step;
      if |values| > LIMIT { return Err(TooLarge); }
    }
    assert values + [] == values;
    return Ok(values);
  }

  /** The decoder's loop over the words. */
  method DecodeDpiList(data: seq<byte>) returns (r: Result<seq<word>, Error>)
    ensures r == Decode(data)
  {
    var values: seq<word> := [];
    var offset := 0;
    while offset + 1 < |data|
      invariant 0 <= offset <= |data| && |values| <= LIMIT
      invariant Decode(data) == DecodeFrom(data, offset, values)
      decreases |data| - offset
    {
      if WordAt(data, offset) == 0 { return Ok(values); }
      r, offset := DecodeItem(data, offset, values);
      if r.Err? { return; }
      values := r.value;
    }
    return Err(NoTerminator);
  }

  /** One turn of the loop: appends what the words at the offset spell and moves behind them. */
  method DecodeItem(data: seq<byte>, offset: nat, values: seq<word>) returns (r: Result<seq<word>, Error>, next: nat)
    requires offset + 1 < |data| && WordAt(data, offset) != 0 && |values| <= LIMIT
    ensures r.Err? ==> DecodeFrom(data, offset, values) == r
    ensures r.Ok? ==> |r.value| <= LIMIT && offset < next <= |data|
                      && DecodeFrom(data, offset, values) == DecodeFrom(data, next, r.value)
  {
    next := offset;
    var value := WordAt(data, offset);
    if value >= RANGE {
      var step := value - RANGE;
      if step == 0 || offset + 3 >= |data| || |values| == 0 {
        DecodeFails(data, offset, values, RangeCut);
        return Err(RangeCut), next;
      }
      var last := WordAt(data, offset + 2);
      if last <= values[|values| - 1] {
        DecodeFails(data, offset, values, RangeBackwards);
        return Err(RangeBackwards), next;
      }
      DecodeStep(data, offset, values, Range(step, last));
      r := AppendRange(values, step, last);
      return r, offset + 4;
    }
    DecodeStep(data, offset, values, Literal(value));
    if |values| + 1 > LIMIT { return Err(TooLarge), next; }
    return Ok(values + [value]), offset + 2;
  }

  // ---- Reading the list in chunks ----

  /** Where the first zero word at an even offset ends. */
  function ZeroEnd(data: seq<byte>, offset: nat): (end: Option<nat>)
    ensures end.Some? ==> offset + 2 <= end.value <= |data|
    decreases |data| - offset
  {
    if offset + 1 >= |data| then None
    else if data[offset] == 0 && data[offset + 1] == 0 then Some(offset + 2)
    else ZeroEnd(data, offset + 2)
  }

  /** One reply per chunk number; None is a failed call. */
  type Replies = s: seq<Option<seq<byte>>> | |s| == MAX_REQUESTS witness seq(MAX_REQUESTS, _ => None)

  /** The encoded list that the requests from `chunk` on complete. */
  function Assemble(replies: Replies, chunk: nat, encoded: seq<byte>): Result<seq<byte>, Error>
    requires chunk <= MAX_REQUESTS
    decreases MAX_REQUESTS - chunk
  {
    if chunk == MAX_REQUESTS then Err(NoTerminator)
    else
      match replies[chunk]
      case None => Err(CallFailed)
      case Some(data) =>
        if |data| < 2 then Err(ShortReply)
        else
          var longer := encoded + data[1..];
          if ZeroEnd(longer, 0).Some? then Ok(longer[..ZeroEnd(longer, 0).value])
          else if |data| < 16 then Err(NoTerminator)
          else Assemble(replies, chunk + 1, longer)
  }

  function SupportedValues(replies: Replies): Result<seq<word>, Error> {
    match Assemble(replies, 0, [])
    case Err(e) => Err(e)
    case Ok(encoded) => Decode(encoded)
  }

  method Supported(replies: Replies) returns (r: Result<seq<word>, Error>)
    ensures r == SupportedValues(replies)
  {
    var encoded: seq<byte> := [];
    var terminated := false;
    var chunk := 0;
    while chunk < MAX_REQUESTS
      invariant 0 <= chunk <= MAX_REQUESTS && !terminated
      invariant Assemble(replies, 0, []) == Assemble(replies, chunk, encoded)
    {
      if replies[chunk].None? { return Err(CallFailed); }
      var data := replies[chunk].value;
      if |data| < 2 { return Err(ShortReply); }
      encoded := encoded + data[1..];
      var offset := 0;
      while offset + 1 < |encoded| && !(encoded[offset] == 0 && encoded[offset + 1] == 0)
        invariant 0 <= offset <= |encoded|
        invariant ZeroEnd(encoded, 0) == ZeroEnd(encoded, offset)
        decreases |encoded| - offset
      {
        offset := offset + 2;
      }
      if offset + 1 < |encoded| {
        encoded := encoded[..offset + 2];
        terminated := true;
        break;
      }
      if |data| < 16 { break; }
      chunk := chunk + 1;
    }
    if !terminated { return Err(NoTerminator); }
    r := DecodeDpiList(encoded);
  }

  lemma {:induction false} ZeroEndExtends(data: seq<byte>, more: seq<byte>, offset: nat)
    requires ZeroEnd(data, offset).Some?
    ensures ZeroEnd(data + more, offset) == ZeroEnd(data, offset)
    decreases |data| - offset
  {
    if !(data[offset] == 0 && data[offset + 1] == 0) {
      ZeroEndExtends(data, more, offset + 2);
    }
  }

  lemma {:induction false} ZeroEndPrefix(data: seq<byte>, n: nat, offset: nat)
    requires n <= |data| && ZeroEnd(data, offset).Some? && ZeroEnd(data, offset).value <= n
    ensures ZeroEnd(data[..n], offset) == ZeroEnd(data, offset)
    decreases |data| - offset
  {
    if !(data[offset] == 0 && data[offset + 1] == 0) {
      ZeroEndPrefix(data, n, offset + 2);
    }
  }

  lemma ItemSize(data: seq<byte>, offset: nat, values: seq<word>)
    requires offset + 1 < |data| && WordAt(data, offset) != 0 && ItemAt(data, offset, values).Ok?
    ensures |PrintItem(ItemAt(data, offset, values).value)| == if WordAt(data, offset) < RANGE then 2 else 4
    ensures WordAt(data, offset) >= RANGE ==> offset + 3 < |data| && WordAt(data, offset + 2) != 0
  {
    if WordAt(data, offset) >= RANGE {
      var first: word := values[|values| - 1];
      assert WordAt(data, offset + 2) > first;
    }
  }

  /** Reading an item steps over words that are not zero. */
  lemma ItemSkipsNoZero(data: seq<byte>, offset: nat, values: seq<word>)
    requires offset + 1 < |data| && WordAt(data, offset) != 0 && ItemAt(data, offset, values).Ok?
    ensures var n := |PrintItem(ItemAt(data, offset, values).value)|;
            offset + n <= |data| && ZeroEnd(data, offset) == ZeroEnd(data, offset + n)
  {
    ItemSize(data, offset, values);
    NonZeroWord(data, offset);
    if WordAt(data, offset) >= RANGE {
      NonZeroWord(data, offset + 2);
    }
  }

  lemma NonZeroWord(data: seq<byte>, offset: nat)
    requires offset + 1 < |data| && WordAt(data, offset) != 0
    ensures ZeroEnd(data, offset) == ZeroEnd(data, offset + 2)
  {
  }

  lemma DecodeStops(data: seq<byte>, offset: nat, values: seq<word>)
    requires offset + 1 < |data| && (WordAt(data, offset) == 0 || ItemAt(data, offset, values).Err?)
    ensures DecodeFrom(data, offset, values) != Err(NoTerminator)
  {
  }

  lemma ZeroEndAhead(data: seq<byte>, offset: nat)
    requires ZeroEnd(data, offset).Some?
    ensures offset + 1 < |data|
  {
  }

  /** On data cut at its first aligned zero word the decoder never runs off the end. */
  lemma {:induction false} CutAlwaysTerminates(data: seq<byte>, offset: nat, values: seq<word>)
    requires ZeroEnd(data, offset) == Some(|data|)
    ensures DecodeFrom(data, offset, values) != Err(NoTerminator)
    decreases |data| - offset
  {
    ZeroEndAhead(data, offset);
    if WordAt(data, offset) == 0 || ItemAt(data, offset, values).Err? {
      DecodeStops(data, offset, values);
    } else {
      var item := ItemAt(data, offset, values).value;
      ItemSkipsNoZero(data, offset, values);
      DecodeStep(data, offset, values, item);
      if |Extend(values, item)| <= LIMIT {
        CutAlwaysTerminates(data, offset + |PrintItem(item)|, Extend(values, item));
      }
    }
  }

  /** A device that serves its list memory in 15-byte pieces behind the sensor number. The last piece
      may be short; what is asked for beyond the memory is answered in any way. */
  ghost predicate Serves(replies: Replies, memory: seq<byte>, sensor: byte) {
    forall c | 0 <= c < MAX_REQUESTS && 15 * c < |memory| ::
      replies[c] == Some([sensor] + Piece(memory, c))
  }

  function Piece(memory: seq<byte>, c: nat): seq<byte>
    requires 15 * c < |memory|
  {
    memory[15 * c..if 15 * c + 15 <= |memory| then 15 * c + 15 else |memory|]
  }

  /** What has been read after the first chunks. */
  function Read(memory: seq<byte>, chunks: nat): seq<byte> {
    if 15 * chunks <= |memory| then memory[..15 * chunks] else memory
  }

  lemma ReadGrows(memory: seq<byte>, chunk: nat)
    requires 15 * chunk < |memory|
    ensures Read(memory, chunk) + Piece(memory, chunk) == Read(memory, chunk + 1)
  {
  }

  /** The search for the terminator in what has been read finds that of the memory, or nothing yet. */
  lemma ZeroEndRead(memory: seq<byte>, n: nat)
    requires n <= |memory| && ZeroEnd(memory, 0).Some?
    ensures ZeroEnd(memory[..n], 0) == if ZeroEnd(memory, 0).value <= n then ZeroEnd(memory, 0) else None
  {
    if ZeroEnd(memory, 0).value <= n {
      ZeroEndPrefix(memory, n, 0);
    } else if ZeroEnd(memory[..n], 0).Some? {
      assert memory[..n] + memory[n..] == memory;
      ZeroEndExtends(memory[..n], memory[n..], 0);
    }
  }

  lemma TakeTake(s: seq<byte>, n: nat, k: nat)
    requires k <= n <= |s|
    ensures s[..n][..k] == s[..k]
  {
  }

  lemma {:induction false} AssembleFrom(replies: Replies, memory: seq<byte>, sensor: byte, chunk: nat)
    requires Serves(replies, memory, sensor) && chunk <= MAX_REQUESTS
    requires ZeroEnd(memory, 0).Some? && ZeroEnd(memory, 0).value > 15 * chunk
    ensures Assemble(replies, chunk, Read(memory, chunk))
            == if ZeroEnd(memory, 0).value <= 15 * MAX_REQUESTS then Ok(memory[..ZeroEnd(memory, 0).value])
               else Err(NoTerminator)
    decreases MAX_REQUESTS - chunk
  {
    var end := ZeroEnd(memory, 0).value;
    if chunk < MAX_REQUESTS {
      var data := [sensor] + Piece(memory, chunk);
      var longer := Read(memory, chunk + 1);
      assert replies[chunk] == Some(data) && data[1..] == Piece(memory, chunk);
      ReadGrows(memory, chunk);
      assert longer == memory[..|longer|];
      ZeroEndRead(memory, |longer|);
      AssembleStep(replies, chunk, Read(memory, chunk), data);
      if end <= |longer| {
        TakeTake(memory, |longer|, end);
      } else {
        AssembleFrom(replies, memory, sensor, chunk + 1);
      }
    }
  }

  lemma AssembleStep(replies: Replies, chunk: nat, encoded: seq<byte>, data: seq<byte>)
    requires chunk < MAX_REQUESTS && replies[chunk] == Some(data) && |data| >= 2
    ensures var longer := encoded + data[1..];
            Assemble(replies, chunk, encoded)
            == if ZeroEnd(longer, 0).Some? then Ok(longer[..ZeroEnd(longer, 0).value])
               else if |data| < 16 then Err(NoTerminator)
               else Assemble(replies, chunk + 1, longer)
  {
  }

  /** A failed call and a reply without list bytes end the reading with their own errors. */
  lemma AssembleFails(replies: Replies, chunk: nat, encoded: seq<byte>)
    requires chunk < 256
    ensures replies[chunk] == None ==> Assemble(replies, chunk, encoded) == Err(CallFailed)
    ensures replies[chunk].Some? && |replies[chunk].value| < 2 ==> Assemble(replies, chunk, encoded) == Err(ShortReply)
  {
  }

  /** Words split across chunks are put together again: reading in chunks is decoding the memory
      cut at its first aligned zero word if the requests reach it, and fails if they do not. */
  lemma SupportedReadsMemory(replies: Replies, memory: seq<byte>, sensor: byte)
    requires Serves(replies, memory, sensor) && ZeroEnd(memory, 0).Some?
    ensures SupportedValues(replies)
            == if ZeroEnd(memory, 0).value <= 15 * 256 then Decode(memory[..ZeroEnd(memory, 0).value])
               else Err(NoTerminator)
    ensures SupportedValues(replies) == Err(NoTerminator) <==> ZeroEnd(memory, 0).value > 15 * 256
  {
    AssembleFrom(replies, memory, sensor, 0);
    assert memory[..0] == [];
    ZeroEndPrefix(memory, ZeroEnd(memory, 0).value, 0);
    CutAlwaysTerminates(memory[..ZeroEnd(memory, 0).value], 0, []);
  }

  /** No word of a well-formed list is zero. */
  lemma {:induction false} PrintHasNoZeroWord(values: seq<word>, items: seq<Item>, data: seq<byte>, offset: nat)
    requires ListFits(values, items)
    requires offset <= |data| && Print(items) + [0, 0] <= data[offset..]
    ensures ZeroEnd(data, offset) == Some(offset + |Print(items)| + 2)
    decreases items
  {
    if items == [] {
      DecodeEnd(data, offset, values);
    } else {
      var n := |PrintItem(items[0])|;
      PrintHead(data, offset, items);
      PrintedItemIsRead(data, offset, values, items[0]);
      ItemSkipsNoZero(data, offset, values);
      PrintHasNoZeroWord(Extend(values, items[0]), items[1..], data, offset + n);
    }
  }

  /** End to end: a device that stores a well-formed list, a zero word and anything after it is
      read back as the expansion of that list if and only if the requests reach the zero word. */
  lemma SupportedRoundTrip(replies: Replies, items: seq<Item>, junk: seq<byte>, sensor: byte)
    requires ListFits([], items) && Serves(replies, Print(items) + [0, 0] + junk, sensor)
    ensures SupportedValues(replies)
            == if |Print(items)| + 2 <= 15 * 256 then Ok(Expand([], items)) else Err(NoTerminator)
  {
    var memory := Print(items) + [0, 0] + junk;
    assert memory[0..] == memory;
    PrintHasNoZeroWord([], items, memory, 0);
    SupportedReadsMemory(replies, memory, sensor);
    assert memory[..|Print(items)| + 2] == Print(items) + [0, 0] + [];
    DecodeInvertsPrint(items, []);
  }

  // ---- Choosing a value ----

  function Distance(a: int, b: int): nat {
    if a < b then b - a else a - b
  }

  /** The supported value closest to the request; of two equally close ones the smaller. */
  ghost predicate IsNearest(values: seq<word>, requested: word, best: word) {
    && best in values
    && forall v | v in values ::
         Distance(requested, best) < Distance(requested, v)
         || (Distance(requested, best) == Distance(requested, v) && best <= v)
  }

  function Nearest(values: seq<word>, requested: word): (best: word)
    requires values != []
    ensures IsNearest(values, requested, best)
  {
    if |values| == 1 then values[0]
    else
      var n := |values| - 1;
      var best := Nearest(values[..n], requested);
      assert values == values[..n] + [values[n]];
      if Distance(requested, values[n]) < Distance(requested, best)
         || (Distance(requested, values[n]) == Distance(requested, best) && values[n] < best)
      then values[n] else best
  }

  lemma NearestIsUnique(values: seq<word>, requested: word, a: word, b: word)
    requires IsNearest(values, requested, a) && IsNearest(values, requested, b)
    ensures a == b
  {
  }

  /** In plain order: nothing lies between the nearest value and its mirror image on the other side of
      the request, of the two the smaller is taken, and a supported request is its own nearest value. */
  lemma NothingIsNearer(values: seq<word>, requested: word, best: word)
    requires IsNearest(values, requested, best)
    ensures best in values
    ensures forall v | v in values :: !(best < v < 2 * requested - best) && !(2 * requested - best < v < best)
    ensures forall v | v in values && v + best == 2 * requested :: best <= v
    ensures requested in values ==> best == requested
  {
  }

  /** Returns a supported value such that no other one is strictly between it and its mirror image on
      the other side of the request, the smaller one if both are supported. */
  method NearestDpi(values: seq<word>, requested: word) returns (r: Option<word>)
    ensures r == if values == [] then None else Some(Nearest(values, requested))
    ensures r.Some? ==>
              var best := r.value;
              && best in values
              && (forall v | v in values :: !(best < v < 2 * requested - best) && !(2 * requested - best < v < best))
              && (forall v | v in values && v + best == 2 * requested :: best <= v)
              && (requested in values ==> best == requested)
  {
    if |values| == 0 { return None; }
    var best := values[0];
    var distance := Distance(requested, best);
    for i := 1 to |values|
      invariant best in values[..i] && distance == Distance(requested, best)
      invariant IsNearest(values[..i], requested, best)
    {
      var candidate := Distance(requested, values[i]);
      if candidate < distance || (candidate == distance && values[i] < best) {
        best, distance := values[i], candidate;
      }
    }
    assert values[..|values|] == values;
    NearestIsUnique(values, requested, best, Nearest(values, requested));
    NothingIsNearer(values, requested, best);
    return Some(best);
  }
}
