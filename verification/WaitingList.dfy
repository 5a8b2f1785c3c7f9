/** The abstract pending table: every waiting transaction, in registration order. The map of
    per-key queues in Session refines this list, and Protocol steps over it. */
module WaitingList {
  import opened Common
  import opened Wire

  datatype Entry = Entry(order: nat, key: Key)

  datatype Cause = ReadError | WriteError | ClosedByCaller

  datatype Outcome = Reply(report: Report) | DeviceError(key: Key, code: byte) | Malformed | ClosedTransport

  /** One return of the transport's ReadReport. */
  datatype Read = Bytes(data: seq<byte>) | BadCount | Failed(cause: Cause)

  ghost predicate Ordered(w: seq<Entry>) {
    forall i, j | 0 <= i < j < |w| :: w[i].order < w[j].order
  }

  function ForKey(w: seq<Entry>, k: Key): seq<Entry> {
    if w == [] then []
    else if w[0].key == k then [w[0]] + ForKey(w[1..], k)
    else ForKey(w[1..], k)
  }

  function Drop(w: seq<Entry>, order: nat): seq<Entry> {
    if w == [] then []
    else if w[0].order == order then Drop(w[1..], order)
    else [w[0]] + Drop(w[1..], order)
  }

  function Oldest(w: seq<Entry>, k: Key): Option<Entry> {
    if w == [] then None else if w[0].key == k then Some(w[0]) else Oldest(w[1..], k)
  }

  function Take(w: seq<Entry>, k: Key): seq<Entry> {
    match Oldest(w, k)
    case None => w
    case Some(e) => Drop(w, e.order)
  }

  function Orders(w: seq<Entry>): set<nat> {
    set e | e in w :: e.order
  }

  // ---- Facts about the list ----

  lemma {:induction false} ForKeyMembers(w: seq<Entry>, k: Key)
    ensures forall e :: e in ForKey(w, k) <==> e in w && e.key == k
  {
    if w != [] {
      ForKeyMembers(w[1..], k);
      assert w == [w[0]] + w[1..];
    }
  }

  lemma {:induction false} DropMembers(w: seq<Entry>, order: nat)
    ensures forall e :: e in Drop(w, order) <==> e in w && e.order != order
  {
    if w != [] {
      DropMembers(w[1..], order);
      assert w == [w[0]] + w[1..];
    }
  }

  lemma {:induction false} ForKeyOrdered(w: seq<Entry>, k: Key)
    requires Ordered(w)
    ensures Ordered(ForKey(w, k))
  {
    if w != [] {
      ForKeyOrdered(w[1..], k);
      ForKeyMembers(w[1..], k);
    }
  }

  lemma {:induction false} DropOrdered(w: seq<Entry>, order: nat)
    requires Ordered(w)
    ensures Ordered(Drop(w, order))
  {
    if w != [] {
      DropOrdered(w[1..], order);
      DropMembers(w[1..], order);
    }
  }

  lemma {:induction false} ForKeyAppend(w: seq<Entry>, e: Entry, k: Key)
    ensures ForKey(w + [e], k) == ForKey(w, k) + if e.key == k then [e] else []
  {
    if w != [] {
      assert (w + [e])[1..] == w[1..] + [e];
      ForKeyAppend(w[1..], e, k);
    }
  }

  lemma {:induction false} DropAbsent(w: seq<Entry>, order: nat)
    requires order !in Orders(w)
    ensures Drop(w, order) == w
  {
    if w != [] {
      assert w[0] in w;
      forall e | e in w[1..] ensures e.order != order {
        assert e in w;
      }
      DropAbsent(w[1..], order);
    }
  }

  lemma {:induction false} DropAt(w: seq<Entry>, i: nat)
    requires Ordered(w) && i < |w|
    ensures Drop(w, w[i].order) == w[..i] + w[i + 1..]
  {
    if i == 0 {
      DropAbsent(w[1..], w[0].order);
    } else {
      DropAt(w[1..], i - 1);
      assert w[1..][..i - 1] == w[1..i] && w[1..][i..] == w[i + 1..];
      assert w[..i] == [w[0]] + w[1..i];
    }
  }

  lemma {:induction false} ForKeyDrop(w: seq<Entry>, order: nat, k: Key)
    ensures ForKey(Drop(w, order), k) == Drop(ForKey(w, k), order)
  {
    if w != [] {
      ForKeyDrop(w[1..], order, k);
      assert ([w[0]] + Drop(w[1..], order))[1..] == Drop(w[1..], order);
      assert ([w[0]] + ForKey(w[1..], k))[1..] == ForKey(w[1..], k);
    }
  }

  lemma {:induction false} OldestIsHead(w: seq<Entry>, k: Key)
    ensures Oldest(w, k) == if ForKey(w, k) == [] then None else Some(ForKey(w, k)[0])
  {
    if w != [] {
      OldestIsHead(w[1..], k);
    }
  }

  /** Oldest picks the least registration order among the transactions waiting on the key. */
  lemma OldestIsLeast(w: seq<Entry>, k: Key)
    requires Ordered(w)
    ensures Oldest(w, k).None? <==> forall e | e in w :: e.key != k
    ensures forall e :: Oldest(w, k) == Some(e)
                        <==> e in w && e.key == k && forall f | f in w && f.key == k :: e.order <= f.order
  {
    OldestIsHead(w, k);
    ForKeyMembers(w, k);
    ForKeyOrdered(w, k);
    var q := ForKey(w, k);
    if q != [] {
      assert q[0] in q;
      forall e | e in q && forall f | f in w && f.key == k :: e.order <= f.order ensures e == q[0] {
        assert q[0] in w;
      }
    } else {
      forall e | e in w ensures e.key != k {
        assert e !in q;
      }
    }
  }

  lemma TakeForKey(w: seq<Entry>, k: Key, other: Key)
    requires Ordered(w)
    ensures ForKey(Take(w, k), other)
            == if other == k && ForKey(w, k) != [] then ForKey(w, k)[1..] else ForKey(w, other)
  {
    OldestIsHead(w, k);
    var q := ForKey(w, k);
    if q != [] {
      ForKeyMembers(w, k);
      ForKeyOrdered(w, k);
      ForKeyDrop(w, q[0].order, other);
      assert q[0] in q;
      if other == k {
        DropAt(q, 0);
      } else {
        OtherKeyUntouched(w, q[0], other);
      }
    }
  }

  lemma OtherKeyUntouched(w: seq<Entry>, e: Entry, other: Key)
    requires Ordered(w) && e in w && e.key != other
    ensures Drop(ForKey(w, other), e.order) == ForKey(w, other)
  {
    ForKeyMembers(w, other);
    forall f | f in ForKey(w, other) ensures f.order != e.order {
      if f.order == e.order { OrderIsIdentity(w, e, f); }
    }
    DropAbsent(ForKey(w, other), e.order);
  }

  lemma OrderIsIdentity(w: seq<Entry>, e: Entry, f: Entry)
    requires Ordered(w) && e in w && f in w && e.order == f.order
    ensures e == f
  {
    var i :| 0 <= i < |w| && w[i] == e;
    var j :| 0 <= j < |w| && w[j] == f;
    assert !(i < j) && !(j < i);
  }

  lemma TakeMembers(w: seq<Entry>, k: Key)
    requires Ordered(w)
    ensures Ordered(Take(w, k))
    ensures forall e :: e in Take(w, k) <==> e in w && Oldest(w, k) != Some(e)
  {
    OldestIsLeast(w, k);
    if Oldest(w, k).Some? {
      var o := Oldest(w, k).value;
      DropOrdered(w, o.order);
      DropMembers(w, o.order);
      assert o in w;
      forall e | e in w && e.order == o.order ensures e == o {
        OrderIsIdentity(w, e, o);
      }
    }
  }

  lemma OrdersAppend(w: seq<Entry>, e: Entry)
    ensures Orders(w + [e]) == Orders(w) + {e.order}
  {
    assert e in w + [e];
    forall o | o in Orders(w) ensures o in Orders(w + [e]) {
      var f :| f in w && f.order == o;
      assert f in w + [e];
    }
  }

  lemma OrdersDrop(w: seq<Entry>, o: nat)
    ensures Orders(Drop(w, o)) == Orders(w) - {o}
  {
    DropMembers(w, o);
    forall p | p in Orders(w) && p != o ensures p in Orders(Drop(w, o)) {
      var f :| f in w && f.order == p;
      assert f in Drop(w, o);
    }
  }

  lemma AppendOrdered(w: seq<Entry>, e: Entry)
    requires Ordered(w) && forall f | f in w :: f.order < e.order
    ensures Ordered(w + [e])
  {
  }

  // ---- One iteration of the reader, and whole runs of it ----

  function FailAll(w: seq<Entry>, outcome: Outcome): map<nat, Outcome> {
    map o | o in Orders(w) :: outcome
  }

  /** The transactions still waiting after one read, and what the read sends to the others. */
  function Serve(w: seq<Entry>, read: Read): (seq<Entry>, map<nat, Outcome>) {
    match read
    case Failed(_) => ([], FailAll(w, ClosedTransport))
    case BadCount => ([], FailAll(w, Malformed))
    case Bytes(data) =>
      match Decode(data)
      case Err(NotHidpp) => (w, map[])
      case Err(WrongLength) => ([], FailAll(w, Malformed))
      case Ok(report) => ServeReport(w, report)
  }

  function ServeReport(w: seq<Entry>, report: Report): (seq<Entry>, map<nat, Outcome>) {
    match Classify(report)
    case Truncated => ([], FailAll(w, Malformed))
    case Response(k) => (Take(w, k), ToOldest(w, k, Reply(report)))
    case Failure(k, code) => (Take(w, k), ToOldest(w, k, DeviceError(k, code)))
  }

  function ToOldest(w: seq<Entry>, k: Key, outcome: Outcome): map<nat, Outcome> {
    match Oldest(w, k)
    case None => map[]
    case Some(e) => map[e.order := outcome]
  }

  // ---- What a read means, in terms of its bytes ----

  /** The oldest transaction on its key. */
  ghost predicate First(w: seq<Entry>, e: Entry) {
    e in w && forall f | f in w && f.key == e.key :: e.order <= f.order
  }

  /** Exactly the oldest transaction on the key is taken and sent the outcome. */
  ghost predicate SentToFirst(w: seq<Entry>, k: Key, outcome: Outcome, w': seq<Entry>, sent: map<nat, Outcome>) {
    && (forall e | e in w :: e.order in sent <==> e.key == k && First(w, e))
    && (forall o | o in sent :: o in Orders(w) && sent[o] == outcome)
    && (forall e :: e in w' <==> e in w && !(e.key == k && First(w, e)))
  }

  lemma OldestIsSent(w: seq<Entry>, k: Key, outcome: Outcome)
    requires Ordered(w)
    ensures SentToFirst(w, k, outcome, Take(w, k), ToOldest(w, k, outcome))
  {
    OldestIsLeast(w, k);
    TakeMembers(w, k);
    forall e | e in w ensures e.order in ToOldest(w, k, outcome) <==> e.key == k && First(w, e) {
      if Oldest(w, k).Some? && e.order == Oldest(w, k).value.order { OrderIsIdentity(w, e, Oldest(w, k).value); }
    }
  }

  /** A reply goes whole to the oldest transaction on the key in its bytes 1 to 3 and to nobody else,
      and is left to the report handlers if and only if there is none. */
  lemma ReplyIsDelivered(w: seq<Entry>, data: seq<byte>)
    requires Ordered(w) && ReplyBytes(data)
    ensures Decode(data).Ok?
    ensures SentToFirst(w, Key(data[1], data[2], data[3]), Reply(Decode(data).value),
                        Serve(w, Bytes(data)).0, Serve(w, Bytes(data)).1)
    ensures Unclaimed(w, Bytes(data)) <==> forall e | e in w :: e.key != Key(data[1], data[2], data[3])
  {
    RouteOfBytes(data);
    OldestIsSent(w, Key(data[1], data[2], data[3]), Reply(Decode(data).value));
    OldestIsLeast(w, Key(data[1], data[2], data[3]));
  }

  /** An error report fails the oldest transaction on the key in its bytes 1, 3 and 4 with the code in
      byte 5, and nobody else. */
  lemma ErrorIsDelivered(w: seq<Entry>, data: seq<byte>)
    requires Ordered(w) && ErrorBytes(data)
    ensures var k := Key(data[1], data[3], data[4]);
            SentToFirst(w, k, DeviceError(k, data[5]), Serve(w, Bytes(data)).0, Serve(w, Bytes(data)).1)
    ensures !Unclaimed(w, Bytes(data))
  {
    RouteOfBytes(data);
    OldestIsSent(w, Key(data[1], data[3], data[4]), DeviceError(Key(data[1], data[3], data[4]), data[5]));
  }

  /** A read that counts its bytes wrong, or a HID++ report of a wrong length. */
  predicate Garbled(read: Read) {
    || read.BadCount?
    || (read.Bytes? && read.data != []
        && ((read.data[0] == 0x10 && |read.data| != 7) || (read.data[0] == 0x11 && |read.data| != 20)))
  }

  /** Everybody is told of a failed read and of a garbled one, nobody is told anything by bytes that
      are not HID++, and no decodable report ever says either. */
  lemma OnlyBadReadsFailEverybody(w: seq<Entry>, read: Read)
    requires Ordered(w)
    ensures var (w', sent) := Serve(w, read);
            && (read.Failed? ==> w' == [] && sent.Keys == Orders(w))
            && (Garbled(read) ==> w' == [] && sent.Keys == Orders(w))
            && (!read.Failed? && !Garbled(read) && !(ReplyBytes(read.data) || ErrorBytes(read.data)) ==>
                  w' == w && sent == map[])
            && forall o | o in sent ::
                 && (sent[o] == ClosedTransport <==> read.Failed?)
                 && (sent[o] == Malformed <==> Garbled(read))
    ensures !(read.Bytes? && ReplyBytes(read.data)) ==> !Unclaimed(w, read)
  {
    if read.Bytes? {
      ParseLayout(read.data);
      RouteOfBytes(read.data);
    }
  }

  /** A reply to an accepted request is handed, as it was decoded, to the oldest transaction waiting on
      the request's key, and to nobody else; an error report of another dialect is no such reply. */
  lemma ReplyCompletesOldest(w: seq<Entry>, q: Request, data: seq<byte>)
    requires Ordered(w) && Accepts(q) && Decode(data).Ok?
    requires var reply := Decode(data).value;
             && reply.device == q.report.device && reply.subID == q.responseSubID
             && reply.func == q.report.func && reply.software == q.report.software
             && (reply.typ == q.report.typ || reply.subID != if reply.typ.Short? then 0x8f else 0xff)
    ensures SentToFirst(w, KeyOf(q), Reply(Decode(data).value), Serve(w, Bytes(data)).0, Serve(w, Bytes(data)).1)
  {
    RepliesReachTheirRequest(q, Decode(data).value);
    OldestIsSent(w, KeyOf(q), Reply(Decode(data).value));
  }

  /** An error report for a request that awaits its own sub-ID completes the oldest transaction of
      the request's key, or nobody, and never becomes a notification. */
  lemma ErrorCompletesOldest(w: seq<Entry>, q: Request, code: byte, data: seq<byte>)
    requires Accepts(q) && q.responseSubID == q.report.subID && QuotesRequest(data, q, code)
    ensures Serve(w, Bytes(data)) == (Take(w, KeyOf(q)), ToOldest(w, KeyOf(q), DeviceError(KeyOf(q), code)))
    ensures !Unclaimed(w, Bytes(data))
  {
    ErrorReportsReachTheirRequest(q, code, data);
  }

  /** A report reaches the report handlers only when it answers nobody. */
  predicate Unclaimed(w: seq<Entry>, read: Read) {
    && read.Bytes?
    && Decode(read.data).Ok?
    && Classify(Decode(read.data).value).Response?
    && Oldest(w, Classify(Decode(read.data).value).key).None?
  }

  predicate Stopped(script: seq<Read>) {
    exists i | 0 <= i < |script| :: script[i].Failed?
  }

  /** A run of the reader, which stops after the first failed read: who still waits, and what
      the others were sent. */
  function ServeAll(w: seq<Entry>, script: seq<Read>): (seq<Entry>, map<nat, Outcome>) {
    if script == [] then (w, map[])
    else
      var earlier := script[..|script| - 1];
      var (w1, sent) := ServeAll(w, earlier);
      if Stopped(earlier) then (w1, sent)
      else
        var (w2, more) := Serve(w1, script[|script| - 1]);
        (w2, sent + more)
  }

  function UnclaimedBy(w: seq<Entry>, script: seq<Read>): seq<Read> {
    if script == [] then []
    else
      var earlier := script[..|script| - 1];
      var read := script[|script| - 1];
      UnclaimedBy(w, earlier)
      + if !Stopped(earlier) && Unclaimed(ServeAll(w, earlier).0, read) then [read] else []
  }

  function FirstFailure(script: seq<Read>): (cause: Option<Cause>)
    ensures cause.Some? <==> Stopped(script)
  {
    if script == [] then None
    else
      var read := script[|script| - 1];
      match FirstFailure(script[..|script| - 1])
      case Some(cause) => Some(cause)
      case None => if read.Failed? then Some(read.cause) else None
  }

  /** It is the cause of the first failed read. */
  lemma {:induction false} FirstFailureMeans(script: seq<Read>, i: nat)
    requires i < |script| && script[i].Failed? && forall j | 0 <= j < i :: !script[j].Failed?
    ensures FirstFailure(script) == Some(script[i].cause)
  {
    var earlier := script[..|script| - 1];
    if i < |earlier| {
      assert earlier[i] == script[i];
      FirstFailureMeans(earlier, i);
    } else {
      assert forall j | 0 <= j < |earlier| :: earlier[j] == script[j];
      assert !Stopped(earlier);
    }
  }

  lemma ServeConserves(w: seq<Entry>, read: Read)
    requires Ordered(w)
    ensures var (w', sent) := Serve(w, read);
            && Ordered(w')
            && sent.Keys !! Orders(w')
            && sent.Keys + Orders(w') == Orders(w)
            && forall e | e in w' :: e in w
  {
    if read.Bytes? && Decode(read.data).Ok? {
      var route := Classify(Decode(read.data).value);
      if !route.Truncated? {
        TakeMembers(w, route.key);
        OldestIsLeast(w, route.key);
        if Oldest(w, route.key).Some? {
          var e := Oldest(w, route.key).value;
          assert e in w;
          forall f | f in Take(w, route.key) ensures f.order != e.order {
            if f.order == e.order { OrderIsIdentity(w, e, f); }
          }
          forall o | o in Orders(w) && o != e.order ensures o in Orders(Take(w, route.key)) {
            var f :| f in w && f.order == o;
            assert f in Take(w, route.key);
          }
        }
      }
    }
  }

  lemma StoppedEarlier(script: seq<Read>)
    requires Stopped(script) && !script[|script| - 1].Failed?
    ensures Stopped(script[..|script| - 1])
  {
    var i :| 0 <= i < |script| && script[i].Failed?;
    assert script[..|script| - 1][i].Failed?;
  }

  /** Conservation over every run of the reader: each transaction is either still waiting or was
      sent exactly one result, and a run that ends in a failed read leaves nobody waiting. */
  lemma {:induction false} EachServedOnce(w: seq<Entry>, script: seq<Read>)
    requires Ordered(w)
    ensures var (w', sent) := ServeAll(w, script);
            && Ordered(w')
            && sent.Keys !! Orders(w')
            && sent.Keys + Orders(w') == Orders(w)
            && (forall e | e in w' :: e in w)
            && (Stopped(script) ==> w' == [])
  {
    if script != [] {
      var earlier := script[..|script| - 1];
      EachServedOnce(w, earlier);
      if !Stopped(earlier) {
        ServeConserves(ServeAll(w, earlier).0, script[|script| - 1]);
        if Stopped(script) && !script[|script| - 1].Failed? { StoppedEarlier(script); }
      }
    }
  }

  lemma ReadExtends(w: seq<Entry>, script: seq<Read>, i: nat)
    requires Ordered(w) && i < |script| && !Stopped(script[..i])
    ensures var (w1, sent) := ServeAll(w, script[..i]);
            var (w2, more) := Serve(w1, script[i]);
            && ServeAll(w, script[..i + 1]) == (w2, sent + more)
            && sent.Keys !! more.Keys
            && UnclaimedBy(w, script[..i + 1])
               == UnclaimedBy(w, script[..i]) + if Unclaimed(w1, script[i]) then [script[i]] else []
    ensures Stopped(script[..i + 1]) <==> script[i].Failed?
    ensures FirstFailure(script[..i + 1]) == FirstFailure([script[i]])
  {
    assert script[..i + 1][..i] == script[..i];
    assert script[..i + 1][i] == script[i];
    EachServedOnce(w, script[..i]);
    ServeConserves(ServeAll(w, script[..i]).0, script[i]);
    assert script[..i + 1] == script[..i] + [script[i]];
    assert [script[i]][..0] == [];
  }

  /** Nothing is read after a failed read. */
  lemma {:induction false} ReadEnds(w: seq<Entry>, script: seq<Read>, i: nat)
    requires i <= |script| && Stopped(script[..i])
    ensures ServeAll(w, script) == ServeAll(w, script[..i])
    ensures UnclaimedBy(w, script) == UnclaimedBy(w, script[..i])
    ensures FirstFailure(script) == FirstFailure(script[..i])
  {
    if i == |script| {
      assert script[..i] == script;
    } else {
      var earlier := script[..|script| - 1];
      assert earlier[..i] == script[..i];
      assert Stopped(earlier) by {
        var j :| 0 <= j < i && script[..i][j].Failed?;
        assert earlier[j].Failed?;
      }
      ReadEnds(w, earlier, i);
    }
  }

  /** A reply or device error is delivered only to a transaction registered under its key. */
  ghost predicate Belongs(outcome: Outcome, k: Key) {
    match outcome
    case Reply(report) => Classify(report) == Response(k)
    case DeviceError(key, _) => key == k
    case _ => true
  }

  /** Over every run, results go to transactions registered under their own key. */
  lemma {:induction false} ServedBelongs(w: seq<Entry>, script: seq<Read>, e: Entry)
    requires Ordered(w) && e in w && e.order in ServeAll(w, script).1
    ensures Belongs(ServeAll(w, script).1[e.order], e.key)
  {
    var earlier := script[..|script| - 1];
    var (w1, sent) := ServeAll(w, earlier);
    EachServedOnce(w, earlier);
    if e.order in sent {
      ServedBelongs(w, earlier, e);
      if !Stopped(earlier) { ServeConserves(w1, script[|script| - 1]); }
    } else {
      StillIn(w, w1, e);
      FirstBelongs(w1, script[|script| - 1], e);
    }
  }

  /** Over every run, transactions with one key are served in registration order. */
  lemma {:induction false} ServedInOrder(w: seq<Entry>, script: seq<Read>, e: Entry, f: Entry)
    requires Ordered(w) && e in w && f in w
    requires e.key == f.key && e.order < f.order && f.order in ServeAll(w, script).1
    ensures e.order in ServeAll(w, script).1
  {
    var earlier := script[..|script| - 1];
    var (w1, sent) := ServeAll(w, earlier);
    EachServedOnce(w, earlier);
    if f.order in sent {
      ServedInOrder(w, earlier, e, f);
    } else if e.order !in sent {
      assert e.order in Orders(w) && f.order in Orders(w);
      StillIn(w, w1, e);
      StillIn(w, w1, f);
      FirstInOrder(w1, script[|script| - 1], e, f);
    }
  }

  lemma StillIn(w: seq<Entry>, w': seq<Entry>, e: Entry)
    requires Ordered(w) && e in w && e.order in Orders(w') && forall g | g in w' :: g in w
    ensures e in w'
  {
    var g :| g in w' && g.order == e.order;
    OrderIsIdentity(w, e, g);
  }

  lemma FirstBelongs(w: seq<Entry>, read: Read, e: Entry)
    requires Ordered(w) && e in w && e.order in Serve(w, read).1
    ensures Belongs(Serve(w, read).1[e.order], e.key)
  {
    if read.Bytes? && Decode(read.data).Ok? && !Classify(Decode(read.data).value).Truncated? {
      var k := Classify(Decode(read.data).value).key;
      OldestIsLeast(w, k);
      OrderIsIdentity(w, e, Oldest(w, k).value);
    }
  }

  lemma FirstInOrder(w: seq<Entry>, read: Read, e: Entry, f: Entry)
    requires Ordered(w) && e in w && f in w
    ensures e.key == f.key && e.order < f.order && f.order in Serve(w, read).1 ==> e.order in Serve(w, read).1
  {
    if f.order in Serve(w, read).1 && read.Bytes? && Decode(read.data).Ok?
       && !Classify(Decode(read.data).value).Truncated? {
      var k := Classify(Decode(read.data).value).key;
      OldestIsLeast(w, k);
      OrderIsIdentity(w, f, Oldest(w, k).value);
    }
  }
}
