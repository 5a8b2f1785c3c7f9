/** The transaction dispatcher of internal/hidpp/session.go as one mutable object: a map of
    per-key FIFO queues. Every method is proved to be one step on the abstract list `waiting`. */
module Session {
  import opened Common
  import opened Wire
  import opened WaitingList

  /** A registered transaction; `result` is its channel of capacity one. */
  class Transaction {
    const key: Key
    const order: nat
    var result: Option<Outcome>

    constructor (key: Key, order: nat)
      ensures this.key == key && this.order == order && result == None
    {
      this.key, this.order, result := key, order, None;
    }

    /** A send on a channel of capacity one: it would block unless the channel is empty. */
    method Send(outcome: Outcome)
      requires result == None
      modifies this`result
      ensures result == Some(outcome)
    {
      result := Some(outcome);
    }
  }

  function Queue(pending: map<Key, seq<Transaction>>, k: Key): seq<Transaction> {
    if k in pending then pending[k] else []
  }

  function Entries(q: seq<Transaction>): seq<Entry> {
    seq(|q|, i requires 0 <= i < |q| => Entry(q[i].order, q[i].key))
  }

  /** The map refines the list: no queue is empty, and the queue of every key is the list
      restricted to that key. */
  ghost predicate Refines(pending: map<Key, seq<Transaction>>, w: seq<Entry>) {
    && (forall k | k in pending :: pending[k] != [])
    && (forall k :: Entries(Queue(pending, k)) == ForKey(w, k))
  }

  lemma AddRefines(pending: map<Key, seq<Transaction>>, w: seq<Entry>, t: Transaction)
    requires Refines(pending, w)
    ensures Refines(pending[t.key := Queue(pending, t.key) + [t]], w + [Entry(t.order, t.key)])
  {
    var pending' := pending[t.key := Queue(pending, t.key) + [t]];
    var e := Entry(t.order, t.key);
    forall k ensures Entries(Queue(pending', k)) == ForKey(w + [e], k) {
      ForKeyAppend(w, e, k);
      assert Entries(Queue(pending, k)) == ForKey(w, k);
      if k == t.key {
        assert Entries(pending'[k]) == Entries(Queue(pending, k)) + [e];
      }
    }
  }

  /** The map without element i of the queue of k; an emptied queue is deleted. */
  function Without(pending: map<Key, seq<Transaction>>, k: Key, i: nat): map<Key, seq<Transaction>>
    requires k in pending && i < |pending[k]|
  {
    var rest := pending[k][..i] + pending[k][i + 1..];
    if rest == [] then pending - {k} else pending[k := rest]
  }

  lemma QueueEntry(pending: map<Key, seq<Transaction>>, w: seq<Entry>, k: Key, i: nat)
    requires Refines(pending, w) && Ordered(w) && k in pending && i < |pending[k]|
    ensures i < |ForKey(w, k)| && ForKey(w, k)[i] == Entry(pending[k][i].order, k)
    ensures pending[k][i].key == k && Entry(pending[k][i].order, k) in w
    ensures i == 0 ==> Oldest(w, k) == Some(Entry(pending[k][0].order, k))
  {
    var q := ForKey(w, k);
    assert Entries(Queue(pending, k)) == q;
    ForKeyMembers(w, k);
    assert q[i] == Entry(pending[k][i].order, pending[k][i].key) && q[i] in q;
    OldestIsHead(w, k);
  }

  lemma EntriesWithout(q: seq<Transaction>, i: nat)
    requires i < |q|
    ensures Entries(q[..i] + q[i + 1..]) == Entries(q)[..i] + Entries(q)[i + 1..]
  {
  }

  lemma WithoutQueue(pending: map<Key, seq<Transaction>>, w: seq<Entry>, k: Key, i: nat, other: Key)
    requires Refines(pending, w) && Ordered(w) && k in pending && i < |pending[k]|
    ensures Entries(Queue(Without(pending, k, i), other)) == ForKey(Drop(w, pending[k][i].order), other)
  {
    QueueEntry(pending, w, k, i);
    var q := ForKey(w, k);
    ForKeyDrop(w, q[i].order, other);
    assert Entries(Queue(pending, other)) == ForKey(w, other);
    if other == k {
      ForKeyOrdered(w, k);
      DropAt(q, i);
      EntriesWithout(pending[k], i);
    } else {
      OtherKeyUntouched(w, q[i], other);
    }
  }

  lemma WithoutRefines(pending: map<Key, seq<Transaction>>, w: seq<Entry>, k: Key, i: nat)
    requires Refines(pending, w) && Ordered(w) && k in pending && i < |pending[k]|
    ensures Refines(Without(pending, k, i), Drop(w, pending[k][i].order))
  {
    forall other ensures Entries(Queue(Without(pending, k, i), other)) == ForKey(Drop(w, pending[k][i].order), other) {
      WithoutQueue(pending, w, k, i, other);
    }
  }

  lemma QueuesAreDisjoint(pending: map<Key, seq<Transaction>>, w: seq<Entry>)
    requires Refines(pending, w) && Ordered(w)
    ensures forall k, t | k in pending && t in pending[k] :: t.key == k
    ensures forall k, i, j | k in pending && 0 <= i < j < |pending[k]| :: pending[k][i] != pending[k][j]
  {
    forall k | k in pending
      ensures forall t | t in pending[k] :: t.key == k
      ensures forall i, j | 0 <= i < j < |pending[k]| :: pending[k][i] != pending[k][j]
    {
      ForKeyMembers(w, k);
      ForKeyOrdered(w, k);
      var q := Entries(Queue(pending, k));
      assert q == ForKey(w, k);
      forall i | 0 <= i < |pending[k]| ensures pending[k][i].key == k {
        assert q[i] in q;
      }
      forall i, j | 0 <= i < j < |pending[k]| ensures pending[k][i] != pending[k][j] {
        assert q[i].order < q[j].order;
      }
    }
  }

  lemma DistinctConcat(a: seq<Transaction>, b: seq<Transaction>)
    requires forall i, j | 0 <= i < j < |a| :: a[i] != a[j]
    requires forall i, j | 0 <= i < j < |b| :: b[i] != b[j]
    requires forall t | t in b :: t !in a
    ensures forall i, j | 0 <= i < j < |a + b| :: (a + b)[i] != (a + b)[j]
  {
    forall i, j | 0 <= i < j < |a + b| ensures (a + b)[i] != (a + b)[j] {
      if i < |a| <= j { assert b[j - |a|] in b; }
    }
  }

  /** Transactions named in `sent` have received their outcome, nobody else heard anything. */
  twostate predicate Sent(group: set<Transaction>, sent: map<nat, Outcome>)
    reads group
  {
    forall t | t in group :: t.result == if t.order in sent then Some(sent[t.order]) else old(t.result)
  }

  /** Of these transactions the oldest one waiting on the key has received the outcome, and nobody
      else has heard anything. */
  twostate predicate ToldFirst(group: set<Transaction>, w: seq<Entry>, k: Key, outcome: Outcome)
    reads group
  {
    forall t | t in group ::
      t.result == if t.key == k && First(w, Entry(t.order, k)) then Some(outcome) else old(t.result)
  }

  /** Everybody who was waiting has received the outcome. */
  twostate predicate ToldAll(group: set<Transaction>, w: seq<Entry>, outcome: Outcome)
    reads group
  {
    forall t | t in group :: t.result == if Entry(t.order, t.key) in w then Some(outcome) else old(t.result)
  }

  /** The list knows the registered transactions by their orders. */
  ghost predicate Listed(group: set<Transaction>, w: seq<Entry>) {
    forall t | t in group :: t.order in Orders(w) <==> Entry(t.order, t.key) in w
  }

  lemma FirstIsNamed(group: set<Transaction>, w: seq<Entry>, k: Key, outcome: Outcome, w': seq<Entry>,
                     sent: map<nat, Outcome>)
    requires SentToFirst(w, k, outcome, w', sent) && Listed(group, w)
    ensures forall t | t in group :: t.order in sent <==> t.key == k && First(w, Entry(t.order, k))
    ensures forall o | o in sent :: sent[o] == outcome
  {
    forall t | t in group ensures t.order in sent <==> t.key == k && First(w, Entry(t.order, k)) {
      if t.order in sent { assert Entry(t.order, t.key) in w; }
    }
  }

  /** What some bytes mean to the registered transactions. */
  twostate predicate Told(group: set<Transaction>, w: seq<Entry>, data: seq<byte>)
    reads group
  {
    && (ReplyBytes(data) ==>
          && Decode(data).Ok?
          && ToldFirst(group, w, Key(data[1], data[2], data[3]), Reply(Decode(data).value)))
    && (ErrorBytes(data) ==>
          var k := Key(data[1], data[3], data[4]); ToldFirst(group, w, k, DeviceError(k, data[5])))
    && (Garbled(Bytes(data)) ==> ToldAll(group, w, Malformed))
    && (!ReplyBytes(data) && !ErrorBytes(data) && !Garbled(Bytes(data)) ==>
          forall t | t in group :: t.result == old(t.result))
  }

  /** Orders are the identities of the registered transactions. */
  ghost predicate Identified(registered: set<Transaction>, last: nat) {
    && (forall t | t in registered :: 1 <= t.order <= last)
    && (forall t, u | t in registered && u in registered && t.order == u.order :: t == u)
  }

  lemma IdentifiedAdd(registered: set<Transaction>, last: nat, t: Transaction)
    requires Identified(registered, last) && t.order == last + 1
    ensures Identified(registered + {t}, last + 1)
  {
  }

  /** The table holds only registered transactions. */
  ghost predicate Filed(pending: map<Key, seq<Transaction>>, registered: set<Transaction>) {
    forall k, t | k in pending && t in pending[k] :: t in registered
  }

  lemma FiledAdd(pending: map<Key, seq<Transaction>>, registered: set<Transaction>, t: Transaction)
    requires Filed(pending, registered)
    ensures Filed(pending[t.key := Queue(pending, t.key) + [t]], registered + {t})
  {
  }

  /** The map refines the list, and orders identify the registered transactions. */
  ghost predicate Table(pending: map<Key, seq<Transaction>>, w: seq<Entry>, registered: set<Transaction>, last: nat) {
    && Ordered(w)
    && (forall e | e in w :: 1 <= e.order <= last)
    && Identified(registered, last)
    && Filed(pending, registered)
    && Refines(pending, w)
  }

  lemma TableAdd(pending: map<Key, seq<Transaction>>, w: seq<Entry>, registered: set<Transaction>, last: nat,
                 t: Transaction)
    requires Table(pending, w, registered, last) && t.order == last + 1
    ensures Table(pending[t.key := Queue(pending, t.key) + [t]], w + [Entry(t.order, t.key)], registered + {t},
                  last + 1)
  {
    AddRefines(pending, w, t);
    IdentifiedAdd(registered, last, t);
    FiledAdd(pending, registered, t);
    AppendOrdered(w, Entry(t.order, t.key));
  }

  /** Whoever waits has not been sent anything. */
  ghost predicate Unanswered(registered: set<Transaction>, w: seq<Entry>)
    reads registered
  {
    forall t | t in registered && t.order in Orders(w) :: t.result == None
  }

  lemma UnansweredAdd(registered: set<Transaction>, w: seq<Entry>, last: nat, t: Transaction)
    requires Unanswered(registered, w) && Identified(registered, last) && t.order == last + 1 && t.result == None
    ensures Unanswered(registered + {t}, w + [Entry(t.order, t.key)])
  {
    OrdersAppend(w, Entry(t.order, t.key));
  }

  class Dispatcher {
    var pending: map<Key, seq<Transaction>>
    var nextOrder: nat
    var closed: bool
    var terminal: Option<Cause>

    ghost var waiting: seq<Entry>
    ghost var registered: set<Transaction>

    /** The table refines the list, and orders identify the registered transactions. */
    ghost predicate TableValid()
      reads this
    {
      && Table(pending, waiting, registered, nextOrder)
      && (closed <==> terminal.Some?)
    }

    ghost predicate Valid()
      reads this, registered
    {
      && TableValid()
      && Unanswered(registered, waiting)
    }

    constructor ()
      ensures Valid() && waiting == [] && registered == {} && !closed
    {
      pending, nextOrder, closed, terminal := map[], 0, false, None;
      waiting, registered := [], {};
    }

    /** A transaction waits in the list exactly when its object is in the queue of its key. */
    lemma WaitingObjects(t: Transaction)
      requires TableValid() && t in registered
      ensures t.order in Orders(waiting) <==> t in Queue(pending, t.key)
      ensures t.order in Orders(waiting) <==> Entry(t.order, t.key) in waiting
    {
      var q, f := Queue(pending, t.key), ForKey(waiting, t.key);
      assert Entries(q) == f;
      ForKeyMembers(waiting, t.key);
      if t in q {
        var i :| 0 <= i < |q| && q[i] == t;
        assert f[i] == Entry(t.order, t.key) && f[i] in f;
      }
      if t.order in Orders(waiting) {
        var e :| e in waiting && e.order == t.order;
        ForKeyMembers(waiting, e.key);
        assert e in Entries(Queue(pending, e.key));
        var i :| 0 <= i < |Queue(pending, e.key)| && Entries(Queue(pending, e.key))[i] == e;
        assert Queue(pending, e.key)[i] == t;
      }
    }

    lemma TableIsListed()
      requires TableValid()
      ensures Listed(registered, waiting)
    {
      forall t | t in registered ensures t.order in Orders(waiting) <==> Entry(t.order, t.key) in waiting {
        WaitingObjects(t);
      }
    }

    /** Appends a transaction to the queue of its key. */
    method File(t: Transaction)
      requires Valid() && t.order == nextOrder + 1 && t.result == None
      modifies this
      ensures Valid()
      ensures nextOrder == t.order && waiting == old(waiting) + [Entry(t.order, t.key)]
      ensures registered == old(registered) + {t}
      ensures closed == old(closed) && terminal == old(terminal)
    {
      TableAdd(pending, waiting, registered, nextOrder, t);
      UnansweredAdd(registered, waiting, nextOrder, t);
      pending, nextOrder := pending[t.key := Queue(pending, t.key) + [t]], nextOrder + 1;
      waiting, registered := waiting + [Entry(t.order, t.key)], registered + {t};
    }

    /** Registers a new transaction at the end of the queue of its key. */
    method AddPending(key: Key) returns (t: Transaction)
      requires Valid()
      modifies this
      ensures Valid() && fresh(t)
      ensures t.key == key && t.order == nextOrder == old(nextOrder) + 1
      ensures waiting == old(waiting) + [Entry(t.order, key)]
      ensures registered == old(registered) + {t}
      ensures closed == old(closed) && terminal == old(terminal)
    {
      t := new Transaction(key, nextOrder + 1);
      File(t);
    }

    /** The start of an exchange: the request is refused before anything is registered, or
        registered under its device, awaited sub-ID and command byte. What awaits an error report's
        sub-ID, or cannot be built, is refused. */
    method Begin(q: Request) returns (t: Transaction?)
      requires Valid()
      modifies this
      ensures Valid()
      ensures t == null <==> !Accepts(q)
      ensures t == null <==> Encode(q.report).Err? || q.responseSubID == if q.report.typ.Short? then 0x8f else 0xff
      ensures t != null ==> t.key == Key(q.report.device, q.responseSubID, 16 * q.report.func + q.report.software)
      ensures t == null ==> waiting == old(waiting) && registered == old(registered) && nextOrder == old(nextOrder)
      ensures t != null ==> fresh(t) && t.order == nextOrder == old(nextOrder) + 1
      ensures t != null ==> waiting == old(waiting) + [Entry(t.order, KeyOf(q))] && registered == old(registered) + {t}
      ensures closed == old(closed) && terminal == old(terminal)
    {
      if q.report.typ.Short? && q.responseSubID == REGISTER_ERROR { return null; }
      if !q.report.typ.Short? && q.responseSubID == FEATURE_ERROR { return null; }
      var data := Build(q.report);
      if data.Err? { return null; }
      CommandNibbles(q.report);
      t := AddPending(Key(q.report.device, q.responseSubID, CommandByte(q.report)));
    }

    /** Removes the head of one non-empty queue: the tail of both take functions. */
    method PopHead(k: Key) returns (t: Transaction)
      requires Valid() && k in pending
      modifies this`pending, this`waiting
      ensures Valid() && t in registered && t.result == None
      ensures Oldest(old(waiting), k) == Some(Entry(t.order, t.key))
      ensures waiting == Take(old(waiting), k)
    {
      var transactions := pending[k];
      t := transactions[0];
      QueueEntry(pending, waiting, k, 0);
      WithoutRefines(pending, waiting, k, 0);
      TakeMembers(waiting, k);
      if |transactions| == 1 {
        pending := pending - {k};
      } else {
        pending := pending[k := transactions[1..]];
      }
      assert transactions[..0] + transactions[1..] == transactions[1..];
      waiting := Drop(waiting, t.order);
    }

    method TakePending(k: Key) returns (t: Transaction?)
      requires Valid()
      modifies this`pending, this`waiting
      ensures Valid()
      ensures t == null ==> Oldest(old(waiting), k) == None
      ensures t != null ==> t in registered && t.result == None
                            && Oldest(old(waiting), k) == Some(Entry(t.order, t.key))
      ensures waiting == Take(old(waiting), k)
    {
      if k !in pending {
        OldestIsHead(waiting, k);
        assert Entries(Queue(pending, k)) == ForKey(waiting, k);
        t := null;
      } else {
        t := PopHead(k);
      }
    }

    /** The scan over the whole map, in any iteration order, ends at the transaction of the direct
        lookup. */
    method TakePendingError(device: byte, subID: byte, address: byte) returns (selected: Transaction?)
      requires Valid()
      modifies this`pending, this`waiting
      ensures Valid()
      ensures selected == null ==> Oldest(old(waiting), Key(device, subID, address)) == None
      ensures selected != null ==>
                && selected in registered && selected.result == None
                && Oldest(old(waiting), Key(device, subID, address)) == Some(Entry(selected.order, selected.key))
      ensures waiting == Take(old(waiting), Key(device, subID, address))
    {
      ghost var k := Key(device, subID, address);
      selected := null;
      var selectedKey := Key(0, 0, 0);
      var unvisited := pending.Keys;
      while unvisited != {}
        invariant unvisited <= pending.Keys
        invariant selected == null ==> k !in pending || k in unvisited
        invariant selected != null ==> selectedKey == k && k in pending
        decreases unvisited
      {
        var key :| key in unvisited;
        unvisited := unvisited - {key};
        if key.device == device && key.subID == subID && key.address == address && |pending[key]| > 0 {
          var candidate := pending[key][0];
          if selected == null || candidate.order < selected.order {
            selected, selectedKey := candidate, key;
          }
        }
      }
      if selected == null {
        OldestIsHead(waiting, k);
        assert Entries(Queue(pending, k)) == ForKey(waiting, k);
      } else {
        selected := PopHead(selectedKey);
      }
    }

    /** Removes exactly the target, wherever it stands in its queue; a target that has already
        left the table changes nothing. */
    method RemovePending(target: Transaction)
      requires Valid() && target in registered
      modifies this`pending, this`waiting
      ensures Valid()
      ensures waiting == Drop(old(waiting), target.order)
      ensures target.order !in Orders(waiting)
    {
      var k := target.key;
      var transactions := Queue(pending, k);
      WaitingObjects(target);
      DropMembers(waiting, target.order);
      DropOrdered(waiting, target.order);
      var i := 0;
      while i < |transactions| && transactions[i] != target
        invariant i <= |transactions| && target !in transactions[..i]
      {
        i := i + 1;
      }
      if i == |transactions| {
        DropAbsent(waiting, target.order);
        return;
      }
      WithoutRefines(pending, waiting, k, i);
      transactions := transactions[..i] + transactions[i + 1..];
      if transactions == [] {
        pending := pending - {k};
      } else {
        pending := pending[k := transactions];
      }
      waiting := Drop(waiting, target.order);
    }

    /** Empties the map queue by queue, in any iteration order. */
    method Flatten() returns (transactions: seq<Transaction>)
      requires forall k, t | k in pending && t in pending[k] :: t.key == k
      requires forall k, i, j | k in pending && 0 <= i < j < |pending[k]| :: pending[k][i] != pending[k][j]
      modifies this`pending
      ensures pending == map[]
      ensures forall t :: t in transactions <==> t in Queue(old(pending), t.key)
      ensures forall i, j | 0 <= i < j < |transactions| :: transactions[i] != transactions[j]
    {
      transactions := [];
      while pending != map[]
        invariant pending.Keys <= old(pending).Keys
        invariant forall k | k in pending :: pending[k] == old(pending)[k]
        invariant forall t :: t in transactions <==> t.key !in pending && t in Queue(old(pending), t.key)
        invariant forall i, j | 0 <= i < j < |transactions| :: transactions[i] != transactions[j]
        decreases |pending|
      {
        var k :| k in pending;
        assert forall t | t in pending[k] :: t !in transactions;
        DistinctConcat(transactions, pending[k]);
        transactions := transactions + pending[k];
        pending := pending - {k};
      }
    }

    method Drain() returns (transactions: seq<Transaction>)
      requires Valid()
      modifies this`pending, this`waiting
      ensures Valid() && waiting == []
      ensures forall t | t in transactions :: t in registered && t.result == None
      ensures forall t | t in registered :: t in transactions <==> t.order in Orders(old(waiting))
      ensures forall i, j | 0 <= i < j < |transactions| :: transactions[i] != transactions[j]
    {
      forall t | t in registered ensures t.order in Orders(waiting) <==> t in Queue(pending, t.key) {
        WaitingObjects(t);
      }
      QueuesAreDisjoint(pending, waiting);
      transactions := Flatten();
      waiting := [];
    }

    /** Fails everybody who is waiting when the table is emptied. */
    method FailPending(outcome: Outcome)
      requires Valid()
      modifies this`pending, this`waiting, registered
      ensures Valid() && waiting == []
      ensures Sent(registered, FailAll(old(waiting), outcome))
    {
      var transactions := Drain();
      for i := 0 to |transactions|
        invariant Valid() && waiting == []
        invariant forall t | t in transactions[i..] :: t.result == None
        invariant forall t | t in registered ::
          t.result == if t in transactions[..i] then Some(outcome) else old(t.result)
      {
        assert transactions[i] !in transactions[i + 1..];
        assert transactions[i] in transactions;
        transactions[i].Send(outcome);
      }
      assert transactions[..|transactions|] == transactions;
    }

    /** The first cause wins. */
    method MarkClosed(cause: Cause)
      requires Valid()
      modifies this`closed, this`terminal
      ensures Valid() && closed
      ensures terminal == if old(closed) then old(terminal) else Some(cause)
    {
      if !closed {
        closed, terminal := true, Some(cause);
      }
    }

    /** Sends the outcome to the transaction that was just taken, if there was one. */
    method Answer(t: Transaction?, k: Key, outcome: Outcome, ghost before: seq<Entry>)
      requires Valid() && Ordered(before) && waiting == Take(before, k)
      requires t == null ==> Oldest(before, k) == None
      requires t != null ==> t in registered && t.result == None && Oldest(before, k) == Some(Entry(t.order, t.key))
      modifies registered
      ensures Valid() && Sent(registered, ToOldest(before, k, outcome))
    {
      if t != null {
        TakeMembers(before, k);
        assert Entry(t.order, t.key) !in waiting;
        WaitingObjects(t);
        t.Send(outcome);
      }
    }

    /** Hands a reply to the oldest transaction on its key, and turns an error report into an error of
        the oldest transaction on the key that it quotes. Returns whether the report is left to the
        report handlers. */
    method Dispatch(report: Report) returns (unclaimed: bool)
      requires Valid()
      modifies this`pending, this`waiting, registered
      ensures Valid()
      ensures report.subID != (if report.typ.Short? then 0x8f else 0xff) ==>
                var k := Key(report.device, report.subID, CommandByte(report));
                && ToldFirst(registered, old(waiting), k, Reply(report))
                && (unclaimed <==> forall e | e in old(waiting) :: e.key != k)
      ensures report.subID == (if report.typ.Short? then 0x8f else 0xff) && |report.parameters| >= 2 ==>
                var k := Key(report.device, CommandByte(report), report.parameters[0]);
                ToldFirst(registered, old(waiting), k, DeviceError(k, report.parameters[1])) && !unclaimed
      ensures waiting == ServeReport(old(waiting), report).0
      ensures Sent(registered, ServeReport(old(waiting), report).1)
      ensures unclaimed <==> Classify(report).Response? && Oldest(old(waiting), Classify(report).key) == None
    {
      ghost var w := waiting;
      TableIsListed();
      if !Classify(report).Truncated? {
        ghost var k := Classify(report).key;
        ghost var outcome := if Classify(report).Response? then Reply(report)
                             else DeviceError(k, Classify(report).code);
        OldestIsLeast(w, k);
        OldestIsSent(w, k, outcome);
        FirstIsNamed(registered, w, k, outcome, Take(w, k), ToOldest(w, k, outcome));
      }
      unclaimed := DispatchRoute(report);
    }

    /** The three branches of Dispatch. */
    method DispatchRoute(report: Report) returns (unclaimed: bool)
      requires Valid()
      modifies this`pending, this`waiting, registered
      ensures Valid()
      ensures waiting == ServeReport(old(waiting), report).0
      ensures Sent(registered, ServeReport(old(waiting), report).1)
      ensures unclaimed <==> Classify(report).Response? && Oldest(old(waiting), Classify(report).key) == None
    {
      unclaimed := false;
      match Classify(report)
      case Truncated =>
        FailPending(Malformed);
      case Failure(k, code) =>
        var t: Transaction?;
        if report.typ.Short? {
          t := TakePendingError(k.device, k.subID, k.address);
        } else {
          t := TakePending(k);
        }
        Answer(t, k, DeviceError(k, code), old(waiting));
      case Response(k) =>
        var t := TakePending(k);
        Answer(t, k, Reply(report), old(waiting));
        unclaimed := t == null;
    }

    /** One iteration of the reader. A reply goes to the oldest transaction on the key in its bytes,
        an error report fails the oldest one on the key it quotes, a garbled or failed read fails
        everybody, and nothing else is heard by anybody. */
    method ReadOne(read: Read) returns (unclaimed: bool)
      requires Valid()
      modifies this`pending, this`waiting, this`closed, this`terminal, registered
      ensures Valid()
      ensures read.Bytes? ==> Told(registered, old(waiting), read.data)
      ensures read.BadCount? ==> ToldAll(registered, old(waiting), Malformed)
      ensures read.Failed? ==> ToldAll(registered, old(waiting), ClosedTransport)
      ensures waiting == Serve(old(waiting), read).0
      ensures Sent(registered, Serve(old(waiting), read).1)
      ensures unclaimed == Unclaimed(old(waiting), read)
      ensures terminal == if old(closed) then old(terminal) else FirstFailure([read])
    {
      unclaimed := false;
      TableIsListed();
      match read
      case Failed(cause) =>
        MarkClosed(cause);
        FailPending(ClosedTransport);
      case BadCount =>
        FailPending(Malformed);
      case Bytes(data) =>
        RouteOfBytes(data);
        ParseLayout(data);
        match Decode(data) {
          case Err(NotHidpp) =>
          case Err(WrongLength) => FailPending(Malformed);
          case Ok(report) => unclaimed := Dispatch(report);
        }
    }

    /** The reader: one report at a time until a read fails. Returns the reports nobody claimed. */
    method ReadLoop(script: seq<Read>) returns (unclaimed: seq<Read>)
      requires Valid()
      modifies this`pending, this`waiting, this`closed, this`terminal, registered
      ensures Valid()
      ensures waiting == ServeAll(old(waiting), script).0
      ensures Sent(registered, ServeAll(old(waiting), script).1)
      ensures unclaimed == UnclaimedBy(old(waiting), script)
      ensures terminal == if old(closed) then old(terminal) else FirstFailure(script)
    {
      unclaimed := [];
      var i := 0;
      while i < |script|
        invariant 0 <= i <= |script|
        invariant Valid() && terminal == old(terminal) && closed == old(closed)
        invariant !Stopped(script[..i])
        invariant waiting == ServeAll(old(waiting), script[..i]).0
        invariant Sent(registered, ServeAll(old(waiting), script[..i]).1)
        invariant unclaimed == UnclaimedBy(old(waiting), script[..i])
      {
        ReadExtends(old(waiting), script, i);
        label before:
        var free := ReadOne(script[i]);
        if free { unclaimed := unclaimed + [script[i]]; }
        i := i + 1;
        if script[i - 1].Failed? {
          ReadEnds(old(waiting), script, i);
          return;
        }
      }
      assert script[..i] == script;
    }
  }
}
