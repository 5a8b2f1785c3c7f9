/** Every interleaving of any number of `Exchange` calls with the one reader
    (internal/hidpp/session.go). Each step below is one atomic action of one goroutine: a critical
    section, a channel operation or a transport call. The table steps are the functions that the
    Dispatcher methods are proved to compute. */
module Protocol {
  import opened Common
  import opened Wire
  import opened WaitingList

  datatype Reason = Expired | Shutdown | WriteFailed

  datatype End = Got(outcome: Outcome) | Gave(why: Reason)

  /** Where a call is: waiting for the write gate, holding it before and after the closed check, in
      the final select, about to remove itself from the table, or back at its caller. */
  datatype Pc = Queued | Gated | Writing | Waiting | Withdrawing(why: Reason) | Returned(end: End)

  /** `channel` is the buffered result channel; `sends` counts every send ever made on it. */
  datatype Caller = Caller(key: Key, pc: Pc, channel: seq<Outcome>, sends: nat)

  /** Delivering: results already taken from the table but not yet sent. */
  datatype Reader = Reading | Failing | Delivering(todo: map<nat, Outcome>, last: bool) | Exited

  /** `gate` names the call that
      holds the write gate, `log` records the transactions taken by a response or device error, in order. */
  datatype State = State(waiting: seq<Entry>, next: nat, callers: map<nat, Caller>, reader: Reader,
                         gate: Option<nat>, terminal: Option<Cause>, log: seq<Entry>)

  datatype WriteResult = Written | Rejected | TransportGone

  datatype Step =
    | Begin(key: Key)
    | Acquire(o: nat)
    | CheckClosed(o: nat)
    | Write(o: nat, result: WriteResult)
    | Expire(o: nat)
    | SeeDone(o: nat)
    | Receive(o: nat)
    | Withdraw(o: nat)
    | Close
    | ReadOne(read: Read)
    | FailRest
    | Deliver(o: nat)
    | Finish

  const INIT := State([], 0, map[], Reading, None, None, [])

  predicate At(s: State, o: nat, pc: Pc) {
    o in s.callers && s.callers[o].pc == pc
  }

  predicate Enabled(s: State, step: Step) {
    match step
    case Begin(_) => true
    case Acquire(o) => At(s, o, Queued) && s.gate.None?
    case CheckClosed(o) => At(s, o, Gated)
    case Write(o, _) => At(s, o, Writing)
    case Expire(o) => At(s, o, Queued) || At(s, o, Waiting)
    case SeeDone(o) => (At(s, o, Queued) || At(s, o, Waiting)) && s.reader.Exited?
    case Receive(o) => At(s, o, Waiting) && s.callers[o].channel != []
    case Withdraw(o) => o in s.callers && s.callers[o].pc.Withdrawing?
    case Close => true
    case ReadOne(_) => s.reader.Reading?
    case FailRest => s.reader.Failing?
    // a send on a channel of capacity one needs an empty buffer
    case Deliver(o) => s.reader.Delivering? && o in s.reader.todo && o in s.callers && s.callers[o].channel == []
    case Finish => s.reader.Delivering? && s.reader.todo == map[]
  }

  function MarkClosed(s: State, cause: Cause): State {
    if s.terminal.None? then s.(terminal := Some(cause)) else s
  }

  function Move(s: State, o: nat, pc: Pc): State
    requires o in s.callers
  {
    s.(callers := s.callers[o := s.callers[o].(pc := pc)])
  }

  function Next(s: State, step: Step): State
    requires Enabled(s, step)
  {
    match step
    case Begin(key) =>
      var o := s.next + 1;
      s.(next := o, waiting := s.waiting + [Entry(o, key)],
         callers := s.callers[o := Caller(key, Queued, [], 0)])
    case Acquire(o) => Move(s.(gate := Some(o)), o, Gated)
    case CheckClosed(o) =>
      if s.terminal.Some? then Move(s.(gate := None), o, Withdrawing(Shutdown)) else Move(s, o, Writing)
    case Write(o, result) =>
      var s' := s.(gate := None);
      (match result
       case Written => Move(s', o, Waiting)
       case Rejected => Move(s', o, Withdrawing(WriteFailed))
       case TransportGone => Move(MarkClosed(s', WriteError), o, Withdrawing(Shutdown)))
    case Expire(o) => Move(s, o, Withdrawing(Expired))
    case SeeDone(o) => Move(s, o, Withdrawing(Shutdown))
    case Receive(o) =>
      var c := s.callers[o];
      s.(callers := s.callers[o := c.(pc := Returned(Got(c.channel[0])), channel := c.channel[1..])])
    case Withdraw(o) =>
      Move(s.(waiting := Drop(s.waiting, o)), o, Returned(Gave(s.callers[o].pc.why)))
    case Close => MarkClosed(s, ClosedByCaller)
    case ReadOne(read) =>
      if read.Failed? then MarkClosed(s, read.cause).(reader := Failing)
      else
        var (w, sent) := Serve(s.waiting, read);
        s.(waiting := w, reader := Delivering(sent, false), log := s.log + Matched(s.waiting, read))
    case FailRest =>
      s.(waiting := [], reader := Delivering(FailAll(s.waiting, ClosedTransport), true))
    case Deliver(o) =>
      var c := s.callers[o];
      s.(callers := s.callers[o := c.(channel := c.channel + [s.reader.todo[o]], sends := c.sends + 1)],
         reader := s.reader.(todo := s.reader.todo - {o}))
    case Finish => s.(reader := if s.reader.last then Exited else Reading)
  }

  /** The transaction that a response or device error completes. */
  function Matched(w: seq<Entry>, read: Read): seq<Entry> {
    if read.Bytes? && Decode(read.data).Ok? && !Classify(Decode(read.data).value).Truncated? then
      match Oldest(w, Classify(Decode(read.data).value).key)
      case None => []
      case Some(e) => [e]
    else []
  }

  /** A run: the scheduler picks the steps; a step that is not enabled does not happen. */
  function Exec(s: State, steps: seq<Step>): State {
    if steps == [] then s
    else
      var s' := Exec(s, steps[..|steps| - 1]);
      var step := steps[|steps| - 1];
      if Enabled(s', step) then Next(s', step) else s'
  }

  // ---- The invariant ----

  predicate InFlight(s: State, o: nat) {
    s.reader.Delivering? && o in s.reader.todo
  }

  predicate Live(c: Caller) {
    c.pc.Queued? || c.pc.Gated? || c.pc.Writing? || c.pc.Waiting?
  }

  predicate Holds(c: Caller) {
    c.pc.Gated? || c.pc.Writing?
  }

  ghost predicate TableInv(s: State) {
    && Ordered(s.waiting)
    && (forall o :: o in s.callers <==> 1 <= o <= s.next)
    && (forall e | e in s.waiting :: e.order in s.callers && s.callers[e.order].key == e.key)
  }

  function Held(s: State, o: nat): Option<Outcome> {
    if InFlight(s, o) then Some(s.reader.todo[o]) else None
  }

  /** Every transaction is in exactly one place: in the table, in the reader's hands, in its
      channel, or gone. A call that has not given up is in one of the first three. */
  ghost predicate CallerInv(c: Caller, inTable: bool, held: Option<Outcome>) {
    && |c.channel| <= c.sends <= 1
    && (inTable ==> c.sends == 0 && held.None?)
    && (held.Some? ==> c.sends == 0 && Belongs(held.value, c.key))
    && (c.channel != [] ==> Belongs(c.channel[0], c.key))
    && (Live(c) ==> inTable || held.Some? || c.channel != [])
    && (c.pc.Returned? ==> !inTable)
    && (c.pc.Returned? && c.pc.end.Got? ==> c.sends == 1 && c.channel == [] && Belongs(c.pc.end.outcome, c.key))
  }

  ghost predicate PlaceInv(s: State) {
    forall o | o in s.callers :: CallerInv(s.callers[o], o in Orders(s.waiting), Held(s, o))
  }

  ghost predicate ControlInv(s: State) {
    && (forall o | o in s.callers && Holds(s.callers[o]) :: s.gate == Some(o))
    && (s.gate.Some? ==> s.gate.value in s.callers && Holds(s.callers[s.gate.value]))
    && (s.reader.Failing? || s.reader.Exited? || (s.reader.Delivering? && s.reader.last) ==> s.terminal.Some?)
    && (s.reader.Delivering? ==> s.reader.todo.Keys <= s.callers.Keys)
  }

  /** Transactions with one key are completed in registration order, and before anyone who still
      waits on that key. */
  ghost predicate LogInv(s: State) {
    && (forall i | 0 <= i < |s.log| :: s.log[i].order <= s.next)
    && (forall i, j | 0 <= i < j < |s.log| && s.log[i].key == s.log[j].key :: s.log[i].order < s.log[j].order)
    && (forall i, e | 0 <= i < |s.log| && e in s.waiting && s.log[i].key == e.key :: s.log[i].order < e.order)
  }

  /** An answer to this very transaction, as opposed to a failure of all of them. */
  predicate IsAnswer(outcome: Outcome) {
    outcome.Reply? || outcome.DeviceError?
  }

  /** The call is about to be sent an answer, has one in its channel, or has returned with one. */
  predicate Answered(s: State, o: nat)
    requires o in s.callers
  {
    var c := s.callers[o];
    || (InFlight(s, o) && IsAnswer(s.reader.todo[o]))
    || (c.channel != [] && IsAnswer(c.channel[0]))
    || (c.pc.Returned? && c.pc.end.Got? && IsAnswer(c.pc.end.outcome))
  }

  /** Whoever is answered is in the log. */
  ghost predicate AnswerInv(s: State) {
    forall o | o in s.callers && Answered(s, o) :: Entry(o, s.callers[o].key) in s.log
  }

  ghost predicate Inv(s: State) {
    && TableInv(s)
    && PlaceInv(s)
    && ControlInv(s)
    && LogInv(s)
    && AnswerInv(s)
  }

  // ---- Every step keeps it ----

  lemma ServeBelongs(w: seq<Entry>, read: Read)
    requires Ordered(w)
    ensures forall e | e in w && e.order in Serve(w, read).1 :: Belongs(Serve(w, read).1[e.order], e.key)
  {
    forall e | e in w && e.order in Serve(w, read).1 ensures Belongs(Serve(w, read).1[e.order], e.key) {
      FirstBelongs(w, read, e);
    }
  }

  lemma ReaderKeepsPlace(s: State, s': State, read: Read)
    requires TableInv(s) && PlaceInv(s)
    requires s.reader.Reading? || s.reader.Failing?
    requires s'.callers == s.callers && s'.next == s.next
    requires s'.waiting == Serve(s.waiting, read).0
    requires s'.reader.Delivering? && s'.reader.todo == Serve(s.waiting, read).1
    ensures TableInv(s') && PlaceInv(s')
    ensures s'.reader.todo.Keys <= s'.callers.Keys
  {
    ServeConserves(s.waiting, read);
    ServeBelongs(s.waiting, read);
    forall o | o in Orders(s.waiting) ensures o in s.callers && Entry(o, s.callers[o].key) in s.waiting {
      var e :| e in s.waiting && e.order == o;
    }
    forall o | o in s.callers ensures CallerInv(s.callers[o], o in Orders(s'.waiting), Held(s', o)) {
      assert CallerInv(s.callers[o], o in Orders(s.waiting), Held(s, o));
    }
  }

  lemma LogAppend(s: State, s': State, e: Entry)
    requires LogInv(s) && e in s.waiting && e.order <= s.next == s'.next && s'.log == s.log + [e]
    requires forall f | f in s'.waiting :: f in s.waiting && (f.key == e.key ==> e.order < f.order)
    ensures LogInv(s')
  {
  }

  lemma MatchedKeepsLog(s: State, read: Read)
    requires TableInv(s) && LogInv(s) && s.reader.Reading? && !read.Failed?
    ensures LogInv(Next(s, ReadOne(read)))
  {
    var s' := Next(s, ReadOne(read));
    ServeConserves(s.waiting, read);
    var matched := Matched(s.waiting, read);
    if matched == [] {
      assert s'.log == s.log;
    } else {
      var k := Classify(Decode(read.data).value).key;
      MatchedIsOldest(s.waiting, k, matched[0]);
      assert matched[0].order in s.callers;
      LogAppend(s, s', matched[0]);
    }
  }

  lemma MatchedIsOldest(w: seq<Entry>, k: Key, e: Entry)
    requires Ordered(w) && Oldest(w, k) == Some(e)
    ensures e in w && e.key == k
    ensures forall f | f in Take(w, k) :: f in w && (f.key == k ==> e.order < f.order)
  {
    OldestIsLeast(w, k);
    TakeMembers(w, k);
    forall f | f in Take(w, k) && f.key == k ensures e.order < f.order {
      if f.order == e.order { OrderIsIdentity(w, e, f); }
    }
  }

  /** Only the transaction that was matched is sent an answer. */
  lemma AnswersAreMatched(w: seq<Entry>, read: Read, o: nat)
    requires Ordered(w) && o in Serve(w, read).1 && IsAnswer(Serve(w, read).1[o])
    ensures Matched(w, read) != [] && Matched(w, read)[0].order == o && Matched(w, read)[0] in w
  {
    if read.Bytes? && Decode(read.data).Ok? && !Classify(Decode(read.data).value).Truncated? {
      OldestIsLeast(w, Classify(Decode(read.data).value).key);
    }
  }

  lemma ReaderKeepsAnswers(s: State, read: Read)
    requires TableInv(s) && AnswerInv(s) && s.reader.Reading? && !read.Failed?
    ensures AnswerInv(Next(s, ReadOne(read)))
  {
    var s' := Next(s, ReadOne(read));
    forall o | o in s'.callers && Answered(s', o) ensures Entry(o, s'.callers[o].key) in s'.log {
      if InFlight(s', o) && IsAnswer(s'.reader.todo[o]) {
        AnswersAreMatched(s.waiting, read, o);
        assert Matched(s.waiting, read)[0] == Entry(o, s.callers[o].key);
      } else {
        assert Answered(s, o);
      }
    }
  }

  /** A step that answers nobody new. */
  lemma AnswersKept(s: State, s': State)
    requires AnswerInv(s) && s'.log == s.log
    requires forall o | o in s'.callers && Answered(s', o) ::
               o in s.callers && Answered(s, o) && s'.callers[o].key == s.callers[o].key
    ensures AnswerInv(s')
  {
  }

  lemma BeginKeepsTable(s: State, key: Key)
    requires TableInv(s)
    ensures TableInv(Next(s, Begin(key)))
  {
    var e := Entry(s.next + 1, key);
    forall f | f in s.waiting ensures f.order < e.order {
      assert f.order in s.callers;
    }
    AppendOrdered(s.waiting, e);
  }

  lemma BeginKeepsLog(s: State, key: Key)
    requires TableInv(s) && LogInv(s)
    ensures LogInv(Next(s, Begin(key)))
  {
  }

  lemma BeginKeepsControl(s: State, key: Key)
    requires TableInv(s) && ControlInv(s)
    ensures ControlInv(Next(s, Begin(key)))
  {
  }

  lemma BeginKeepsAnswers(s: State, key: Key)
    requires TableInv(s) && ControlInv(s) && AnswerInv(s)
    ensures AnswerInv(Next(s, Begin(key)))
  {
    var s' := Next(s, Begin(key));
    assert s.next + 1 !in s.callers;
    forall o | o in s'.callers && Answered(s', o)
      ensures o in s.callers && Answered(s, o) && s'.callers[o].key == s.callers[o].key
    {
      assert o != s.next + 1;
    }
    AnswersKept(s, s');
  }

  lemma BeginKeepsPlace(s: State, key: Key)
    requires TableInv(s) && PlaceInv(s) && ControlInv(s)
    ensures PlaceInv(Next(s, Begin(key)))
  {
    var s' := Next(s, Begin(key));
    var e := Entry(s.next + 1, key);
    OrdersAppend(s.waiting, e);
    assert e.order !in s.callers;
    forall o | o in s'.callers ensures CallerInv(s'.callers[o], o in Orders(s'.waiting), Held(s', o)) {
      if o != e.order { assert CallerInv(s.callers[o], o in Orders(s.waiting), Held(s, o)); }
    }
  }

  lemma BeginKeepsInv(s: State, key: Key)
    requires Inv(s)
    ensures Inv(Next(s, Begin(key)))
  {
    BeginKeepsTable(s, key);
    BeginKeepsPlace(s, key);
    BeginKeepsControl(s, key);
    BeginKeepsLog(s, key);
    BeginKeepsAnswers(s, key);
  }

  /** A step that changes one call and leaves everybody else in place. */
  lemma CallerStep(s: State, s': State, o: nat, c: Caller)
    requires TableInv(s) && PlaceInv(s) && o in s.callers
    requires s'.callers == s.callers[o := c] && c.key == s.callers[o].key && s'.next == s.next
    requires Ordered(s'.waiting) && forall e | e in s'.waiting :: e in s.waiting
    requires forall p | p != o :: (p in Orders(s'.waiting) <==> p in Orders(s.waiting)) && Held(s', p) == Held(s, p)
    requires CallerInv(c, o in Orders(s'.waiting), Held(s', o))
    ensures TableInv(s') && PlaceInv(s')
  {
    forall p | p in s'.callers ensures CallerInv(s'.callers[p], p in Orders(s'.waiting), Held(s', p)) {
      if p != o { assert CallerInv(s.callers[p], p in Orders(s.waiting), Held(s, p)); }
    }
  }

  /** A step of one call alone, which is answered after it only if it was before. */
  lemma OthersKeepAnswers(s: State, s': State, o: nat)
    requires AnswerInv(s) && s'.log == s.log && o in s.callers && o in s'.callers
    requires s'.callers == s.callers[o := s'.callers[o]] && s'.callers[o].key == s.callers[o].key
    requires forall p | p != o && InFlight(s', p) :: InFlight(s, p) && s'.reader.todo[p] == s.reader.todo[p]
    requires Answered(s', o) ==> Answered(s, o)
    ensures AnswerInv(s')
  {
    forall p | p in s'.callers && Answered(s', p)
      ensures p in s.callers && Answered(s, p) && s'.callers[p].key == s.callers[p].key
    {
      if p != o { assert s'.callers[p] == s.callers[p]; }
    }
    AnswersKept(s, s');
  }

  /** A step of a call that neither takes nor gives back the gate. */
  lemma OneCallKeepsControl(s: State, s': State, o: nat)
    requires ControlInv(s) && o in s.callers && o in s'.callers
    requires s'.callers == s.callers[o := s'.callers[o]] && (Holds(s'.callers[o]) <==> Holds(s.callers[o]))
    requires s'.gate == s.gate && s'.terminal == s.terminal
    requires s'.reader == s.reader || (s.reader.Delivering? && s'.reader == s.reader.(todo := s.reader.todo - {o}))
    ensures ControlInv(s')
  {
    forall p | p in s'.callers && Holds(s'.callers[p]) ensures s'.gate == Some(p) {
      assert Holds(s.callers[p]);
    }
  }

  lemma WithdrawKeepsPlace(s: State, o: nat)
    requires TableInv(s) && PlaceInv(s) && Enabled(s, Withdraw(o))
    ensures TableInv(Next(s, Withdraw(o))) && PlaceInv(Next(s, Withdraw(o)))
  {
    var s' := Next(s, Withdraw(o));
    DropOrdered(s.waiting, o);
    DropMembers(s.waiting, o);
    OrdersDrop(s.waiting, o);
    assert CallerInv(s.callers[o], o in Orders(s.waiting), Held(s, o));
    CallerStep(s, s', o, s'.callers[o]);
  }

  lemma WithdrawKeepsAnswers(s: State, o: nat)
    requires AnswerInv(s) && Enabled(s, Withdraw(o))
    ensures AnswerInv(Next(s, Withdraw(o)))
  {
    OthersKeepAnswers(s, Next(s, Withdraw(o)), o);
  }

  lemma WithdrawKeepsInv(s: State, o: nat)
    requires Inv(s) && Enabled(s, Withdraw(o))
    ensures Inv(Next(s, Withdraw(o)))
  {
    WithdrawKeepsPlace(s, o);
    WithdrawKeepsAnswers(s, o);
    OneCallKeepsControl(s, Next(s, Withdraw(o)), o);
    DropMembers(s.waiting, o);
    LogKept(s, Next(s, Withdraw(o)));
  }

  /** The steps of one call that touch neither the table nor the reader. */
  predicate Local(step: Step) {
    step.Acquire? || step.CheckClosed? || step.Write? || step.Expire? || step.SeeDone? || step.Receive?
  }

  lemma LocalKeepsCaller(s: State, step: Step)
    requires PlaceInv(s) && Local(step) && Enabled(s, step)
    ensures var s' := Next(s, step);
            && s'.callers == s.callers[step.o := s'.callers[step.o]]
            && s'.callers[step.o].key == s.callers[step.o].key
            && s' == s.(callers := s'.callers, gate := s'.gate, terminal := s'.terminal)
            && CallerInv(s'.callers[step.o], step.o in Orders(s.waiting), Held(s, step.o))
  {
    assert CallerInv(s.callers[step.o], step.o in Orders(s.waiting), Held(s, step.o));
  }

  lemma LocalKeepsControl(s: State, step: Step)
    requires ControlInv(s) && Local(step) && Enabled(s, step)
    ensures ControlInv(Next(s, step))
  {
  }

  lemma LocalKeepsPlace(s: State, step: Step)
    requires TableInv(s) && PlaceInv(s) && Local(step) && Enabled(s, step)
    ensures TableInv(Next(s, step)) && PlaceInv(Next(s, step))
  {
    var s' := Next(s, step);
    LocalKeepsCaller(s, step);
    assert forall p :: Held(s', p) == Held(s, p);
    CallerStep(s, s', step.o, s'.callers[step.o]);
  }

  lemma LocalKeepsAnswers(s: State, step: Step)
    requires PlaceInv(s) && AnswerInv(s) && Local(step) && Enabled(s, step)
    ensures AnswerInv(Next(s, step))
  {
    LocalKeepsCaller(s, step);
    OthersKeepAnswers(s, Next(s, step), step.o);
  }

  lemma LocalKeepsInv(s: State, step: Step)
    requires Inv(s) && Local(step) && Enabled(s, step)
    ensures Inv(Next(s, step))
  {
    LocalKeepsCaller(s, step);
    LocalKeepsPlace(s, step);
    LocalKeepsControl(s, step);
    LocalKeepsAnswers(s, step);
    LogKept(s, Next(s, step));
  }

  /** A step that takes nothing from the table for an answer. */
  lemma LogKept(s: State, s': State)
    requires LogInv(s) && s'.log == s.log && s'.next == s.next && forall e | e in s'.waiting :: e in s.waiting
    ensures LogInv(s')
  {
  }

  lemma DeliverKeepsPlace(s: State, o: nat)
    requires TableInv(s) && PlaceInv(s) && Enabled(s, Deliver(o))
    ensures TableInv(Next(s, Deliver(o))) && PlaceInv(Next(s, Deliver(o)))
  {
    var s' := Next(s, Deliver(o));
    assert CallerInv(s.callers[o], o in Orders(s.waiting), Held(s, o));
    CallerStep(s, s', o, s'.callers[o]);
  }

  lemma DeliverKeepsAnswers(s: State, o: nat)
    requires AnswerInv(s) && Enabled(s, Deliver(o))
    ensures AnswerInv(Next(s, Deliver(o)))
  {
    OthersKeepAnswers(s, Next(s, Deliver(o)), o);
  }

  lemma DeliverKeepsInv(s: State, o: nat)
    requires Inv(s) && Enabled(s, Deliver(o))
    ensures Inv(Next(s, Deliver(o)))
  {
    DeliverKeepsPlace(s, o);
    DeliverKeepsAnswers(s, o);
    OneCallKeepsControl(s, Next(s, Deliver(o)), o);
    LogKept(s, Next(s, Deliver(o)));
  }

  /** A step that leaves the calls, the table and the reader's hands alone. */
  lemma QuietKeepsInv(s: State, s': State)
    requires Inv(s)
    requires s'.(terminal := s.terminal, reader := s.reader) == s
    requires forall o :: Held(s', o) == Held(s, o)
    requires ControlInv(s')
    ensures Inv(s')
  {
    forall o | o in s'.callers ensures CallerInv(s'.callers[o], o in Orders(s'.waiting), Held(s', o)) {
      assert CallerInv(s.callers[o], o in Orders(s.waiting), Held(s, o));
    }
    forall o | o in s'.callers && Answered(s', o) ensures Answered(s, o) {
      assert Held(s', o) == Held(s, o);
    }
    AnswersKept(s, s');
  }

  lemma FailuresAreNoAnswers(s: State)
    requires AnswerInv(s) && s.reader.Failing?
    ensures AnswerInv(Next(s, FailRest))
  {
    AnswersKept(s, Next(s, FailRest));
  }

  lemma StepKeepsInv(s: State, step: Step)
    requires Inv(s) && Enabled(s, step)
    ensures Inv(Next(s, step))
  {
    var s' := Next(s, step);
    match step
    case Begin(key) => BeginKeepsInv(s, key);
    case Withdraw(o) => WithdrawKeepsInv(s, o);
    case Deliver(o) => DeliverKeepsInv(s, o);
    case ReadOne(read) =>
      if read.Failed? {
        QuietKeepsInv(s, s');
      } else {
        ReaderKeepsPlace(s, s', read);
        MatchedKeepsLog(s, read);
        ReaderKeepsAnswers(s, read);
      }
    case FailRest =>
      ReaderKeepsPlace(s, s', Failed(ReadError));
      FailuresAreNoAnswers(s);
    case Finish => QuietKeepsInv(s, s');
    case Close => QuietKeepsInv(s, s');
    case _ => LocalKeepsInv(s, step);
  }

  lemma {:induction false} ExecKeepsInv(s: State, steps: seq<Step>)
    requires Inv(s)
    ensures Inv(Exec(s, steps))
  {
    if steps != [] {
      ExecKeepsInv(s, steps[..|steps| - 1]);
      var s' := Exec(s, steps[..|steps| - 1]);
      if Enabled(s', steps[|steps| - 1]) { StepKeepsInv(s', steps[|steps| - 1]); }
    }
  }

  lemma RunsAreSafe(steps: seq<Step>)
    ensures Inv(Exec(INIT, steps))
  {
    assert Inv(INIT);
    ExecKeepsInv(INIT, steps);
  }

  // ---- What every run promises ----

  /** The reader is never blocked by a send, and never sends twice to one transaction. */
  lemma ReaderNeverBlocks(steps: seq<Step>, o: nat)
    ensures var s := Exec(INIT, steps);
            && (InFlight(s, o) ==> Enabled(s, Deliver(o)))
            && (o in s.callers ==> s.callers[o].sends <= 1)
            && (o in s.callers && s.callers[o].sends == 1 ==> o !in Orders(s.waiting) && !InFlight(s, o))
  {
    RunsAreSafe(steps);
  }

  /** A returned call has left the table; what it returns as a result was sent to it once, and
      belongs to the key it registered. */
  lemma ReturnedCallsAreGone(steps: seq<Step>, o: nat)
    ensures var s := Exec(INIT, steps);
            o in s.callers && s.callers[o].pc.Returned? ==>
              && o !in Orders(s.waiting)
              && (s.callers[o].pc.end.Got? ==>
                    s.callers[o].sends == 1 && Belongs(s.callers[o].pc.end.outcome, s.callers[o].key))
  {
    RunsAreSafe(steps);
  }

  lemma EarlierHasLeft(s: State, o: nat, p: nat, j: nat)
    requires TableInv(s) && LogInv(s) && o in s.callers && o < p
    requires j < |s.log| && s.log[j] == Entry(p, s.callers[o].key)
    ensures o !in Orders(s.waiting)
  {
    forall e | e in s.waiting ensures e.order != o {
      assert s.log[j].key == e.key ==> s.log[j].order < e.order;
    }
  }

  /** Calls with one key are answered in the order in which they registered: when a call is
      answered, every earlier one on its key has left the table, and if that one is answered too it
      was taken before. */
  lemma AnswersInOrder(steps: seq<Step>, o: nat, p: nat)
    ensures var s := Exec(INIT, steps);
            o in s.callers && p in s.callers && s.callers[o].key == s.callers[p].key && o < p && Answered(s, p) ==>
              && o !in Orders(s.waiting)
              && (Answered(s, o) ==>
                    exists i, j :: 0 <= i < j < |s.log| && s.log[i].order == o && s.log[j].order == p)
  {
    RunsAreSafe(steps);
    var s := Exec(INIT, steps);
    if o in s.callers && p in s.callers && s.callers[o].key == s.callers[p].key && o < p && Answered(s, p) {
      var k := s.callers[o].key;
      var j :| 0 <= j < |s.log| && s.log[j] == Entry(p, k);
      EarlierHasLeft(s, o, p, j);
      if Answered(s, o) {
        var i :| 0 <= i < |s.log| && s.log[i] == Entry(o, k);
        assert i != j && !(j < i);
      }
    }
  }

  /** Writes are serialized. */
  lemma OneWriterAtATime(steps: seq<Step>, o: nat, p: nat)
    ensures var s := Exec(INIT, steps);
            o in s.callers && p in s.callers && s.callers[o].pc.Writing? && s.callers[p].pc.Writing? ==> o == p
  {
    RunsAreSafe(steps);
  }

  /** No waiter is lost: as long as a call has not given up, either its result is in its channel,
      or the reader is about to send it, or it is in the table; and a reader that has begun to fail
      can always finish. */
  lemma NoLostWaiter(steps: seq<Step>, o: nat)
    ensures var s := Exec(INIT, steps);
            o in s.callers && Live(s.callers[o]) ==>
              (s.callers[o].channel != [] || Enabled(s, Deliver(o)) || o in Orders(s.waiting))
  {
    RunsAreSafe(steps);
    var s := Exec(INIT, steps);
    if o in s.callers { CallerServed(s, o); }
  }

  lemma CallerServed(s: State, o: nat)
    requires PlaceInv(s) && o in s.callers
    ensures Live(s.callers[o]) ==> s.callers[o].channel != [] || Enabled(s, Deliver(o)) || o in Orders(s.waiting)
  {
    assert CallerInv(s.callers[o], o in Orders(s.waiting), Held(s, o));
  }

  /** The steps that bring a call home once the reader is gone, all of them its own; if it is
      writing, the transport may still answer in any way. */
  function WayOut(s: State, o: nat, result: WriteResult): seq<Step>
    requires o in s.callers
  {
    match s.callers[o].pc
    case Queued => [SeeDone(o), Withdraw(o)]
    case Gated => [CheckClosed(o), Withdraw(o)]
    case Writing => [Write(o, result)] + if result.Written? then FromWaiting(s, o) else [Withdraw(o)]
    case Waiting => FromWaiting(s, o)
    case Withdrawing(_) => [Withdraw(o)]
    case Returned(_) => []
  }

  function FromWaiting(s: State, o: nat): seq<Step>
    requires o in s.callers
  {
    if s.callers[o].channel != [] then [Receive(o)] else [SeeDone(o), Withdraw(o)]
  }

  predicate Home(s: State, o: nat) {
    o in s.callers && s.callers[o].pc.Returned?
  }

  lemma LastStep(s: State, step: Step, o: nat)
    requires Enabled(s, step) && Home(Next(s, step), o)
    ensures Home(Exec(s, [step]), o)
  {
    ExecCons(s, step, []);
    assert [step] == [step] + [];
  }

  lemma TwoSteps(s: State, first: Step, second: Step, o: nat)
    requires Enabled(s, first) && Enabled(Next(s, first), second) && Home(Next(Next(s, first), second), o)
    ensures Home(Exec(s, [first, second]), o)
  {
    ExecCons(s, first, [second]);
    LastStep(Next(s, first), second, o);
    assert [first, second] == [first] + [second];
  }

  lemma WaitingReturns(s: State, o: nat)
    requires s.reader.Exited? && At(s, o, Waiting)
    ensures Home(Exec(s, FromWaiting(s, o)), o)
  {
    if s.callers[o].channel != [] {
      LastStep(s, Receive(o), o);
    } else {
      TwoSteps(s, SeeDone(o), Withdraw(o), o);
    }
  }

  lemma WritingReturns(s: State, o: nat, result: WriteResult)
    requires s.reader.Exited? && At(s, o, Writing)
    ensures Home(Exec(s, WayOut(s, o, result)), o)
  {
    if result.Written? {
      var s' := Next(s, Write(o, result));
      ExecCons(s, Write(o, result), FromWaiting(s, o));
      WaitingReturns(s', o);
    } else {
      TwoSteps(s, Write(o, result), Withdraw(o), o);
      assert [Write(o, result)] + [Withdraw(o)] == [Write(o, result), Withdraw(o)];
    }
  }

  lemma WayOutReturns(s: State, o: nat, result: WriteResult)
    requires s.reader.Exited? && s.terminal.Some? && o in s.callers
    ensures Home(Exec(s, WayOut(s, o, result)), o)
  {
    match s.callers[o].pc
    case Queued => TwoSteps(s, SeeDone(o), Withdraw(o), o);
    case Gated => TwoSteps(s, CheckClosed(o), Withdraw(o), o);
    case Writing => WritingReturns(s, o, result);
    case Waiting => WaitingReturns(s, o);
    case Withdrawing(_) => LastStep(s, Withdraw(o), o);
    case Returned(_) =>
  }

  /** Shutdown loses no waiter, whenever it registered: after the reader has exited every call
      returns by at most three steps of its own, without the reader and without a timeout, whatever
      becomes of a write that is under way. */
  lemma ShutdownFreesEveryone(steps: seq<Step>, o: nat, result: WriteResult)
    ensures var s := Exec(INIT, steps);
            s.reader.Exited? && o in s.callers ==>
              && |WayOut(s, o, result)| <= 3
              && Home(Exec(s, WayOut(s, o, result)), o)
              && o !in Orders(Exec(s, WayOut(s, o, result)).waiting)
              && s.terminal.Some?
  {
    RunsAreSafe(steps);
    var s := Exec(INIT, steps);
    if s.reader.Exited? && o in s.callers {
      var s' := Exec(s, WayOut(s, o, result));
      ExecKeepsInv(s, WayOut(s, o, result));
      WayOutReturns(s, o, result);
      assert CallerInv(s'.callers[o], o in Orders(s'.waiting), Held(s', o));
    }
  }

  predicate ReadersOwn(steps: seq<Step>) {
    forall step | step in steps :: step.FailRest? || step.Deliver? || step.Finish?
  }

  predicate Leaving(s: State) {
    s.reader.Failing? || (s.reader.Delivering? && s.reader.last)
  }

  /** The reader's next own step on its way out, and how many are left. */
  lemma LeavingStep(s: State) returns (step: Step)
    requires Inv(s) && Leaving(s)
    ensures Enabled(s, step) && ReadersOwn([step])
    ensures Next(s, step).reader.Exited? || Leaving(Next(s, step))
    ensures StepsLeft(Next(s, step)) == StepsLeft(s) - 1
  {
    step := FailRest;
    if s.reader.Delivering? {
      step := Finish;
      if o :| o in s.reader.todo {
        step := Deliver(o);
        assert CallerInv(s.callers[o], o in Orders(s.waiting), Held(s, o));
      }
    }
  }

  function StepsLeft(s: State): nat {
    if s.reader.Failing? then |FailAll(s.waiting, ClosedTransport)| + 2
    else if s.reader.Delivering? then |s.reader.todo| + 1 else 0
  }

  lemma PrependStep(s: State, step: Step, rest: seq<Step>)
    requires Enabled(s, step) && ReadersOwn([step]) && ReadersOwn(rest)
    ensures Exec(s, [step] + rest) == Exec(Next(s, step), rest) && ReadersOwn([step] + rest)
  {
    ExecCons(s, step, rest);
    assert step in [step];
  }

  /** A reader that has seen a failed read leaves by its own steps, one send per result it still
      holds: no caller can stop it. */
  lemma {:induction false} FailingReaderExits(s: State) returns (steps: seq<Step>)
    requires Inv(s) && Leaving(s)
    ensures Exec(s, steps).reader.Exited? && ReadersOwn(steps) && |steps| == StepsLeft(s)
    decreases StepsLeft(s)
  {
    var step := LeavingStep(s);
    StepKeepsInv(s, step);
    var rest: seq<Step> := [];
    if Leaving(Next(s, step)) {
      rest := FailingReaderExits(Next(s, step));
    }
    PrependStep(s, step, rest);
    steps := [step] + rest;
  }

  lemma {:induction false} ExecCons(s: State, step: Step, rest: seq<Step>)
    requires Enabled(s, step)
    ensures Exec(s, [step] + rest) == Exec(Next(s, step), rest)
  {
    var all := [step] + rest;
    if rest == [] {
      assert all[..0] == [];
    } else {
      ExecCons(s, step, rest[..|rest| - 1]);
      assert all[..|all| - 1] == [step] + rest[..|rest| - 1];
    }
  }

  lemma {:induction false} SettledFrom(s: State, steps: seq<Step>, o: nat)
    ensures s.terminal.Some? ==> Exec(s, steps).terminal == s.terminal
    ensures o in s.callers && s.callers[o].pc.Returned? && o <= s.next ==>
              o in Exec(s, steps).callers && Exec(s, steps).callers[o].pc == s.callers[o].pc
              && s.next <= Exec(s, steps).next
  {
    if steps != [] {
      SettledFrom(s, steps[..|steps| - 1], o);
    }
  }

  /** In every run the terminal cause is written once, and a returned call never changes its mind. */
  lemma SettledForGood(steps: seq<Step>, more: seq<Step>, o: nat)
    ensures var s := Exec(INIT, steps);
            var s' := Exec(s, more);
            && (s.terminal.Some? ==> s'.terminal == s.terminal)
            && (o in s.callers && s.callers[o].pc.Returned? ==> o in s'.callers && s'.callers[o].pc == s.callers[o].pc)
  {
    RunsAreSafe(steps);
    SettledFrom(Exec(INIT, steps), more, o);
  }

  // ---- Where results come from ----

  /** What a read has to be like to send this outcome to anybody. */
  predicate Says(read: Read, outcome: Outcome) {
    match outcome
    case Reply(report) => read.Bytes? && ReplyBytes(read.data) && Decode(read.data) == Ok(report)
    case DeviceError(k, code) =>
      read.Bytes? && ErrorBytes(read.data) && k == Key(read.data[1], read.data[3], read.data[4]) && code == read.data[5]
    case Malformed => Garbled(read)
    case ClosedTransport => read.Failed?
  }

  lemma ServeSays(w: seq<Entry>, read: Read)
    requires Ordered(w)
    ensures forall o | o in Serve(w, read).1 :: Says(read, Serve(w, read).1[o])
  {
    OnlyBadReadsFailEverybody(w, read);
    if read.Bytes? && ReplyBytes(read.data) {
      ReplyIsDelivered(w, read.data);
    } else if read.Bytes? && ErrorBytes(read.data) {
      ErrorIsDelivered(w, read.data);
    }
  }

  /** Some read of the run says it. */
  ghost predicate Heard(outcome: Outcome, steps: seq<Step>) {
    exists step | step in steps :: step.ReadOne? && Says(step.read, outcome)
  }

  lemma HeardStays(outcome: Outcome, steps: seq<Step>, step: Step)
    requires Heard(outcome, steps)
    ensures Heard(outcome, steps + [step])
  {
    var earlier :| earlier in steps && earlier.ReadOne? && Says(earlier.read, outcome);
    assert earlier in steps + [step];
  }

  predicate GaveUp(c: Caller, why: Reason) {
    c.pc == Withdrawing(why) || c.pc == Returned(Gave(why))
  }

  /** The reason why a call gave up is what happened to it. */
  ghost predicate HasReason(c: Caller, o: nat, closed: bool, steps: seq<Step>) {
    && (GaveUp(c, Expired) ==> Expire(o) in steps)
    && (GaveUp(c, WriteFailed) ==> Write(o, Rejected) in steps)
    && (GaveUp(c, Shutdown) ==> closed)
  }

  ghost predicate CallerHeard(c: Caller, o: nat, held: Option<Outcome>, closed: bool, steps: seq<Step>) {
    && (held.Some? ==> Heard(held.value, steps))
    && (c.channel != [] ==> Heard(c.channel[0], steps))
    && (c.pc.Returned? && c.pc.end.Got? ==> Heard(c.pc.end.outcome, steps))
    && HasReason(c, o, closed, steps)
  }

  ghost predicate CauseHeard(terminal: Option<Cause>, steps: seq<Step>) {
    terminal.Some? ==>
      || (Close in steps && terminal.value == ClosedByCaller)
      || (terminal.value == WriteError && exists o :: Write(o, TransportGone) in steps)
      || ReadOne(Failed(terminal.value)) in steps
  }

  ghost predicate SourceInv(s: State, steps: seq<Step>) {
    && (forall o | o in s.callers :: CallerHeard(s.callers[o], o, Held(s, o), s.terminal.Some?, steps))
    && CauseHeard(s.terminal, steps)
    && (s.reader.Failing? ==> Heard(ClosedTransport, steps))
  }

  lemma CallerHeardStays(c: Caller, o: nat, held: Option<Outcome>, closed: bool, closed': bool, steps: seq<Step>,
                         step: Step)
    requires CallerHeard(c, o, held, closed, steps) && (closed ==> closed')
    ensures CallerHeard(c, o, held, closed', steps + [step])
  {
    if held.Some? { HeardStays(held.value, steps, step); }
    if c.channel != [] { HeardStays(c.channel[0], steps, step); }
    if c.pc.Returned? && c.pc.end.Got? { HeardStays(c.pc.end.outcome, steps, step); }
  }

  lemma CauseHeardStays(s: State, steps: seq<Step>, step: Step)
    requires CauseHeard(s.terminal, steps) && Enabled(s, step)
    ensures CauseHeard(Next(s, step).terminal, steps + [step])
    ensures s.terminal.Some? ==> Next(s, step).terminal == s.terminal
  {
    assert step in steps + [step];
    if s.terminal.Some? && s.terminal.value == WriteError && exists o :: Write(o, TransportGone) in steps {
      var o :| Write(o, TransportGone) in steps;
      assert Write(o, TransportGone) in steps + [step];
    }
    if step.Write? && step.result.TransportGone? { assert Write(step.o, TransportGone) in steps + [step]; }
  }

  /** What the reader hands out in one step is what it has just read, or heard before. */
  lemma HeldIsHeard(s: State, steps: seq<Step>, step: Step, o: nat)
    requires TableInv(s) && SourceInv(s, steps) && Enabled(s, step) && o in s.callers
    ensures Held(Next(s, step), o).Some? ==> Heard(Held(Next(s, step), o).value, steps + [step])
  {
    var s' := Next(s, step);
    if Held(s', o).Some? {
      if step.ReadOne? {
        ServeSays(s.waiting, step.read);
        assert step in steps + [step];
      } else if step.FailRest? {
        HeardStays(ClosedTransport, steps, step);
      } else {
        assert CallerHeard(s.callers[o], o, Held(s, o), s.terminal.Some?, steps);
        assert Held(s', o) == Held(s, o);
        HeardStays(Held(s, o).value, steps, step);
      }
    }
  }

  /** What a call has heard after one of its own steps, from what it had before. */
  lemma OwnHearing(c: Caller, c': Caller, o: nat, held: Option<Outcome>, closed: bool, closed': bool,
                   steps: seq<Step>, step: Step)
    requires CallerHeard(c, o, held, closed, steps) && (closed ==> closed')
    requires c'.channel == [] || c'.channel == c.channel || (held.Some? && c'.channel == [held.value])
    requires c'.pc.Returned? && c'.pc.end.Got? ==>
               c'.pc == c.pc || (c.channel != [] && c'.pc.end.outcome == c.channel[0])
    requires HasReason(c', o, closed', steps + [step])
    ensures CallerHeard(c', o, None, closed', steps + [step])
  {
    CallerHeardStays(c, o, held, closed, closed', steps, step);
  }

  /** Whoever gives up has the reason for it. */
  lemma LocalStepHasReason(s: State, steps: seq<Step>, step: Step)
    requires ControlInv(s) && Local(step) && Enabled(s, step)
    requires HasReason(s.callers[step.o], step.o, s.terminal.Some?, steps)
    ensures HasReason(Next(s, step).callers[step.o], step.o, Next(s, step).terminal.Some?, steps + [step])
  {
    assert step in steps + [step];
  }

  /** A call only returns what is in its channel. */
  lemma LocalStepReceives(s: State, step: Step)
    requires PlaceInv(s) && Local(step) && Enabled(s, step)
    ensures s.terminal.Some? ==> Next(s, step).terminal.Some?
    ensures var c, c' := s.callers[step.o], Next(s, step).callers[step.o];
            && (c'.channel == [] || c'.channel == c.channel)
            && (c'.pc.Returned? && c'.pc.end.Got? ==> c.channel != [] && c'.pc.end.outcome == c.channel[0])
  {
    assert CallerInv(s.callers[step.o], step.o in Orders(s.waiting), Held(s, step.o));
  }

  lemma LocalStepIsHeard(s: State, steps: seq<Step>, step: Step)
    requires Inv(s) && SourceInv(s, steps) && Local(step) && Enabled(s, step)
    ensures CallerHeard(Next(s, step).callers[step.o], step.o, None, Next(s, step).terminal.Some?, steps + [step])
  {
    var c := s.callers[step.o];
    assert CallerHeard(c, step.o, Held(s, step.o), s.terminal.Some?, steps);
    LocalStepReceives(s, step);
    LocalStepHasReason(s, steps, step);
    OwnHearing(c, Next(s, step).callers[step.o], step.o, Held(s, step.o), s.terminal.Some?,
               Next(s, step).terminal.Some?, steps, step);
  }

  lemma WithdrawIsHeard(s: State, steps: seq<Step>, o: nat)
    requires SourceInv(s, steps) && Enabled(s, Withdraw(o))
    ensures Next(s, Withdraw(o)).terminal == s.terminal
    ensures CallerHeard(Next(s, Withdraw(o)).callers[o], o, None, s.terminal.Some?, steps + [Withdraw(o)])
  {
    var c, c' := s.callers[o], Next(s, Withdraw(o)).callers[o];
    assert CallerHeard(c, o, Held(s, o), s.terminal.Some?, steps);
    assert forall why :: GaveUp(c', why) ==> GaveUp(c, why);
    OwnHearing(c, c', o, Held(s, o), s.terminal.Some?, s.terminal.Some?, steps, Withdraw(o));
  }

  lemma DeliverIsHeard(s: State, steps: seq<Step>, o: nat)
    requires SourceInv(s, steps) && Enabled(s, Deliver(o))
    ensures Next(s, Deliver(o)).terminal == s.terminal
    ensures CallerHeard(Next(s, Deliver(o)).callers[o], o, None, s.terminal.Some?, steps + [Deliver(o)])
  {
    var c := s.callers[o];
    assert CallerHeard(c, o, Held(s, o), s.terminal.Some?, steps);
    OwnHearing(c, Next(s, Deliver(o)).callers[o], o, Held(s, o), s.terminal.Some?, s.terminal.Some?, steps, Deliver(o));
  }

  predicate OwnStep(step: Step, o: nat) {
    (Local(step) || step.Withdraw? || step.Deliver?) && step.o == o
  }

  lemma OthersUnchanged(s: State, step: Step, o: nat)
    requires Enabled(s, step) && o in s.callers && o <= s.next && !OwnStep(step, o)
    ensures o in Next(s, step).callers && Next(s, step).callers[o] == s.callers[o]
  {
  }

  lemma OthersStayHeard(s: State, steps: seq<Step>, step: Step, o: nat)
    requires TableInv(s) && SourceInv(s, steps) && Enabled(s, step) && o in s.callers && !OwnStep(step, o)
    ensures o in Next(s, step).callers
    ensures CallerHeard(Next(s, step).callers[o], o, None, Next(s, step).terminal.Some?, steps + [step])
  {
    CauseHeardStays(s, steps, step);
    OthersUnchanged(s, step, o);
    assert CallerHeard(s.callers[o], o, Held(s, o), s.terminal.Some?, steps);
    CallerHeardStays(s.callers[o], o, Held(s, o), s.terminal.Some?, Next(s, step).terminal.Some?, steps, step);
  }

  lemma CallerStaysHeard(s: State, steps: seq<Step>, step: Step, o: nat)
    requires Inv(s) && SourceInv(s, steps) && Enabled(s, step) && o in s.callers
    ensures o in Next(s, step).callers
    ensures CallerHeard(Next(s, step).callers[o], o, None, Next(s, step).terminal.Some?, steps + [step])
  {
    if !OwnStep(step, o) {
      OthersStayHeard(s, steps, step, o);
    } else if Local(step) {
      LocalStepIsHeard(s, steps, step);
    } else if step.Withdraw? {
      WithdrawIsHeard(s, steps, o);
    } else {
      DeliverIsHeard(s, steps, o);
    }
  }

  lemma NewCallerHeard(s: State, steps: seq<Step>, step: Step, o: nat)
    requires TableInv(s) && ControlInv(s) && Enabled(s, step) && o !in s.callers && o in Next(s, step).callers
    ensures CallerHeard(Next(s, step).callers[o], o, Held(Next(s, step), o), s.terminal.Some?, steps + [step])
  {
  }

  lemma StepKeepsSources(s: State, steps: seq<Step>, step: Step)
    requires Inv(s) && SourceInv(s, steps) && Enabled(s, step)
    ensures SourceInv(Next(s, step), steps + [step])
  {
    var s' := Next(s, step);
    CauseHeardStays(s, steps, step);
    forall o | o in s'.callers
      ensures CallerHeard(s'.callers[o], o, Held(s', o), s'.terminal.Some?, steps + [step])
    {
      if o in s.callers {
        CallerStaysHeard(s, steps, step, o);
        HeldIsHeard(s, steps, step, o);
      } else {
        NewCallerHeard(s, steps, step, o);
      }
    }
    if s'.reader.Failing? {
      if s.reader.Failing? {
        HeardStays(ClosedTransport, steps, step);
      } else {
        assert step in steps + [step] && Says(step.read, ClosedTransport);
      }
    }
  }

  lemma IdleStepKeepsSources(s: State, steps: seq<Step>, step: Step)
    requires SourceInv(s, steps)
    ensures SourceInv(s, steps + [step])
  {
    forall o | o in s.callers ensures CallerHeard(s.callers[o], o, Held(s, o), s.terminal.Some?, steps + [step]) {
      CallerHeardStays(s.callers[o], o, Held(s, o), s.terminal.Some?, s.terminal.Some?, steps, step);
    }
    if s.terminal.Some? && s.terminal.value == WriteError && exists o :: Write(o, TransportGone) in steps {
      var o :| Write(o, TransportGone) in steps;
      assert Write(o, TransportGone) in steps + [step];
    }
    if s.reader.Failing? { HeardStays(ClosedTransport, steps, step); }
  }

  lemma {:induction false} RunsKeepSources(steps: seq<Step>)
    ensures SourceInv(Exec(INIT, steps), steps)
  {
    if steps != [] {
      var earlier, step := steps[..|steps| - 1], steps[|steps| - 1];
      RunsKeepSources(earlier);
      RunsAreSafe(earlier);
      assert steps == earlier + [step];
      if Enabled(Exec(INIT, earlier), step) {
        StepKeepsSources(Exec(INIT, earlier), earlier, step);
      } else {
        IdleStepKeepsSources(Exec(INIT, earlier), earlier, step);
      }
    }
  }

  /** Over every run a call returns a reply only as some read brought it, a device error only as some
      error report stated it, a malformed response only after a garbled read, and a closed transport
      only after a failed one; it gives up only when its time is over, its write is rejected or the
      session is closed, and the cause of that is the one that happened. */
  lemma EveryEndIsExplained(steps: seq<Step>, o: nat)
    ensures var s := Exec(INIT, steps);
            && (s.terminal.Some? ==>
                  || (Close in steps && s.terminal.value == ClosedByCaller)
                  || (s.terminal.value == WriteError && exists p :: Write(p, TransportGone) in steps)
                  || ReadOne(Failed(s.terminal.value)) in steps)
            && (o in s.callers && s.callers[o].pc.Returned? ==>
                  match s.callers[o].pc.end
                  case Got(outcome) => exists read :: ReadOne(read) in steps && Says(read, outcome)
                  case Gave(why) =>
                    && (why == Expired ==> Expire(o) in steps)
                    && (why == WriteFailed ==> Write(o, Rejected) in steps)
                    && (why == Shutdown ==> s.terminal.Some?))
  {
    RunsKeepSources(steps);
    var s := Exec(INIT, steps);
    if o in s.callers && s.callers[o].pc.Returned? {
      assert CallerHeard(s.callers[o], o, Held(s, o), s.terminal.Some?, steps);
      if s.callers[o].pc.end.Got? {
        var step :| step in steps && step.ReadOne? && Says(step.read, s.callers[o].pc.end.outcome);
        assert ReadOne(step.read) in steps;
      } else {
        assert GaveUp(s.callers[o], s.callers[o].pc.end.why);
      }
    }
  }

  /** Closing the session, a failed read and a write that finds the transport gone each end it, and a
      failed read makes the reader leave. */
  lemma SessionEnds(steps: seq<Step>, o: nat, cause: Cause)
    ensures var s := Exec(INIT, steps);
            && Next(s, Close).terminal.Some?
            && (s.reader.Reading? ==> Next(s, ReadOne(Failed(cause))).terminal.Some?
                                      && Next(s, ReadOne(Failed(cause))).reader.Failing?)
            && (At(s, o, Writing) ==> Next(s, Write(o, TransportGone)).terminal.Some?)
  {
  }

  /** The check before the write lets a call write exactly on an open session. */
  lemma ClosedSessionsAreNotWritten(steps: seq<Step>, o: nat)
    requires At(Exec(INIT, steps), o, Gated)
    ensures var s := Exec(INIT, steps);
            var s' := Next(s, CheckClosed(o));
            if s.terminal.Some? then At(s', o, Withdrawing(Shutdown)) && s'.gate == None
            else At(s', o, Writing) && s'.gate == Some(o)
  {
    RunsAreSafe(steps);
    GatedHolds(Exec(INIT, steps), o);
  }

  lemma GatedHolds(s: State, o: nat)
    requires ControlInv(s) && At(s, o, Gated)
    ensures s.gate == Some(o)
  {
    assert Holds(s.callers[o]);
  }

  // ---- What becomes of a result ----

  /** The outcome is on its way to the call, in its channel, or returned by it. */
  predicate Has(s: State, o: nat, x: Outcome) {
    && o in s.callers
    && (Held(s, o) == Some(x) || s.callers[o].channel == [x] || s.callers[o].pc == Returned(Got(x)))
  }

  lemma StepKeepsResult(s: State, step: Step, o: nat, x: Outcome)
    requires Inv(s) && Enabled(s, step) && Has(s, o, x)
    ensures Has(Next(s, step), o, x)
  {
    assert CallerInv(s.callers[o], o in Orders(s.waiting), Held(s, o));
    if OwnStep(step, o) {
      OwnStepKeepsResult(s, step, o, x);
    } else {
      OthersUnchanged(s, step, o);
      if Held(s, o) == Some(x) { HeldStays(s, step, o); }
    }
  }

  lemma OwnStepKeepsResult(s: State, step: Step, o: nat, x: Outcome)
    requires Enabled(s, step) && OwnStep(step, o) && Has(s, o, x)
    requires CallerInv(s.callers[o], o in Orders(s.waiting), Held(s, o))
    ensures Has(Next(s, step), o, x)
  {
  }

  lemma HeldStays(s: State, step: Step, o: nat)
    requires Enabled(s, step) && !OwnStep(step, o) && Held(s, o).Some?
    ensures Held(Next(s, step), o) == Held(s, o)
  {
  }

  lemma {:induction false} RunKeepsResult(s: State, steps: seq<Step>, o: nat, x: Outcome)
    requires Inv(s) && Has(s, o, x)
    ensures Has(Exec(s, steps), o, x)
  {
    if steps != [] {
      var earlier, step := steps[..|steps| - 1], steps[|steps| - 1];
      RunKeepsResult(s, earlier, o, x);
      ExecKeepsInv(s, earlier);
      if Enabled(Exec(s, earlier), step) { StepKeepsResult(Exec(s, earlier), step, o, x); }
    }
  }

  lemma HasIsReturned(s: State, o: nat, x: Outcome)
    requires Inv(s) && Has(s, o, x)
    ensures s.callers[o].pc.Returned? && s.callers[o].pc.end.Got? ==> s.callers[o].pc.end.outcome == x
  {
    assert CallerInv(s.callers[o], o in Orders(s.waiting), Held(s, o));
  }

  /** When the reader reads a reply, the oldest call on the key in its bytes 1 to 3 is the one that
      returns it: whatever happens afterwards, a result that this call returns is the reply as it was
      decoded. */
  lemma ReplyIsReturned(steps: seq<Step>, data: seq<byte>, o: nat, more: seq<Step>)
    requires ReplyBytes(data)
    requires var s, k := Exec(INIT, steps), Key(data[1], data[2], data[3]);
             s.reader.Reading? && First(s.waiting, Entry(o, k))
    ensures Decode(data).Ok?
    ensures var s' := Exec(Next(Exec(INIT, steps), ReadOne(Bytes(data))), more);
            && o in s'.callers && o !in Orders(s'.waiting)
            && (s'.callers[o].pc.Returned? && s'.callers[o].pc.end.Got? ==>
                  s'.callers[o].pc.end.outcome == Reply(Decode(data).value))
  {
    var s := Exec(INIT, steps);
    RunsAreSafe(steps);
    ReplyIsDelivered(s.waiting, data);
    var s1 := Next(s, ReadOne(Bytes(data)));
    var x := Reply(Decode(data).value);
    StepKeepsInv(s, ReadOne(Bytes(data)));
    assert o in Serve(s.waiting, Bytes(data)).1 by {
      assert Entry(o, Key(data[1], data[2], data[3])) in s.waiting;
    }
    RunKeepsResult(s1, more, o, x);
    ExecKeepsInv(s1, more);
    HasIsReturned(Exec(s1, more), o, x);
    ResultHasLeft(Exec(s1, more), o, x);
  }

  lemma ResultHasLeft(s: State, o: nat, x: Outcome)
    requires Inv(s) && Has(s, o, x)
    ensures o !in Orders(s.waiting)
  {
    assert CallerInv(s.callers[o], o in Orders(s.waiting), Held(s, o));
  }

  /** A call that waits for the gate or for its result can give up at any time, by two steps of its own,
      and leaves every other call and transaction as it is. */
  lemma TimeoutFreesCaller(steps: seq<Step>, o: nat)
    requires At(Exec(INIT, steps), o, Queued) || At(Exec(INIT, steps), o, Waiting)
    ensures var s := Exec(INIT, steps);
            var s' := Exec(s, [Expire(o), Withdraw(o)]);
            && At(s', o, Returned(Gave(Expired)))
            && s'.callers == s.callers[o := s'.callers[o]]
            && forall e :: e in s'.waiting <==> e in s.waiting && e.order != o
  {
    var s := Exec(INIT, steps);
    ExecTwo(s, Expire(o), Withdraw(o));
    DropMembers(s.waiting, o);
  }

  // ---- The undisturbed exchange ----

  predicate Idle(s: State) {
    s.gate.None? && s.reader.Reading? && s.terminal.None?
  }

  /** The steps of one exchange: its request is written and its reply arrives. */
  function ExchangeOf(o: nat, k: Key, data: seq<byte>): seq<Step> {
    [Begin(k), Acquire(o), CheckClosed(o), Write(o, Written), ReadOne(Bytes(data)), Deliver(o), Finish, Receive(o)]
  }

  /** On an open, idle session a call on a free key needs nothing else than that its request is written
      and its reply arrives: it returns the reply, and everything else is as before. */
  lemma UndisturbedExchange(steps: seq<Step>, data: seq<byte>)
    requires ReplyBytes(data) && Idle(Exec(INIT, steps))
    requires forall e | e in Exec(INIT, steps).waiting :: e.key != Key(data[1], data[2], data[3])
    ensures Decode(data).Ok?
    ensures var s := Exec(INIT, steps);
            var o := s.next + 1;
            var s' := Exec(s, ExchangeOf(o, Key(data[1], data[2], data[3]), data));
            && At(s', o, Returned(Got(Reply(Decode(data).value))))
            && s'.waiting == s.waiting && Idle(s')
            && forall p | p in s.callers :: p in s'.callers && s'.callers[p] == s.callers[p]
  {
    RunsAreSafe(steps);
    RouteOfBytes(data);
    var s' := ExchangeReturns(Exec(INIT, steps), Key(data[1], data[2], data[3]), data, Reply(Decode(data).value));
  }

  lemma ExchangeReturns(s: State, k: Key, data: seq<byte>, x: Outcome) returns (s': State)
    requires TableInv(s) && Idle(s) && forall e | e in s.waiting :: e.key != k
    requires ReplyBytes(data) && k == Key(data[1], data[2], data[3])
    requires Decode(data).Ok? && x == Reply(Decode(data).value)
    ensures s' == Exec(s, ExchangeOf(s.next + 1, k, data)) && At(s', s.next + 1, Returned(Got(x)))
    ensures s'.waiting == s.waiting && Idle(s')
    ensures forall p | p in s.callers :: p in s'.callers && s'.callers[p] == s.callers[p]
  {
    var o := s.next + 1;
    FreshOrder(s);
    var written := Requested(s, k);
    NewIsOldest(s.waiting, Entry(o, k));
    DropLast(s.waiting, Entry(o, k));
    var answered := Answer(written, o, k, data, x);
    s' := Returns(answered, o, x);
    ExchangeInParts(s, o, k, data);
  }

  lemma ExchangeInParts(s: State, o: nat, k: Key, data: seq<byte>)
    ensures var written := Exec(s, [Begin(k), Acquire(o), CheckClosed(o), Write(o, Written)]);
            Exec(s, ExchangeOf(o, k, data))
            == Exec(Exec(written, [ReadOne(Bytes(data))]), [Deliver(o), Finish, Receive(o)])
  {
    var first, read, last := [Begin(k), Acquire(o), CheckClosed(o), Write(o, Written)], [ReadOne(Bytes(data))],
        [Deliver(o), Finish, Receive(o)];
    ExecConcat(s, first, read + last);
    ExecConcat(Exec(s, first), read, last);
    assert ExchangeOf(o, k, data) == first + (read + last);
  }

  lemma FreshOrder(s: State)
    requires TableInv(s)
    ensures s.next + 1 !in s.callers && s.next + 1 !in Orders(s.waiting)
  {
  }

  lemma {:induction false} NewIsOldest(w: seq<Entry>, e: Entry)
    requires forall f | f in w :: f.key != e.key
    ensures Oldest(w + [e], e.key) == Some(e)
  {
    if w != [] {
      assert (w + [e])[1..] == w[1..] + [e];
      assert w[0] in w;
      NewIsOldest(w[1..], e);
    }
  }

  lemma {:induction false} ExecConcat(s: State, a: seq<Step>, b: seq<Step>)
    ensures Exec(s, a + b) == Exec(Exec(s, a), b)
  {
    if b == [] {
      assert a + b == a;
    } else {
      assert (a + b)[..|a + b| - 1] == a + b[..|b| - 1];
      ExecConcat(s, a, b[..|b| - 1]);
    }
  }

  lemma ExecOne(s: State, step: Step)
    requires Enabled(s, step)
    ensures Exec(s, [step]) == Next(s, step)
  {
    assert [step][..0] == [];
  }

  lemma ExecTwo(s: State, a: Step, b: Step)
    requires Enabled(s, a) && Enabled(Next(s, a), b)
    ensures Exec(s, [a, b]) == Next(Next(s, a), b)
  {
    ExecOne(s, a);
    ExecOne(Next(s, a), b);
    ExecConcat(s, [a], [b]);
    assert [a, b] == [a] + [b];
  }

  lemma Requested(s: State, k: Key) returns (s': State)
    requires TableInv(s) && s.gate.None? && s.terminal.None?
    ensures s' == Exec(s, [Begin(k), Acquire(s.next + 1), CheckClosed(s.next + 1), Write(s.next + 1, Written)])
    ensures s' == s.(next := s.next + 1, waiting := s.waiting + [Entry(s.next + 1, k)],
                     callers := s.callers[s.next + 1 := Caller(k, Waiting, [], 0)])
  {
    var o := s.next + 1;
    var s2 := Next(Next(s, Begin(k)), Acquire(o));
    s' := Next(Next(s2, CheckClosed(o)), Write(o, Written));
    ExecTwo(s, Begin(k), Acquire(o));
    ExecTwo(s2, CheckClosed(o), Write(o, Written));
    ExecConcat(s, [Begin(k), Acquire(o)], [CheckClosed(o), Write(o, Written)]);
    assert [Begin(k), Acquire(o), CheckClosed(o), Write(o, Written)]
        == [Begin(k), Acquire(o)] + [CheckClosed(o), Write(o, Written)];
  }

  lemma Answer(s: State, o: nat, k: Key, data: seq<byte>, x: Outcome) returns (s': State)
    requires s.reader.Reading? && ReplyBytes(data) && Decode(data).Ok? && x == Reply(Decode(data).value)
    requires k == Key(data[1], data[2], data[3]) && Oldest(s.waiting, k) == Some(Entry(o, k))
    ensures s' == Exec(s, [ReadOne(Bytes(data))])
    ensures s' == s.(waiting := Drop(s.waiting, o), reader := Delivering(map[o := x], false), log := s'.log)
  {
    RouteOfBytes(data);
    s' := Next(s, ReadOne(Bytes(data)));
    ExecOne(s, ReadOne(Bytes(data)));
  }

  lemma Returns(s: State, o: nat, x: Outcome) returns (s': State)
    requires s.reader == Delivering(map[o := x], false) && o in s.callers
    requires s.callers[o].pc == Waiting && s.callers[o].channel == []
    ensures s' == Exec(s, [Deliver(o), Finish, Receive(o)])
    ensures At(s', o, Returned(Got(x))) && s' == s.(reader := Reading, callers := s.callers[o := s'.callers[o]])
  {
    var s1 := Next(s, Deliver(o));
    assert map[o := x] - {o} == map[];
    s' := Next(Next(s1, Finish), Receive(o));
    ExecOne(s, Deliver(o));
    ExecTwo(s1, Finish, Receive(o));
    ExecConcat(s, [Deliver(o)], [Finish, Receive(o)]);
    assert [Deliver(o), Finish, Receive(o)] == [Deliver(o)] + [Finish, Receive(o)];
  }

  lemma DropLast(w: seq<Entry>, e: Entry)
    requires e.order !in Orders(w)
    ensures Drop(w + [e], e.order) == w
  {
    DropAbsent(w, e.order);
    DropSnoc(w, e);
  }

  lemma {:induction false} DropSnoc(w: seq<Entry>, e: Entry)
    ensures Drop(w + [e], e.order) == Drop(w, e.order)
  {
    if w != [] {
      assert (w + [e])[1..] == w[1..] + [e];
      DropSnoc(w[1..], e);
    }
  }
}
