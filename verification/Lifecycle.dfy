/** The receiver's worker and its wireless children (internal/receiver/lifecycle.go). One worker
    consumes device notifications and queued initialisations; every operation below is one step of
    that worker, and the class invariant therefore holds over all of its runs. */
module Lifecycle {
  import opened Common

  const SLOTS: byte := 6
  const QUEUE_CAPACITY := 32

  datatype ChildState = Added | Ready | Sleeping | Removed

  datatype EventKind = ChildAdded | ChildReady | ChildSleeping | ChildWoken | ChildRemoved

  datatype Version = Version(major: byte, minor: byte)

  /** A parsed connection or unpairing notification; parsing only yields slots 1 to 6. */
  datatype DeviceEvent = DeviceEvent(slot: byte, paired: bool, connected: bool, sleeping: bool, pid: word,
                                     deviceType: byte)

  predicate Parsed(e: DeviceEvent) {
    1 <= e.slot <= SLOTS
  }

  predicate Asleep(e: DeviceEvent) {
    e.sleeping || !e.connected
  }

  /** The transitions that a notification announces to the owner. */
  function Announced(before: ChildState, asleep: bool): seq<EventKind> {
    if before == Sleeping then (if asleep then [] else [ChildWoken])
    else if asleep then [ChildSleeping] else []
  }

  /** What the root protocol ping comes back with. */
  datatype Ping = Answered(version: Version) | LinkDown | Rejected

  /** A handle is announced first and once, and removal is its last word. */
  predicate LegalStream(s: seq<EventKind>) {
    && s != [] && s[0] == ChildAdded
    && (forall i | 0 < i < |s| :: s[i] != ChildAdded)
    && (forall i | 0 <= i < |s| - 1 :: s[i] != ChildRemoved)
  }

  datatype Work = Notify(event: DeviceEvent) | Validate(ping: Ping)

  /** A connection after which the worker queues a handle for itself. */
  predicate Queues(w: Work) {
    w.Notify? && w.event.paired && !Asleep(w.event)
  }

  /** How many of the first k pieces of work queue a handle. */
  function Connections(script: seq<Work>, k: nat): nat
    requires k <= |script|
  {
    if k == 0 then 0 else Connections(script, k - 1) + if Queues(script[k - 1]) then 1 else 0
  }

  /** How many handles would wait after k pieces of work if the queue had no limit. */
  function Waiting(script: seq<Work>, before: nat, k: nat): nat
    requires k <= |script|
  {
    if k == 0 then before else WaitingAfter(script[k - 1], Waiting(script, before, k - 1))
  }

  function WaitingAfter(w: Work, waiting: nat): nat {
    if Queues(w) then waiting + 1 else if w.Validate? && waiting > 0 then waiting - 1 else waiting
  }

  /** No more handles wait than connections were seen, and as many when nothing is validated meanwhile. */
  lemma {:induction false} ConnectionsWait(script: seq<Work>, before: nat, k: nat)
    requires k <= |script|
    ensures Waiting(script, before, k) <= before + Connections(script, k)
    ensures (forall w | w in script :: w.Notify?) ==> Waiting(script, before, k) == before + Connections(script, k)
  {
    if k > 0 {
      assert script[k - 1] in script;
      ConnectionsWait(script, before, k - 1);
    }
  }

  /** The handle of one wireless device. */
  class Child {
    const index: byte
    var state: ChildState
    var pid: word
    var deviceType: byte
    var name: string
    var protocol: Option<Version>
    var clientOpen: bool

    /** Keeps a second initialisation out while one is under way. Only the worker initialises, and
        it does not re-enter, so the flag is down between its steps. */
    var initing: bool

    /** The events sent about this handle so far. */
    ghost var stream: seq<EventKind>

    /** A new handle; its owner announces it in the same step. */
    constructor (index: byte, pid: word, deviceType: byte, name: string)
      ensures this.index == index && state == Added && clientOpen && !initing && protocol == None && stream == []
      ensures this.pid == pid && this.deviceType == deviceType && this.name == name
    {
      this.index, this.pid, this.deviceType, this.name := index, pid, deviceType, name;
      state, protocol, clientOpen, initing, stream := Added, None, true, false, [];
    }

    ghost predicate Valid()
      reads this
    {
      && 1 <= index <= SLOTS
      && !initing
      && (clientOpen <==> state != Removed)
      && (state == Ready ==> protocol.Some? && protocol.value.major >= 2)
      && LegalStream(stream)
      && (ChildRemoved in stream ==> state == Removed)
    }

    /** What every step of the worker keeps: known metadata stays known, events are only added,
        and after removal nothing changes any more. */
    twostate predicate Kept()
      reads this
    {
      && (old(pid) != 0 ==> pid != 0)
      && (old(deviceType) != 0 ==> deviceType != 0)
      && (old(name) != "" ==> name != "")
      && (old(protocol).Some? ==> protocol.Some?)
      && old(stream) <= stream
      && (old(state) == Removed ==>
            state == Removed && !clientOpen && protocol == old(protocol) && stream == old(stream))
    }

    ghost method Announce()
      requires 1 <= index <= SLOTS && !initing && clientOpen && state == Added && stream == []
      modifies this`stream
      ensures Valid() && stream == [ChildAdded]
    {
      stream := [ChildAdded];
    }

    /** Only known values overwrite. */
    method Complete(pid: word, deviceType: byte, name: string)
      requires Valid()
      modifies this`pid, this`deviceType, this`name
      ensures Valid() && Kept()
      ensures this.pid == (if pid != 0 then pid else old(this.pid))
      ensures this.deviceType == (if deviceType != 0 then deviceType else old(this.deviceType))
      ensures this.name == (if name != "" then name else old(this.name))
    {
      if pid != 0 { this.pid := pid; }
      if deviceType != 0 { this.deviceType := deviceType; }
      if name != "" { this.name := name; }
    }

    method Sleep()
      requires Valid()
      modifies this`state, this`stream
      ensures Valid() && Kept()
      ensures state == if old(state) == Removed then Removed else Sleeping
      ensures stream == old(stream) + if old(state) in {Removed, Sleeping} then [] else [ChildSleeping]
    {
      if state == Removed || state == Sleeping { return; }
      state := Sleeping;
      stream := stream + [ChildSleeping];
    }

    /** What a notification about a paired device announces: falling asleep, or waking up. */
    method Connect(asleep: bool)
      requires Valid() && state != Removed
      modifies this`state, this`stream
      ensures Valid() && Kept()
      ensures stream == old(stream) + Announced(old(state), asleep)
      ensures state == if asleep then Sleeping else old(state)
    {
      if asleep {
        Sleep();
      } else if state == Sleeping {
        stream := stream + [ChildWoken];
      }
    }

    method Remove()
      requires Valid() && state != Removed
      modifies this`state, this`clientOpen, this`stream
      ensures Valid() && Kept() && state == Removed && stream == old(stream) + [ChildRemoved]
    {
      state := Removed;
      clientOpen := false;
      stream := stream + [ChildRemoved];
    }

    /** Pings the device and records the outcome; a removed handle is left alone. */
    method Initialize(ping: Ping)
      requires Valid()
      modifies this`initing, this`state, this`protocol, this`stream
      ensures Valid() && Kept() && (state == Removed <==> old(state) == Removed)
      ensures var validated := old(state) != Removed && ping.Answered? && ping.version.major >= 2;
              && state == (if validated then Ready
                           else if old(state) != Removed && ping.LinkDown? then Sleeping else old(state))
              && protocol == (if validated then Some(ping.version) else old(protocol))
              && stream == old(stream) + if validated then [ChildReady] else []
    {
      if state == Removed || initing { return; }
      initing := true;
      match ping {
        case LinkDown => state := Sleeping;
        case Rejected =>
        case Answered(version) =>
          if version.major >= 2 {
            protocol := Some(version);
            state := Ready;
            stream := stream + [ChildReady];
          }
      }
      initing := false;
    }
  }

  class ReceiverSession {
    var children: map<byte, Child>
    var queue: seq<Child>

    /** Every handle ever created, removed ones included. */
    ghost var known: set<Child>

    /** The map holds exactly the handles that are not removed, each under its own slot. */
    ghost predicate Valid()
      reads this, known
    {
      && (forall c | c in known :: c.Valid())
      && (forall i | i in children :: children[i] in known && children[i].index == i)
      && (forall c | c in known :: c.state != Removed <==> c.index in children && children[c.index] == c)
      && |queue| <= QUEUE_CAPACITY
      && (forall c | c in queue :: c in known)
    }

    twostate predicate StepKept()
      reads this, known
    {
      old(known) <= known && forall c | c in old(known) :: c.Kept()
    }

    constructor ()
      ensures Valid() && known == {} && queue == [] && children == map[]
    {
      children, queue, known := map[], [], {};
    }

    function At(slot: byte): set<Child>
      reads this
    {
      if slot in children then {children[slot]} else {}
    }

    /** Finds the handle of a slot and completes its metadata, or creates and announces one. */
    method Upsert(slot: byte, pid: word, deviceType: byte, name: string) returns (c: Child, added: bool)
      requires Valid() && 1 <= slot <= SLOTS
      modifies this`children, this`known, At(slot)
      ensures Valid() && StepKept()
      ensures added <==> slot !in old(children)
      ensures children == old(children)[slot := c]
      ensures added ==> fresh(c) && known == old(known) + {c} && c.state == Added && c.stream == [ChildAdded]
                        && c.pid == pid && c.deviceType == deviceType && c.name == name
      ensures !added ==>
                c == old(children)[slot] && known == old(known) && c.state == old(c.state) && c.stream == old(c.stream)
                         && c.pid == (if pid != 0 then pid else old(c.pid))
                         && c.deviceType == (if deviceType != 0 then deviceType else old(c.deviceType))
                         && c.name == (if name != "" then name else old(c.name))
    {
      if slot in children {
        c := children[slot];
        c.Complete(pid, deviceType, name);
        added := false;
      } else {
        c := new Child(slot, pid, deviceType, name);
        children := children[slot := c];
        known := known + {c};
        c.Announce();
        added := true;
      }
    }

    /** The handle of the slot, if there was one, is out of the map and has said its last word. */
    twostate predicate Left(slot: byte)
      reads this, known
    {
      && children == old(children) - {slot}
      && (slot in old(children) ==>
            && old(children)[slot] in known && old(children)[slot].state == Removed
            && old(children)[slot].stream == old(children[slot].stream) + [ChildRemoved])
    }

    method RemoveChild(slot: byte)
      requires Valid()
      modifies this`children, At(slot)
      ensures Valid() && StepKept() && Left(slot)
    {
      if slot !in children { return; }
      var c := children[slot];
      children := children - {slot};
      c.Remove();
    }

    /** The handle of a paired device after a notification: the one of its slot with
        the known metadata completed, or a new one that is announced first. */
    twostate predicate Joined(event: DeviceEvent)
      reads this, children.Values
    {
      && event.slot in children
      && children == old(children)[event.slot := children[event.slot]]
      && var c := children[event.slot];
         if event.slot in old(children) then
           && c == old(children)[event.slot]
           && c.stream == old(children[event.slot].stream) + Announced(old(children[event.slot].state), Asleep(event))
           && c.state == (if Asleep(event) then Sleeping else old(children[event.slot].state))
           && c.pid == (if event.pid != 0 then event.pid else old(children[event.slot].pid))
           && c.deviceType == (if event.deviceType != 0 then event.deviceType else old(children[event.slot].deviceType))
           && c.name == old(children[event.slot].name)
         else
           && c.stream == [ChildAdded] + Announced(Added, Asleep(event))
           && c.state == (if Asleep(event) then Sleeping else Added)
           && c.pid == event.pid && c.deviceType == event.deviceType && c.name == ""
    }

    method Join(event: DeviceEvent) returns (c: Child)
      requires Valid() && Parsed(event)
      modifies this`children, this`known, At(event.slot)
      ensures Valid() && StepKept() && Joined(event) && c == children[event.slot]
      ensures forall k | k in known :: k in old(known) || fresh(k)
    {
      var added;
      c, added := Upsert(event.slot, event.pid, event.deviceType, "");
      ConnectChild(c, Asleep(event));
    }

    method ConnectChild(c: Child, asleep: bool)
      requires Valid() && c in known && c.state != Removed
      modifies c`state, c`stream
      ensures Valid() && c.Kept() && c.state != Removed
      ensures c.stream == old(c.stream) + Announced(old(c.state), asleep)
      ensures c.state == if asleep then Sleeping else old(c.state)
    {
      c.Connect(asleep);
    }

    /** The worker feeds its own bounded queue: with the queue full it would wait for itself, until
        the session is closed. */
    method HandleDeviceEvent(event: DeviceEvent) returns (blocked: bool)
      requires Valid() && Parsed(event)
      modifies this, At(event.slot)
      ensures Valid() && StepKept()
      ensures forall c | c in known :: c in old(known) || fresh(c)
      ensures event.paired ==> Joined(event)
      ensures !event.paired ==> Left(event.slot)
      ensures blocked <==> event.paired && !Asleep(event) && |old(queue)| == QUEUE_CAPACITY
      ensures queue == old(queue) + if event.paired && !Asleep(event) && !blocked then [children[event.slot]] else []
      ensures blocked <==> event.paired && event.connected && !event.sleeping && |old(queue)| == 32
      ensures event.paired && event.slot in old(children) ==>
                var c, was := children[event.slot], old(children[event.slot].state);
                && c == old(children)[event.slot]
                && (event.sleeping || !event.connected ==>
                      c.state == Sleeping
                      && c.stream == old(children[event.slot].stream) + if was == Sleeping then [] else [ChildSleeping])
                && (!event.sleeping && event.connected ==>
                      c.state == was
                      && c.stream == old(children[event.slot].stream) + if was == Sleeping then [ChildWoken] else [])
      ensures event.paired && event.slot !in old(children) ==>
                var c := children[event.slot];
                if event.sleeping || !event.connected then
                  c.state == Sleeping && c.stream == [ChildAdded, ChildSleeping]
                else c.state == Added && c.stream == [ChildAdded]
    {
      blocked := false;
      if event.paired {
        var c := Join(event);
        if !Asleep(event) { blocked := QueueInitialization(c); }
      } else {
        RemoveChild(event.slot);
      }
    }

    method QueueInitialization(c: Child) returns (blocked: bool)
      requires Valid() && c in known
      modifies this`queue
      ensures Valid()
      ensures blocked <==> |old(queue)| == QUEUE_CAPACITY
      ensures queue == old(queue) + if blocked then [] else [c]
    {
      blocked := |queue| >= QUEUE_CAPACITY;
      if !blocked {
        queue := queue + [c];
      }
    }

    /** Validates a queued handle, which may have been removed while it waited. */
    method Initialize(ping: Ping)
      requires Valid() && queue != []
      modifies this`queue, queue[0]
      ensures Valid() && StepKept()
      ensures queue == old(queue)[1..]
      ensures var c := old(queue)[0];
              var validated := old(c.state) != Removed && ping.Answered? && ping.version.major >= 2;
              && c.state == (if validated then Ready
                             else if old(c.state) != Removed && ping.LinkDown? then Sleeping else old(c.state))
              && c.protocol == (if validated then Some(ping.version) else old(c.protocol))
              && c.stream == old(c.stream) + if validated then [ChildReady] else []
    {
      var c := queue[0];
      queue := queue[1..];
      c.Initialize(ping);
    }

    /** A run of the worker: whatever it picks next, until it blocks. It blocks at the first connection
        for which there is no room, and on no other work. */
    method Run(script: seq<Work>) returns (done: nat, blocked: bool)
      requires Valid()
      requires forall w | w in script && w.Notify? :: Parsed(w.event)
      modifies this, known
      ensures Valid() && StepKept() && done <= |script|
      ensures forall k | 0 <= k < done :: Waiting(script, |old(queue)|, k) <= QUEUE_CAPACITY
      ensures blocked ==> Waiting(script, |old(queue)|, done) > QUEUE_CAPACITY == |queue|
      ensures !blocked ==> done == |script| && |queue| == Waiting(script, |old(queue)|, done)
    {
      done, blocked := 0, false;
      while done < |script| && !blocked
        invariant done <= |script| && Valid() && StepKept()
        invariant forall c | c in known :: c in old(known) || fresh(c)
        invariant forall k | 0 <= k < done :: Waiting(script, |old(queue)|, k) <= QUEUE_CAPACITY
        invariant blocked ==> Waiting(script, |old(queue)|, done) > QUEUE_CAPACITY == |queue|
        invariant !blocked ==> |queue| == Waiting(script, |old(queue)|, done)
      {
        blocked := RunStep(script[done]);
        done := done + 1;
      }
    }

    method RunStep(work: Work) returns (blocked: bool)
      requires Valid() && (work.Notify? ==> Parsed(work.event))
      modifies this, known
      ensures Valid() && StepKept()
      ensures forall c | c in known :: c in old(known) || fresh(c)
      ensures blocked <==> Queues(work) && |old(queue)| == QUEUE_CAPACITY
      ensures |queue| == if blocked then |old(queue)| else WaitingAfter(work, |old(queue)|)
    {
      blocked := false;
      match work
      case Notify(event) =>
        blocked := HandleDeviceEvent(event);
      case Validate(ping) =>
        if queue != [] { Initialize(ping); }
    }

    static method Discard(handles: set<Child>)
      modifies handles`state, handles`clientOpen
      ensures forall c | c in handles :: c.state == Removed && !c.clientOpen
    {
      forall c | c in handles { c.state := Removed; }
      forall c | c in handles { c.clientOpen := false; }
    }

    /** Closing the session removes every handle without further events. */
    method Close()
      requires Valid()
      modifies this`children, children.Values
      ensures Valid() && StepKept() && children == map[]
      ensures forall c | c in known :: c.state == Removed && !c.clientOpen && c.stream == old(c.stream)
    {
      var rest := children;
      children := map[];
      Discard(rest.Values);
    }
  }

  /** The same awake device connects again and again before anything is validated: the worker blocks
      at the connection after the queue's last place. */
  method Reconnecting(event: DeviceEvent, times: nat) returns (done: nat, blocked: bool)
    requires Parsed(event) && event.paired && !Asleep(event)
    ensures blocked <==> times > QUEUE_CAPACITY
    ensures done == if blocked then QUEUE_CAPACITY + 1 else times
  {
    var session := new ReceiverSession();
    var script := seq(times, _ => Notify(event));
    done, blocked := session.Run(script);
    AllQueue(script, done);
    if blocked && done > 0 { AllQueue(script, done - 1); }
  }

  lemma {:induction false} AllQueue(script: seq<Work>, k: nat)
    requires k <= |script| && forall w | w in script :: Queues(w)
    ensures Waiting(script, 0, k) == k
  {
    if k > 0 { AllQueue(script, k - 1); }
  }
}
