/** The child session's feature cache and protocol validation (internal/hidpp/feature.go), and the
    search for the first supported feature (internal/mxmaster/features.go `lookupAny`). */
module FeatureCache {
  import opened Common

  datatype Info = Info(id: word, index: byte, typ: byte, version: byte)

  datatype Error = Unsupported | Malformed | CallFailed | ClosedSession | Protocol(code: byte)

  datatype Version = Version(major: byte, minor: byte)

  const ROOT: word := 0
  const ROOT_INFO := Info(ROOT, 0, 0, 0)
  const PING: byte := 0x5a

  /** What the parameters of a lookup reply say about a feature; index zero means not present. */
  function Answer(id: word, parameters: seq<byte>): Result<Info, Error> {
    if |parameters| < 1 then Err(Malformed)
    else if parameters[0] == 0 then Err(Unsupported)
    else Ok(Info(id, parameters[0], if |parameters| > 1 then parameters[1] else 0,
                 if |parameters| > 2 then parameters[2] else 0))
  }

  /** An unlisted feature is answered with index zero. */
  function ReplyOf(replies: map<word, seq<byte>>, id: word): seq<byte> {
    if id in replies then replies[id] else Zeros(16)
  }

  /** What asking a device with these replies would answer; the root is known without asking. */
  function Truth(replies: map<word, seq<byte>>, id: word): Result<Info, Error> {
    if id == ROOT then Ok(ROOT_INFO) else Answer(id, ReplyOf(replies, id))
  }

  // ---- Whole runs ----

  datatype Operation = Lookup(id: word) | Wake(replies: map<word, seq<byte>>) | Shut

  /** What a run amounts to so far: the device's present replies, the features it was asked for with
      success since it last woke, the calls made, and whether the session is closed. */
  datatype Knowledge = Knowledge(replies: map<word, seq<byte>>, asked: seq<word>, calls: nat, closed: bool)

  /** The lookup needs a call to the device. */
  predicate Costs(k: Knowledge, op: Operation) {
    op.Lookup? && !k.closed && op.id != ROOT && op.id !in k.asked
  }

  function Learn(k: Knowledge, op: Operation, answer: Option<Result<Info, Error>>): Knowledge {
    match op
    case Wake(replies) => k.(replies := replies, asked := [])
    case Shut => k.(closed := true)
    case Lookup(id) =>
      if !Costs(k, op) then k
      else k.(asked := if answer.Some? && answer.value.Ok? then k.asked + [id] else k.asked, calls := k.calls + 1)
  }

  /** A lookup is answered with the truth about the present device; only a call can fail. */
  predicate Right(k: Knowledge, op: Operation, answer: Option<Result<Info, Error>>) {
    if !op.Lookup? then answer == None
    else if k.closed then answer == Some(Err(ClosedSession))
    else answer == Some(Truth(k.replies, op.id)) || (Costs(k, op) && answer == Some(Err(CallFailed)))
  }

  /** A run with all that was known before each operation and at the end. */
  ghost predicate Trace(script: seq<Operation>, answers: seq<Option<Result<Info, Error>>>, history: seq<Knowledge>) {
    && |answers| == |script| && |history| == |script| + 1
    && forall i | 0 <= i < |script| :: Right(history[i], script[i], answers[i])
                                       && history[i + 1] == Learn(history[i], script[i], answers[i])
  }

  predicate Distinct(s: seq<word>) {
    forall i, j | 0 <= i < j < |s| :: s[i] != s[j]
  }

  /** In every run a feature is asked for with success at most once between two wakes: what is known
      is the truth about the present device, each feature once. */
  lemma {:induction false} AskedOnce(script: seq<Operation>, answers: seq<Option<Result<Info, Error>>>,
                                     history: seq<Knowledge>, n: nat)
    requires Trace(script, answers, history) && n <= |script| && history[0].asked == []
    ensures Distinct(history[n].asked)
    ensures forall id | id in history[n].asked :: id != ROOT && Truth(history[n].replies, id).Ok?
  {
    if n > 0 {
      AskedOnce(script, answers, history, n - 1);
      assert Right(history[n - 1], script[n - 1], answers[n - 1]);
      assert history[n - 1 + 1] == Learn(history[n - 1], script[n - 1], answers[n - 1]);
    }
  }

  predicate OnlyLookups(script: seq<Operation>, from: nat, to: nat)
    requires to <= |script|
  {
    forall t | from <= t < to :: script[t].Lookup?
  }

  /** Until the device wakes or the session is closed, whatever is looked up meanwhile: a feature once
      found is found again, the same and without a call. */
  lemma {:induction false} FoundStaysFound(script: seq<Operation>, answers: seq<Option<Result<Info, Error>>>,
                                           history: seq<Knowledge>, i: nat, n: nat)
    requires Trace(script, answers, history) && i < n < |script| && OnlyLookups(script, i, n)
    requires script[n] == script[i] && answers[i].Some? && answers[i].value.Ok?
    ensures answers[n] == answers[i] && !Costs(history[n], script[n]) && history[n + 1] == history[n]
  {
    assert Right(history[i], script[i], answers[i]);
    assert history[i + 1] == Learn(history[i], script[i], answers[i]);
    KnownStays(script, answers, history, i + 1, n, script[i].id);
    assert Right(history[n], script[n], answers[n]);
  }

  /** Lookups forget nothing and leave device and session alone. */
  lemma {:induction false} KnownStays(script: seq<Operation>, answers: seq<Option<Result<Info, Error>>>,
                                      history: seq<Knowledge>, i: nat, n: nat, id: word)
    requires Trace(script, answers, history) && i <= n <= |script| && OnlyLookups(script, i, n)
    ensures id in history[i].asked ==> id in history[n].asked
    ensures history[n].replies == history[i].replies && history[n].closed == history[i].closed
  {
    if i < n {
      KnownStays(script, answers, history, i, n - 1, id);
      assert script[n - 1].Lookup? && history[n - 1 + 1] == Learn(history[n - 1], script[n - 1], answers[n - 1]);
    }
  }

  /** A device that woke up is asked again, whatever was known before. */
  lemma WakeAsksAgain(script: seq<Operation>, answers: seq<Option<Result<Info, Error>>>, history: seq<Knowledge>,
                      i: nat)
    requires Trace(script, answers, history) && i + 1 < |script| && script[i].Wake? && script[i + 1].Lookup?
    requires script[i + 1].id != ROOT && !history[i].closed
    ensures Costs(history[i + 1], script[i + 1])
    ensures answers[i + 1] in {Some(Truth(script[i].replies, script[i + 1].id)), Some(Err(CallFailed))}
  {
    assert history[i + 1] == Learn(history[i], script[i], answers[i]);
    assert Right(history[i + 1], script[i + 1], answers[i + 1]);
  }

  lemma TraceStep(script: seq<Operation>, answers: seq<Option<Result<Info, Error>>>, history: seq<Knowledge>,
                  i: nat, answer: Option<Result<Info, Error>>, k: Knowledge)
    requires i < |script| && Trace(script[..i], answers, history)
    requires Right(history[i], script[i], answer) && k == Learn(history[i], script[i], answer)
    ensures Trace(script[..i + 1], answers + [answer], history + [k])
  {
    forall j | 0 <= j < i
      ensures Right(history[j], script[j], answers[j]) && history[j + 1] == Learn(history[j], script[j], answers[j])
    {
      assert script[..i][j] == script[j];
    }
  }

  /** The remote device: its replies are fixed until it restarts; any call may fail. */
  class Link {
    var replies: map<word, seq<byte>>
    ghost var calls: nat

    constructor (replies: map<word, seq<byte>>)
      ensures this.replies == replies && calls == 0
    {
      this.replies, calls := replies, 0;
    }

    method Call(id: word) returns (r: Option<seq<byte>>)
      modifies this`calls
      ensures calls == old(calls) + 1
      ensures r.Some? ==> r.value == ReplyOf(replies, id)
    {
      calls := calls + 1;
      var ok: bool := *;
      r := if ok then Some(ReplyOf(replies, id)) else None;
    }
  }

  /** How a ping comes back: a reply, or no reply at all. */
  datatype Ping = Reply(major: byte, minor: byte, echo: byte) | NoReply(error: Error)

  class DeviceSession {
    const link: Link
    var features: map<word, Info>
    var version: Option<Version>
    var closed: bool

    /** The features the device was asked for with success since the last reset. */
    ghost var asked: seq<word>

    /** What asking the device directly would answer. */
    function Direct(id: word): Result<Info, Error>
      reads this, link
    {
      Truth(link.replies, id)
    }

    /** The cache never holds anything but what the device would answer, and every entry besides
        the root was asked for exactly once. */
    ghost predicate Valid()
      reads this, link
    {
      && ROOT in features
      && (forall id | id in features :: Direct(id) == Ok(features[id]))
      && (forall id :: id in asked <==> id in features && id != ROOT)
      && Distinct(asked)
    }

    ghost function Known(): Knowledge
      reads this, link
    {
      Knowledge(link.replies, asked, link.calls, closed)
    }

    constructor (link: Link)
      ensures Valid() && this.link == link && !closed && version == None && asked == []
    {
      this.link := link;
      features, version, closed, asked := map[ROOT := ROOT_INFO], None, false, [];
    }

    /** Answers as the device would, whether or not the answer was cached; failures are not cached,
        and a cached feature costs no call. */
    method LookupFeature(id: word) returns (r: Result<Info, Error>)
      requires Valid()
      modifies this`features, this`asked, link`calls
      ensures Valid() && link.replies == old(link.replies)
      ensures closed ==> r == Err(ClosedSession)
      ensures !closed ==> r == Direct(id) || (r == Err(CallFailed) && id !in old(features))
      ensures features == if r.Ok? then old(features)[id := r.value] else old(features)
      ensures link.calls == old(link.calls) + if closed || id in old(features) then 0 else 1
      ensures asked == old(asked) + if r.Ok? && id !in old(features) then [id] else []
      ensures !closed && id == 0 ==> r == Ok(Info(0, 0, 0, 0))
      ensures !closed && id != 0 && r != Err(CallFailed) ==>
                var reply := if id in link.replies then link.replies[id] else Zeros(16);
                && (r == Err(Malformed) <==> reply == [])
                && (r == Err(Unsupported) <==> reply != [] && reply[0] == 0)
                && (r.Ok? <==> reply != [] && reply[0] != 0)
                && (r.Ok? ==> r.value.id == id && r.value.index == reply[0]
                              && r.value.typ == (if |reply| >= 2 then reply[1] else 0)
                              && r.value.version == (if |reply| >= 3 then reply[2] else 0))
    {
      if closed { return Err(ClosedSession); }
      if id in features { return Ok(features[id]); }
      var response := link.Call(id);
      if response.None? { return Err(CallFailed); }
      var parameters := response.value;
      if |parameters| < 1 { return Err(Malformed); }
      var index := parameters[0];
      if index == 0 { return Err(Unsupported); }
      var info := Info(id, index, 0, 0);
      if |parameters| > 1 { info := info.(typ := parameters[1]); }
      if |parameters| > 2 { info := info.(version := parameters[2]); }
      features := features[id := info];
      asked := asked + [id];
      return Ok(info);
    }

    /** A device that woke up may answer differently from now on. */
    method Reset(restarted: map<word, seq<byte>>)
      requires Valid()
      modifies this`features, this`version, this`asked, link`replies
      ensures Valid() && features == map[ROOT := ROOT_INFO] && version == None && asked == []
      ensures link.replies == restarted
    {
      link.replies := restarted;
      version := None;
      features, asked := map[ROOT := ROOT_INFO], [];
    }

    /** The session refuses every call from now on; the shared transport stays open. */
    method Close()
      requires Valid()
      modifies this`closed
      ensures Valid() && closed
    {
      if closed { return; }
      closed := true;
    }

    /** Any run of lookups, wakes of the device and the closing of the session. */
    method Run(script: seq<Operation>)
      returns (answers: seq<Option<Result<Info, Error>>>, ghost history: seq<Knowledge>)
      requires Valid()
      modifies this`features, this`version, this`asked, this`closed, link
      ensures Valid() && Trace(script, answers, history)
      ensures history[0] == old(Known()) && history[|script|] == Known()
    {
      answers, history := [], [Known()];
      for i := 0 to |script|
        invariant Valid() && Trace(script[..i], answers, history)
        invariant history[0] == old(Known()) && history[i] == Known()
      {
        var answer := RunOne(script[i]);
        TraceStep(script, answers, history, i, answer, Known());
        answers, history := answers + [answer], history + [Known()];
      }
      assert script[..|script|] == script;
    }

    method RunOne(op: Operation) returns (answer: Option<Result<Info, Error>>)
      requires Valid()
      modifies this`features, this`version, this`asked, this`closed, link
      ensures Valid() && Right(old(Known()), op, answer) && Known() == Learn(old(Known()), op, answer)
    {
      answer := None;
      match op
      case Lookup(id) =>
        var r := LookupFeature(id);
        answer := Some(r);
      case Wake(replies) => Reset(replies);
      case Shut => Close();
    }

    /** The first feature of the list that the device has. Unsupported features are skipped, any
        other failure ends the search. */
    method LookupAny(ids: seq<word>) returns (r: Result<(Info, word), Error>)
      requires Valid()
      modifies this`features, this`asked, link`calls
      ensures Valid() && link.replies == old(link.replies)
      ensures r.Ok? ==>
                && Direct(r.value.1) == Ok(r.value.0)
                && exists k :: 0 <= k < |ids| && ids[k] == r.value.1
                               && forall j | 0 <= j < k :: Direct(ids[j]) == Err(Unsupported)
      ensures r == Err(Unsupported) ==> forall j | 0 <= j < |ids| :: Direct(ids[j]) == Err(Unsupported)
      ensures r.Err? && !closed && r.error != Unsupported ==>
                exists k :: 0 <= k < |ids| && (r.error == CallFailed || Direct(ids[k]) == Err(r.error))
                            && forall j | 0 <= j < k :: Direct(ids[j]) == Err(Unsupported)
    {
      for k := 0 to |ids|
        invariant Valid() && link.replies == old(link.replies)
        invariant closed ==> k == 0
        invariant forall j | 0 <= j < k :: Direct(ids[j]) == Err(Unsupported)
      {
        var found := LookupFeature(ids[k]);
        match found
        case Ok(info) => return Ok((info, ids[k]));
        case Err(e) => if e != Unsupported { return Err(e); }
      }
      return Err(Unsupported);
    }

    /** Pings and checks the protocol: the version is recorded whenever the echo is right, but only
        HID++ 2.0 and later is accepted. */
    method Validate(ping: Ping) returns (r: Result<Version, Error>)
      requires Valid()
      modifies this`version
      ensures Valid()
      ensures r.Ok? <==> !closed && ping.Reply? && ping.echo == 0x5a && ping.major >= 2
      ensures r.Ok? ==> r.value == Version(ping.major, ping.minor) && version == Some(r.value)
      ensures version == if !closed && ping.Reply? && ping.echo == 0x5a
                         then Some(Version(ping.major, ping.minor)) else old(version)
      ensures !closed && ping.Reply? && ping.echo == 0x5a && ping.major < 2 ==> r == Err(Unsupported)
      ensures !closed && ping.Reply? && ping.echo != 0x5a ==>
                r == Err(if ping.echo == 1 then Unsupported else Protocol(ping.echo))
      ensures !closed && ping.NoReply? ==>
                r == Err(if ping.error == Protocol(1) then Unsupported else ping.error)
    {
      if closed { return Err(ClosedSession); }
      var error: Option<Error> := None;
      match ping {
        case NoReply(e) => error := Some(e);
        case Reply(major, minor, echo) =>
          if echo != PING {
            error := Some(Protocol(echo));
          } else {
            version := Some(Version(major, minor));
          }
      }
      if error.Some? {
        return Err(if error.value == Protocol(1) then Unsupported else error.value);
      }
      if version.value.major < 2 { return Err(Unsupported); }
      return Ok(version.value);
    }
  }
}
