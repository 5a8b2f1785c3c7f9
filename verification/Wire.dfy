/** HID++ reports on the wire (internal/hidpp/report.go) and the transaction that a parsed report
    belongs to (the case split of internal/hidpp/session.go `dispatch`). */
module Wire {
  import opened Common

  datatype ReportType = Unknown | Short | Long

  datatype Report = Report(typ: ReportType, device: byte, subID: byte, func: byte, software: byte,
                           parameters: seq<byte>)

  datatype ParseError = NotHidpp | WrongLength

  datatype BuildError = BadType | BadFunction | BadSoftwareID | TooManyParameters

  const SHORT_ID: byte := 0x10
  const LONG_ID: byte := 0x11
  const REGISTER_ERROR: byte := 0x8f
  const FEATURE_ERROR: byte := 0xff

  function IdOf(t: ReportType): byte {
    match t
    case Short => SHORT_ID
    case Long => LONG_ID
    case Unknown => 0
  }

  function TypeOf(id: byte): ReportType {
    if id == SHORT_ID then Short else if id == LONG_ID then Long else Unknown
  }

  function Length(t: ReportType): nat {
    match t
    case Short => 7
    case Long => 20
    case Unknown => 0
  }

  function Capacity(t: ReportType): nat {
    match t
    case Short => 3
    case Long => 16
    case Unknown => 0
  }

  type nibble = x: int | 0 <= x < 16

  function Or4(a: nibble, b: nibble): nibble {
    ((a as bv4) | (b as bv4)) as int
  }

  lemma Or4Zero(a: nibble)
    ensures Or4(a, 0) == a
  {
    assert (a as bv4) | (0 as bv4) == a as bv4;
  }

  /** The fourth wire byte: `Function<<4 | SoftwareID` in byte arithmetic, for any two bytes. */
  function CommandByte(r: Report): byte {
    Or4(r.func % 16, r.software / 16) * 16 + r.software % 16
  }

  lemma CommandNibbles(r: Report)
    requires r.func < 16 && r.software < 16
    ensures CommandByte(r) == r.func * 16 + r.software
    ensures CommandByte(r) / 16 == r.func && CommandByte(r) % 16 == r.software
  {
    Or4Zero(r.func % 16);
  }

  function Encode(r: Report): Result<seq<byte>, BuildError> {
    if r.typ.Unknown? then Err(BadType)
    else if r.func > 0x0f then Err(BadFunction)
    else if r.software > 0x0f then Err(BadSoftwareID)
    else if |r.parameters| > Capacity(r.typ) then Err(TooManyParameters)
    else Ok([IdOf(r.typ), r.device, r.subID, CommandByte(r)] + r.parameters
            + Zeros(Capacity(r.typ) - |r.parameters|))
  }

  function Decode(data: seq<byte>): Result<Report, ParseError> {
    if data == [] then Err(NotHidpp)
    else
      var typ := TypeOf(data[0]);
      if typ.Unknown? then Err(NotHidpp)
      else if |data| != Length(typ) then Err(WrongLength)
      else Ok(Report(typ, data[1], data[2], data[3] / 16, data[3] % 16, data[4..]))
  }

  /** The report with its unused parameter bytes written out as zeroes. */
  function Padded(r: Report): Report
    requires |r.parameters| <= Capacity(r.typ)
  {
    r.(parameters := r.parameters + Zeros(Capacity(r.typ) - |r.parameters|))
  }

  /** The format itself: which reports can be built, and every byte of what is built. */
  lemma WireLayout(r: Report)
    ensures Encode(r).Ok? <==> (r.typ.Short? || r.typ.Long?) && r.func < 16 && r.software < 16
                               && |r.parameters| <= if r.typ.Short? then 3 else 16
    ensures Encode(r).Ok? ==>
              var data, n := Encode(r).value, |r.parameters|;
              && |data| == (if r.typ.Short? then 7 else 20)
              && data[..4] == [if r.typ.Short? then 0x10 else 0x11, r.device, r.subID, 16 * r.func + r.software]
              && data[4..4 + n] == r.parameters
              && forall i | 4 + n <= i < |data| :: data[i] == 0
  {
    if Encode(r).Ok? {
      CommandNibbles(r);
      assert Encode(r).value == [IdOf(r.typ), r.device, r.subID, CommandByte(r)]
                                + Padded(r).parameters;
    }
  }

  /** Which bytes are reports, and every field of what is parsed. */
  lemma ParseLayout(data: seq<byte>)
    ensures Decode(data).Ok? <==> (|data| == 7 && data[0] == 0x10) || (|data| == 20 && data[0] == 0x11)
    ensures Decode(data) == Err(WrongLength)
            <==> data != [] && ((data[0] == 0x10 && |data| != 7) || (data[0] == 0x11 && |data| != 20))
    ensures Decode(data).Ok? ==>
              Decode(data).value == Report(if data[0] == 0x10 then Short else Long, data[1], data[2],
                                           data[3] / 16, data[3] % 16, data[4..])
  {
  }

  lemma BuildThenParse(r: Report)
    requires Encode(r).Ok?
    ensures |Encode(r).value| == Length(r.typ)
    ensures Decode(Encode(r).value) == Ok(Padded(r))
  {
    CommandNibbles(r);
    var data := Encode(r).value;
    assert data[4..] == Padded(r).parameters;
  }

  lemma ParseThenBuild(data: seq<byte>)
    requires Decode(data).Ok?
    ensures Encode(Decode(data).value) == Ok(data)
  {
    var r := Decode(data).value;
    CommandNibbles(r);
    assert [IdOf(r.typ), r.device, r.subID, CommandByte(r)] == data[..4];
    assert Encode(r).value == data[..4] + data[4..] == data;
  }

  /** Which byte strings are reports at all, and why the others are not. */
  lemma ParseAccepts(data: seq<byte>)
    ensures Decode(data).Ok? <==> exists r :: Encode(r) == Ok(data)
    ensures Decode(data) == Err(NotHidpp) <==> (data == [] || data[0] !in {SHORT_ID, LONG_ID})
  {
    if Decode(data).Ok? {
      ParseThenBuild(data);
    }
    forall r | Encode(r) == Ok(data) ensures Decode(data).Ok? {
      BuildThenParse(r);
    }
  }

  /** Build fills a fresh zeroed buffer of the wire length. */
  method Build(r: Report) returns (result: Result<array<byte>, BuildError>)
    ensures result.Ok? <==> Encode(r).Ok?
    ensures result.Ok? ==> fresh(result.value) && result.value[..] == Encode(r).value
    ensures result.Err? ==> Encode(r) == Err(result.error)
  {
    if r.typ.Unknown? { return Err(BadType); }
    if r.func > 0x0f { return Err(BadFunction); }
    if r.software > 0x0f { return Err(BadSoftwareID); }
    if |r.parameters| > Capacity(r.typ) { return Err(TooManyParameters); }
    var data := new byte[Length(r.typ)](_ => 0);
    data[0], data[1], data[2], data[3] := IdOf(r.typ), r.device, r.subID, CommandByte(r);
    for i := 0 to |r.parameters|
      invariant data[..4] == [IdOf(r.typ), r.device, r.subID, CommandByte(r)]
      invariant forall j | 0 <= j < i :: data[4 + j] == r.parameters[j]
      invariant forall j | 4 + i <= j < data.Length :: data[j] == 0
    {
      data[4 + i] := r.parameters[i];
    }
    assert data[..] == Encode(r).value;
    result := Ok(data);
  }

  /** Parse copies the parameter area of the first n bytes of the shared read buffer. */
  method Parse(buffer: array<byte>, n: nat) returns (result: Result<Report, ParseError>)
    requires n <= buffer.Length
    ensures result == Decode(buffer[..n])
  {
    if n == 0 { return Err(NotHidpp); }
    var typ := TypeOf(buffer[0]);
    if typ.Unknown? { return Err(NotHidpp); }
    if n != Length(typ) { return Err(WrongLength); }
    var parameters: seq<byte> := [];
    for i := 4 to n
      invariant parameters == buffer[4..i]
    {
      parameters := parameters + [buffer[i]];
    }
    assert buffer[..n][4..] == buffer[4..n];
    result := Ok(Report(typ, buffer[1], buffer[2], buffer[3] / 16, buffer[3] % 16, parameters));
  }

  // ---- Transaction identity ----

  datatype Key = Key(device: byte, subID: byte, address: byte)

  datatype Request = Request(report: Report, responseSubID: byte)

  /** What `dispatch` does with a report: complete a transaction, fail one, or (error reports
      with fewer than two parameters) fail all of them. */
  datatype Route = Response(key: Key) | Failure(key: Key, code: byte) | Truncated

  function Classify(r: Report): Route {
    if (if r.typ.Short? then r.subID == REGISTER_ERROR else r.subID == FEATURE_ERROR) then
      if |r.parameters| < 2 then Truncated
      else Failure(Key(r.device, CommandByte(r), r.parameters[0]), r.parameters[1])
    else Response(Key(r.device, r.subID, CommandByte(r)))
  }

  /** The guards at the top of `Exchange`. */
  predicate Accepts(q: Request) {
    && !(q.report.typ.Short? && q.responseSubID == REGISTER_ERROR)
    && !(!q.report.typ.Short? && q.responseSubID == FEATURE_ERROR)
    && Encode(q.report).Ok?
  }

  /** Some reply of the request's own type could complete it. */
  ghost predicate CanBeAnswered(q: Request) {
    exists reply: Report ::
      && reply.typ == q.report.typ && reply.device == q.report.device && reply.subID == q.responseSubID
      && reply.func == q.report.func && reply.software == q.report.software
      && Classify(reply) == Response(KeyOf(q))
  }

  /** A request is refused exactly when it cannot be built, or no reply of its own type could be told
      from an error report. */
  lemma AcceptedExactlyWhenAnswerable(q: Request)
    ensures Accepts(q) <==> Encode(q.report).Ok? && CanBeAnswered(q)
    ensures Accepts(q) <==> Encode(q.report).Ok?
                            && q.responseSubID != if q.report.typ.Short? then 0x8f else 0xff
  {
    var reply := Report(q.report.typ, q.report.device, q.responseSubID, q.report.func, q.report.software, []);
    if Accepts(q) {
      RepliesReachTheirRequest(q, reply);
    }
  }

  function KeyOf(q: Request): Key {
    Key(q.report.device, q.responseSubID, CommandByte(q.report))
  }

  /** Bytes that are a report but no error report. */
  predicate ReplyBytes(data: seq<byte>) {
    (|data| == 7 && data[0] == 0x10 && data[2] != 0x8f) || (|data| == 20 && data[0] == 0x11 && data[2] != 0xff)
  }

  predicate ErrorBytes(data: seq<byte>) {
    (|data| == 7 && data[0] == 0x10 && data[2] == 0x8f) || (|data| == 20 && data[0] == 0x11 && data[2] == 0xff)
  }

  /** What a report on the wire is about, byte by byte: a reply names its transaction in bytes 1 to 3,
      an error report in bytes 1, 3 and 4, followed by the code. */
  lemma RouteOfBytes(data: seq<byte>)
    ensures Decode(data).Ok? <==> ReplyBytes(data) || ErrorBytes(data)
    ensures ReplyBytes(data) ==> Classify(Decode(data).value) == Response(Key(data[1], data[2], data[3]))
    ensures ErrorBytes(data) ==> Classify(Decode(data).value) == Failure(Key(data[1], data[3], data[4]), data[5])
  {
    if Decode(data).Ok? {
      CommandNibbles(Decode(data).value);
    }
  }

  /** The `need 2 parameters` failures of `dispatch` cannot be reached from parsed bytes. */
  lemma ParsedNeverTruncated(data: seq<byte>)
    requires Decode(data).Ok?
    ensures !Classify(Decode(data).value).Truncated?
  {
  }

  /** Bytes of a register error for request q, with anything in the last byte; both error dialects
      quote the request's sub-ID and command byte. */
  function RegisterErrorBytes(q: Request, code: byte, last: byte): seq<byte> {
    [SHORT_ID, q.report.device, REGISTER_ERROR, q.report.subID, CommandByte(q.report), code, last]
  }

  function FeatureErrorBytes(q: Request, code: byte, tail: seq<byte>): seq<byte> {
    [LONG_ID, q.report.device, FEATURE_ERROR, q.report.subID, CommandByte(q.report), code] + tail
  }

  /** The data is an error report of either dialect that quotes the request. */
  ghost predicate QuotesRequest(data: seq<byte>, q: Request, code: byte) {
    || (exists last :: data == RegisterErrorBytes(q, code, last))
    || (exists tail: seq<byte> :: |tail| == 14 && data == FeatureErrorBytes(q, code, tail))
  }

  /** An error for an accepted request is routed as a failure with the code of the device, and to
      the request's own key exactly when the request awaits its own sub-ID. */
  lemma ErrorReportsReachTheirRequest(q: Request, code: byte, data: seq<byte>)
    requires Accepts(q) && QuotesRequest(data, q, code)
    ensures Decode(data).Ok?
    ensures var route := Classify(Decode(data).value);
            route.Failure? && route.code == code && (route.key == KeyOf(q) <==> q.responseSubID == q.report.subID)
  {
    var r := Decode(data).value;
    CommandNibbles(r);
    assert CommandByte(r) == q.report.subID;
  }

  /** A reply carrying the awaited sub-ID and the request's command is routed to the request's key
      exactly when it is not itself an error report; in particular every reply of the request's own
      type is. */
  lemma RepliesReachTheirRequest(q: Request, reply: Report)
    requires Accepts(q)
    requires reply.device == q.report.device && reply.subID == q.responseSubID
    requires reply.func == q.report.func && reply.software == q.report.software
    ensures Classify(reply) == Response(KeyOf(q))
            <==> reply.subID != (if reply.typ.Short? then REGISTER_ERROR else FEATURE_ERROR)
    ensures reply.typ == q.report.typ ==> Classify(reply) == Response(KeyOf(q))
  {
  }
}
