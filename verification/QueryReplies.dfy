/**
  `readSimpleQuery` and `readExtQuery` of upg/messages.go: reading the backend messages that answer a
  query (section 55.7, "Message Formats", of the PostgreSQL 16 manual) off a byte stream, up to and with
  ReadyForQuery.
*/
module QueryReplies {
  import opened Basics

  type Bytes = seq<Byte>

  /** The reader's buffer size, which bounds what it returns in one piece, and the decoding of numbers. */
  datatype Config = Config(capacity: nat, atoi: Bytes -> Option<int>)

  // message types
  const COMMAND_COMPLETE: Byte := 67     // C
  const ERROR_RESPONSE: Byte := 69       // E
  const NOTICE_RESPONSE: Byte := 78      // N
  const PARAMETER_STATUS: Byte := 83     // S
  const READY_FOR_QUERY: Byte := 90      // Z
  const EMPTY_QUERY: Byte := 73          // I
  const ROW_DESCRIPTION: Byte := 84      // T
  const DATA_ROW: Byte := 68             // D
  const BIND_COMPLETE: Byte := 50        // 2
  const SPACE: Byte := 32

  datatype Error = Server(fields: map<Byte, Bytes>) | EmptyQuery

  /**
    How a reader ends: after ReadyForQuery with a result or the first error, in the middle of the stream, or with a
    panic.
  */
  datatype Outcome =
    | Result(returned: nat, affected: int, rest: Bytes)
    | Rejected(error: Error, rest: Bytes)
    | Broken
    | Panicked

  // ---------- pieces of the stream ----------

  /** `readInt32` of four bytes. */
  function Int32(b: Bytes): int
    requires |b| == 4
  {
    var n := ((b[0] as int * 256 + b[1] as int) * 256 + b[2] as int) * 256 + b[3] as int;
    if n < 0x8000_0000 then n else n - 0x1_0000_0000
  }

  /** Four bytes are a number in two's complement, the most significant first. */
  lemma Int32Is(b: Bytes)
    requires |b| == 4
    ensures -0x8000_0000 <= Int32(b) < 0x8000_0000
    ensures var n := 0x100_0000 * b[0] as int + 0x1_0000 * b[1] as int + 256 * b[2] as int + b[3] as int;
      Int32(b) == n || Int32(b) == n - 0x1_0000_0000
  {
  }

  /** `readMessageType`: the type, the length of the body, and what follows; the buffer has to hold the length. */
  function Header(q: Config, s: Bytes): (r: Option<(Byte, int, Bytes)>)
    ensures r.Some? ==> |r.value.2| < |s|
  {
    if |s| < 5 || q.capacity < 4 then None else Some((s[0], Int32(s[1..5]) - 4, s[5..]))
  }

  /** `ReadN` */
  function ReadN(q: Config, n: int, s: Bytes): (r: Option<(Bytes, Bytes)>)
    ensures r.Some? ==> |r.value.1| <= |s|
  {
    if 0 <= n <= q.capacity && n <= |s| then Some((s[..n], s[n..])) else None
  }

  /** `Discard`, which is not bound by the buffer. */
  function Discard(n: int, s: Bytes): (r: Option<Bytes>)
    ensures r.Some? ==> |r.value| <= |s|
  {
    if 0 <= n <= |s| then Some(s[n..]) else None
  }

  function ZeroAt(s: Bytes): (k: nat)
    ensures k <= |s| && (k < |s| ==> s[k] == 0) && forall i :: 0 <= i < k ==> s[i] != 0
  {
    if s == [] || s[0] == 0 then 0 else 1 + ZeroAt(s[1..])
  }

  /**
    `readError`: fields of one byte and a string each, until a zero byte. It does not look at the length of the
    message.
  */
  function ErrorFields(q: Config, s: Bytes, m: map<Byte, Bytes>): (r: Option<(map<Byte, Bytes>, Bytes)>)
    ensures r.Some? ==> |r.value.1| < |s|
    decreases |s|
  {
    if s == [] then None
    else if s[0] == 0 then Some((m, s[1..]))
    else
      var k := ZeroAt(s[1..]);
      if 1 + k == |s| || k >= q.capacity then None
      else ErrorFields(q, s[k + 2..], m[s[0] := s[1..k + 1]])
  }

  /** Is a slice bound of `parse` out of range? */
  predicate SliceFails(b: Bytes) {
    LastSpace(b) != -1 && LastSpace(b) + 1 > |b| - 1
  }

  /** `parse` of a command tag: the number behind its last space, without the last byte; -1 if there is none. */
  function Affected(q: Config, b: Bytes): int
    requires !SliceFails(b)
  {
    var i := LastSpace(b);
    if i == -1 then -1
    else
      match q.atoi(b[i + 1..|b| - 1])
      case Some(n) => n
      case None => -1
  }

  function LastSpace(b: Bytes): (i: int)
    ensures -1 <= i < |b| && (i >= 0 ==> b[i] == SPACE)
  {
    if b == [] then -1 else if b[|b| - 1] == SPACE then |b| - 1 else LastSpace(b[..|b| - 1])
  }

  // ---------- the readers ----------

  /** What a reader has seen so far. */
  datatype Progress = Progress(returned: nat, affected: int, first: Option<Error>)

  const NOTHING := Progress(0, 0, None)

  function Note(p: Progress, e: Error): Progress {
    if p.first == None then p.(first := Some(e)) else p
  }

  /** The message types that are read and forgotten. */
  predicate Ignored(ext: bool, c: Byte) {
    c == NOTICE_RESPONSE || c == PARAMETER_STATUS || c == (if ext then BIND_COMPLETE else ROW_DESCRIPTION)
  }

  /** What a message comes to: what is known after it and what is left of the stream, an error, or a panic. */
  datatype Reading = Read(p: Progress, rest: Bytes) | Fails | Panics

  /** One message. */
  function Message(q: Config, ext: bool, c: Byte, n: int, s: Bytes, p: Progress): (r: Reading)
    requires c != READY_FOR_QUERY
    ensures r.Read? ==> |r.rest| <= |s|
  {
    if c == COMMAND_COMPLETE then
      match ReadN(q, n, s)
      case None => Fails
      case Some((b, rest)) => if SliceFails(b) then Panics else Read(p.(affected := Affected(q, b)), rest)
    else if c == DATA_ROW then
      match if ext then Behind(ReadN(q, n, s)) else Discard(n, s)
      case None => Fails
      case Some(rest) => Read(p.(returned := p.returned + 1), rest)
    else if c == ERROR_RESPONSE then
      match ErrorFields(q, s, map[])
      case None => Fails
      case Some((m, rest)) => Read(Note(p, Server(m)), rest)
    else if c == EMPTY_QUERY then Read(Note(p, EmptyQuery), s)
    else if Ignored(ext, c) then
      match Behind(ReadN(q, n, s))
      case None => Fails
      case Some(rest) => Read(p, rest)
    else Fails
  }

  function Behind(r: Option<(Bytes, Bytes)>): Option<Bytes> {
    match r
    case None => None
    case Some((_, rest)) => Some(rest)
  }

  /** The loop of both readers, on any bytes. */
  function ReadQuery(q: Config, ext: bool, s: Bytes, p: Progress): Outcome
    decreases |s|
  {
    match Header(q, s)
    case None => Broken
    case Some((c, n, body)) =>
      if c == READY_FOR_QUERY then
        match ReadN(q, n, body)
        case None => Broken
        case Some((_, rest)) => if p.first.Some? then Rejected(p.first.value, rest)
            else Result(p.returned, p.affected, rest)
      else
        match Message(q, ext, c, n, body, p)
        case Fails => Broken
        case Panics => Panicked
        case Read(p', rest) => ReadQuery(q, ext, rest, p')
  }

  // ---------- well-formed streams ----------

  datatype Frame = Frame(kind: Byte, body: Bytes)

  function Four(n: nat): Bytes
    requires n < 0x8000_0000
  {
    [(n / 0x100_0000) as Byte, (n / 0x1_0000 % 256) as Byte, (n / 256 % 256) as Byte, (n % 256) as Byte]
  }

  lemma FourIsInt32(n: nat)
    requires n < 0x8000_0000
    ensures Int32(Four(n)) == n
  {
    hide Int32, Four;
    FourBytes(n);
    HighBytes(n);
    ThirdByte(n);
    LowByte(n);
    ValueOf(Four(n));
  }

  lemma HighBytes(n: nat)
    ensures n / 0x100_0000 == n / 0x1_0000 / 256
  {
  }

  lemma ThirdByte(n: nat)
    ensures n / 256 % 256 == n % 0x1_0000 / 256
  {
    var h, l := n / 0x1_0000, n % 0x1_0000;
    var c, d := l / 256, l % 256;
    ByteOf(256 * h + c, d, n);
    ByteOf(h, c, 256 * h + c);
  }

  lemma ByteOf(q: nat, r: nat, n: nat)
    requires n == 256 * q + r && r < 256
    ensures n / 256 == q && n % 256 == r
  {
  }

  lemma LowByte(n: nat)
    ensures n % 256 == n % 0x1_0000 % 256
  {
  }

  lemma FourBytes(n: nat)
    requires n < 0x8000_0000
    ensures |Four(n)| == 4 && Four(n)[0] as int == n / 0x100_0000 && Four(n)[1] as int == n / 0x1_0000 % 256
    ensures Four(n)[2] as int == n / 256 % 256 && Four(n)[3] as int == n % 256
  {
  }

  lemma ValueOf(b: Bytes)
    requires |b| == 4 && b[0] < 128
    ensures Int32(b) == (b[0] as int * 256 + b[1] as int) * 0x1_0000 + (b[2] as int * 256 + b[3] as int)
  {
  }

  predicate Sized(f: Frame) {
    |f.body| + 4 < 0x8000_0000
  }

  function Encode(f: Frame): Bytes
    requires Sized(f)
  {
    [f.kind] + Four(|f.body| + 4) + f.body
  }

  function EncodeAll(fs: seq<Frame>): Bytes
    requires forall i :: 0 <= i < |fs| ==> Sized(fs[i])
  {
    if fs == [] then [] else Encode(fs[0]) + EncodeAll(fs[1..])
  }

  /** The body of an error message: its fields with a zero byte behind them. */
  predicate ErrorBody(q: Config, b: Bytes)
    decreases |b|
  {
    b != [] &&
    if b[0] == 0 then |b| == 1
    else
      var k := ZeroAt(b[1..]);
      1 + k < |b| && k < q.capacity && ErrorBody(q, b[k + 2..])
  }

  function FieldsOf(q: Config, b: Bytes, m: map<Byte, Bytes>): map<Byte, Bytes>
    requires ErrorBody(q, b)
    decreases |b|
  {
    if b[0] == 0 then m else FieldsOf(q, b[ZeroAt(b[1..]) + 2..], m[b[0] := b[1..ZeroAt(b[1..]) + 1]])
  }

  /** A frame that the reader handles; a command tag needs no closing zero byte, it only must not end in a space. */
  predicate Handled(q: Config, ext: bool, f: Frame) {
    Sized(f) &&
    match Letter(f)
    case 'C' => |f.body| <= q.capacity && !EndsInSpace(f.body)
    case 'D' => ext ==> |f.body| <= q.capacity
    case 'E' => ErrorBody(q, f.body)
    case 'I' => f.body == []
    case 'N' => |f.body| <= q.capacity
    case 'S' => |f.body| <= q.capacity
    case 'T' => !ext && |f.body| <= q.capacity
    case '2' => ext && |f.body| <= q.capacity
    case _ => false
  }

  /** The letter of a message, as the manual has it. */
  function Letter(f: Frame): char {
    f.kind as int as char
  }

  /** What one frame means. */
  function Meaning(q: Config, ext: bool, f: Frame, p: Progress): Progress
    requires Handled(q, ext, f)
  {
    if f.kind == COMMAND_COMPLETE then p.(affected := TagCount(q, f.body))
    else if f.kind == DATA_ROW then p.(returned := p.returned + 1)
    else if f.kind == ERROR_RESPONSE then Note(p, Server(FieldsOf(q, f.body, map[])))
    else if f.kind == EMPTY_QUERY then Note(p, EmptyQuery)
    else p
  }

  predicate EndsInSpace(b: Bytes) {
    b != [] && b[|b| - 1] == SPACE
  }

  function TagCount(q: Config, b: Bytes): int
    requires !EndsInSpace(b)
  {
    SliceFailsIff(b);
    Affected(q, b)
  }

  lemma SliceFailsIff(b: Bytes)
    ensures SliceFails(b) <==> EndsInSpace(b)
  {
  }

  /** Reading the fields of an error stops exactly at the end of its body. */
  lemma {:induction false} ErrorStops(q: Config, b: Bytes, rest: Bytes, m: map<Byte, Bytes>)
    requires ErrorBody(q, b)
    ensures ErrorFields(q, b + rest, m) == Some((FieldsOf(q, b, m), rest))
    decreases |b|
  {
    hide ZeroAt, ErrorFields, FieldsOf, ErrorBody;
    FieldStep(q, b + rest, m);
    BodyStep(q, b, m);
    if b[0] == 0 {
      assert (b + rest)[1..] == rest;
    } else {
      var k := ZeroAt(b[1..]);
      ZeroStays(b[1..], rest);
      FieldParts(b, rest, k);
      ErrorStops(q, b[k + 2..], rest, m[b[0] := b[1..k + 1]]);
    }
  }

  lemma {:induction false} FieldStep(q: Config, s: Bytes, m: map<Byte, Bytes>)
    ensures s != [] && s[0] == 0 ==> ErrorFields(q, s, m) == Some((m, s[1..]))
    ensures s != [] && s[0] != 0 && 1 + ZeroAt(s[1..]) < |s| && ZeroAt(s[1..]) < q.capacity ==>
      ErrorFields(q, s, m) == ErrorFields(q, s[ZeroAt(s[1..]) + 2..], m[s[0] := s[1..ZeroAt(s[1..]) + 1]])
  {
    hide ZeroAt;
  }

  lemma {:induction false} BodyStep(q: Config, b: Bytes, m: map<Byte, Bytes>)
    requires ErrorBody(q, b)
    ensures b != [] && (b[0] == 0 ==> |b| == 1 && FieldsOf(q, b, m) == m)
    ensures b[0] != 0 ==>
      var k := ZeroAt(b[1..]);
      && 1 + k < |b| && k < q.capacity && ErrorBody(q, b[k + 2..])
      && FieldsOf(q, b, m) == FieldsOf(q, b[k + 2..], m[b[0] := b[1..k + 1]])
  {
    hide ZeroAt;
  }

  lemma FieldParts(b: Bytes, rest: Bytes, k: nat)
    requires 1 + k < |b|
    ensures (b + rest)[0] == b[0] && (b + rest)[1..] == b[1..] + rest
    ensures (b + rest)[k + 2..] == b[k + 2..] + rest && (b + rest)[1..k + 1] == b[1..k + 1]
  {
  }

  lemma {:induction false} ZeroStays(b: Bytes, rest: Bytes)
    requires ZeroAt(b) < |b|
    ensures ZeroAt(b + rest) == ZeroAt(b)
  {
    if b[0] != 0 {
      assert (b + rest)[1..] == b[1..] + rest;
      ZeroStays(b[1..], rest);
    }
  }

  lemma HeaderOf(q: Config, f: Frame, rest: Bytes)
    requires Sized(f) && q.capacity >= 4
    ensures Header(q, Encode(f) + rest) == Some((f.kind, |f.body|, f.body + rest))
  {
    var s := Encode(f) + rest;
    var four := Four(|f.body| + 4);
    assert s[1..5] == four && s[5..] == f.body + rest;
    FourIsInt32(|f.body| + 4);
  }

  lemma BodyOf(q: Config, b: Bytes, rest: Bytes)
    ensures |b| <= q.capacity ==> ReadN(q, |b|, b + rest) == Some((b, rest))
    ensures Discard(|b|, b + rest) == Some(rest)
  {
    assert (b + rest)[..|b|] == b && (b + rest)[|b|..] == rest;
  }

  /** A frame the reader handles is consumed exactly. */
  lemma FrameConsumed(q: Config, ext: bool, f: Frame, rest: Bytes, p: Progress)
    requires Handled(q, ext, f)
    ensures f.kind != READY_FOR_QUERY &&
        Message(q, ext, f.kind, |f.body|, f.body + rest, p) == Read(Meaning(q, ext, f, p), rest)
  {
    hide ErrorFields, FieldsOf, ErrorBody, ReadN, Discard, SliceFails;
    BodyOf(q, f.body, rest);
    SliceFailsIff(f.body);
    if f.kind == ERROR_RESPONSE { ErrorStops(q, f.body, rest, map[]); }
    if f.kind == EMPTY_QUERY { assert f.body + rest == rest; }
  }

  /** Is the frame, with this behind it, read up to its end? */
  predicate ReadToEnd(q: Config, ext: bool, f: Frame, rest: Bytes, p: Progress)
    requires f.kind != READY_FOR_QUERY
  {
    var r := Message(q, ext, f.kind, |f.body|, f.body + rest, p);
    r.Read? && r.rest == rest
  }

  /** Fields that end with the text are the fields of a well-formed body. */
  lemma {:induction false} EndedIsBody(q: Config, b: Bytes, m: map<Byte, Bytes>)
    requires ErrorFields(q, b, m).Some? && ErrorFields(q, b, m).value.1 == []
    ensures ErrorBody(q, b)
    decreases |b|
  {
    hide ZeroAt;
    if b[0] != 0 {
      var k := ZeroAt(b[1..]);
      EndedIsBody(q, b[k + 2..], m[b[0] := b[1..k + 1]]);
    }
  }

  /**
    An error message is read up to its end, whatever follows, if and only if its body is made of fields and a zero
    byte.
  */
  lemma ErrorExact(q: Config, ext: bool, b: Bytes)
    ensures (forall rest, p :: ReadToEnd(q, ext, Frame(ERROR_RESPONSE, b), rest, p)) <==> ErrorBody(q, b)
  {
    hide ErrorFields, ErrorBody;
    if ErrorBody(q, b) {
      forall rest, p
        ensures ReadToEnd(q, ext, Frame(ERROR_RESPONSE, b), rest, p)
      {
        ErrorStops(q, b, rest, map[]);
      }
    }
    if ReadToEnd(q, ext, Frame(ERROR_RESPONSE, b), [], NOTHING) {
      assert b + [] == b;
      EndedIsBody(q, b, map[]);
    }
  }

  /** A command tag that fits the buffer makes the reader panic if and only if it is not empty and ends in a space. */
  lemma TagPanicsIff(q: Config, ext: bool, b: Bytes, rest: Bytes, p: Progress)
    requires |b| <= q.capacity
    ensures Message(q, ext, COMMAND_COMPLETE, |b|, b + rest, p).Panics? <==> EndsInSpace(b)
  {
    hide ReadN, SliceFails;
    BodyOf(q, b, rest);
    SliceFailsIff(b);
  }

  /** The frames that are read up to their end, whatever follows, are exactly those the reader handles. */
  lemma HandledIff(q: Config, ext: bool, f: Frame)
    requires Sized(f) && f.kind != READY_FOR_QUERY
    ensures (forall rest, p :: ReadToEnd(q, ext, f, rest, p)) <==> Handled(q, ext, f)
  {
    hide ErrorFields, ErrorBody, SliceFails, Affected;
    if Handled(q, ext, f) {
      forall rest, p
        ensures ReadToEnd(q, ext, f, rest, p)
      {
        FrameConsumed(q, ext, f, rest, p);
      }
    }
    if ReadToEnd(q, ext, f, [], NOTHING) {
      assert f.body + [] == f.body;
      SliceFailsIff(f.body);
      if f.kind == ERROR_RESPONSE { EndedIsBody(q, f.body, map[]); }
    }
  }

  /** An error message without a body: the reader takes its fields from the ReadyForQuery behind it and loses step. */
  lemma EmptyErrorLosesStep(q: Config, ext: bool)
    requires q.capacity >= 1
    ensures ReadQuery(q, ext, Encode(Frame(ERROR_RESPONSE, [])) + Encode(Frame(READY_FOR_QUERY, [73])), NOTHING)
        == Broken
  {
    hide ReadQuery;
    if q.capacity < 4 {
      OneMessage(q, ext, Encode(Frame(ERROR_RESPONSE, [])) + Encode(Frame(READY_FOR_QUERY, [73])), NOTHING);
      return;
    }
    var z := Encode(Frame(READY_FOR_QUERY, [73]));
    assert z == [90, 0, 0, 0, 5, 73];
    HeaderOf(q, Frame(ERROR_RESPONSE, []), z);
    assert [] + z == z;
    assert z[1..] == [0, 0, 0, 5, 73] && ZeroAt(z[1..]) == 0;
    FieldStep(q, z, map[]);
    assert z[2..] == [0, 0, 5, 73] && z[1..1] == [];
    FieldStep(q, z[2..], map[90 := []]);
    assert z[2..][1..] == [0, 5, 73];
    var p := Note(NOTHING, Server(map[90 := []]));
    assert Message(q, ext, ERROR_RESPONSE, 0, z, NOTHING) == Read(p, [0, 5, 73]);
    OneMessage(q, ext, Encode(Frame(ERROR_RESPONSE, [])) + z, NOTHING);
    OneMessage(q, ext, [0, 5, 73], p);
  }

  /** A command tag that ends in a space: the reader panics, whatever follows. */
  lemma SpaceAtEndPanics(q: Config, ext: bool, rest: Bytes)
    requires q.capacity >= 4
    ensures ReadQuery(q, ext, Encode(Frame(COMMAND_COMPLETE, [83, SPACE])) + rest, NOTHING) == Panicked
  {
    hide ReadQuery, Message;
    var f := Frame(COMMAND_COMPLETE, [83, SPACE]);
    HeaderOf(q, f, rest);
    TagPanicsIff(q, ext, f.body, rest, NOTHING);
    OneMessage(q, ext, Encode(f) + rest, NOTHING);
  }

  lemma OneMessage(q: Config, ext: bool, s: Bytes, p: Progress)
    ensures Header(q, s) == None ==> ReadQuery(q, ext, s, p) == Broken
    ensures Header(q, s).Some? && Header(q, s).value.0 != READY_FOR_QUERY ==>
      var (c, n, body) := Header(q, s).value;
      ReadQuery(q, ext, s, p) ==
        match Message(q, ext, c, n, body, p)
        case Fails => Broken
        case Panics => Panicked
        case Read(p', rest) => ReadQuery(q, ext, rest, p')
  {
    hide Message, Header;
  }

  function Meanings(q: Config, ext: bool, fs: seq<Frame>, p: Progress): Progress
    requires forall i :: 0 <= i < |fs| ==> Handled(q, ext, fs[i])
  {
    if fs == [] then p else Meanings(q, ext, fs[1..], Meaning(q, ext, fs[0], p))
  }

  /** Reading a stream of handled frames ends behind its ReadyForQuery, with what the frames mean. */
  lemma {:induction false} Resynchronises(q: Config, ext: bool, fs: seq<Frame>, ready: Bytes, tail: Bytes, p: Progress)
    requires forall i :: 0 <= i < |fs| ==> Handled(q, ext, fs[i])
    requires |ready| <= q.capacity && |ready| + 4 < 0x8000_0000 && q.capacity >= 4
    ensures var end := Meanings(q, ext, fs, p);
      ReadQuery(q, ext, EncodeAll(fs) + (Encode(Frame(READY_FOR_QUERY, ready)) + tail), p)
      == if end.first.Some? then Rejected(end.first.value, tail) else Result(end.returned, end.affected, tail)
  {
    hide Message, Meaning, ReadN, Handled, Header;
    var z := Encode(Frame(READY_FOR_QUERY, ready)) + tail;
    if fs == [] {
      assert EncodeAll(fs) + z == z;
      HeaderOf(q, Frame(READY_FOR_QUERY, ready), tail);
      BodyOf(q, ready, tail);
    } else {
      AllSized(q, ext, fs);
      var rest := EncodeAll(fs[1..]) + z;
      assert Handled(q, ext, fs[0]);
      assert EncodeAll(fs) + z == Encode(fs[0]) + rest;
      HeaderOf(q, fs[0], rest);
      FrameConsumed(q, ext, fs[0], rest, p);
      Resynchronises(q, ext, fs[1..], ready, tail, Meaning(q, ext, fs[0], p));
    }
  }

  lemma AllSized(q: Config, ext: bool, fs: seq<Frame>)
    requires forall i :: 0 <= i < |fs| ==> Handled(q, ext, fs[i])
    ensures forall i :: 0 <= i < |fs| ==> Sized(fs[i])
  {
  }

  // ---------- what the frames amount to ----------

  predicate IsError(f: Frame) {
    f.kind == ERROR_RESPONSE || f.kind == EMPTY_QUERY
  }

  function ErrorOf(q: Config, ext: bool, f: Frame): Error
    requires Handled(q, ext, f) && IsError(f)
  {
    if f.kind == EMPTY_QUERY then EmptyQuery else Server(FieldsOf(q, f.body, map[]))
  }

  function Rows(fs: seq<Frame>): nat {
    if fs == [] then 0 else (if fs[0].kind == DATA_ROW then 1 else 0) + Rows(fs[1..])
  }

  /** Rows are counted, and the error kept is the earliest. */
  lemma {:induction false} MeaningsAre(q: Config, ext: bool, fs: seq<Frame>, p: Progress)
    requires forall i :: 0 <= i < |fs| ==> Handled(q, ext, fs[i])
    ensures var end := Meanings(q, ext, fs, p);
      && end.returned == p.returned + Rows(fs)
      && (p.first.Some? ==> end.first == p.first)
      && (p.first.None? ==> (end.first.None? <==> forall i :: 0 <= i < |fs| ==> !IsError(fs[i])))
      && (p.first.None? && end.first.Some? ==>
            exists i :: 0 <= i < |fs| && IsError(fs[i]) && end.first == Some(ErrorOf(q, ext, fs[i])) &&
                forall j :: 0 <= j < i ==> !IsError(fs[j]))
  {
    hide Handled, FieldsOf;
    if fs != [] {
      var p1 := Meaning(q, ext, fs[0], p);
      var rest := fs[1..];
      assert forall i :: 0 <= i < |rest| ==> rest[i] == fs[i + 1];
      MeaningsAre(q, ext, rest, p1);
      var end := Meanings(q, ext, fs, p);
      if p.first.None? && !IsError(fs[0]) && end.first.Some? {
        var i :| 0 <= i < |rest| && IsError(rest[i]) && end.first == Some(ErrorOf(q, ext, rest[i])) &&
            forall j :: 0 <= j < i ==> !IsError(rest[j]);
        assert fs[i + 1] == rest[i];
        assert forall j :: 0 <= j < i + 1 ==> !IsError(fs[j]) by {
          assert forall j :: 1 <= j < i + 1 ==> fs[j] == rest[j - 1];
        }
      }
    }
  }

  predicate IsTag(f: Frame) {
    f.kind == COMMAND_COMPLETE
  }

  lemma {:induction false} NoTag(q: Config, ext: bool, fs: seq<Frame>, p: Progress)
    requires forall i :: 0 <= i < |fs| ==> Handled(q, ext, fs[i]) && !IsTag(fs[i])
    ensures Meanings(q, ext, fs, p).affected == p.affected
  {
    hide Handled, FieldsOf;
    if fs != [] { NoTag(q, ext, fs[1..], Meaning(q, ext, fs[0], p)); }
  }

  /**
    Of several command tags, as a query of several statements has them, the last one gives the number of rows affected.
  */
  lemma {:induction false} LastTagCounts(q: Config, ext: bool, fs: seq<Frame>, p: Progress, i: nat)
    requires forall j :: 0 <= j < |fs| ==> Handled(q, ext, fs[j])
    requires i < |fs| && IsTag(fs[i]) && forall j :: i < j < |fs| ==> !IsTag(fs[j])
    ensures var b := fs[i].body; !EndsInSpace(b) && Meanings(q, ext, fs, p).affected == TagCount(q, b)
  {
    hide FieldsOf, ErrorBody, TagCount, Note;
    var p1 := Meaning(q, ext, fs[0], p);
    if i == 0 {
      NoTag(q, ext, fs[1..], p1);
    } else {
      LastTagCounts(q, ext, fs[1..], p1, i - 1);
    }
  }

  /**
    For every stream of handled frames, the reader ends behind ReadyForQuery with the earliest error, or else the
    number of rows.
  */
  lemma ReaderMeets(q: Config, ext: bool, fs: seq<Frame>, ready: Bytes, tail: Bytes)
    requires forall i :: 0 <= i < |fs| ==> Handled(q, ext, fs[i])
    requires (forall i :: 0 <= i < |fs| ==> Sized(fs[i])) && |ready| <= q.capacity && |ready| + 4 < 0x8000_0000
    requires q.capacity >= 4
    ensures var r := ReadQuery(q, ext, EncodeAll(fs) + (Encode(Frame(READY_FOR_QUERY, ready)) + tail), NOTHING);
      && (r.Result? || r.Rejected?) && r.rest == tail
      && (r.Result? <==> forall i :: 0 <= i < |fs| ==> !IsError(fs[i]))
      && (r.Result? ==> r.returned == Rows(fs))
      && (r.Rejected? ==>
            exists i ::
              0 <= i < |fs| && IsError(fs[i]) && r.error == ErrorOf(q, ext, fs[i]) &&
              forall j :: 0 <= j < i ==> !IsError(fs[j]))
  {
    hide ReadQuery, EncodeAll, Encode, Meanings, Rows;
    Resynchronises(q, ext, fs, ready, tail, NOTHING);
    MeaningsAre(q, ext, fs, NOTHING);
  }

  /** A reply: frames that the reader handles, none of them an error, and ReadyForQuery. */
  predicate Reply(q: Config, ext: bool, fs: seq<Frame>, ready: Bytes) {
    && q.capacity >= 4 && |ready| <= q.capacity && |ready| + 4 < 0x8000_0000
    && forall i :: 0 <= i < |fs| ==> Handled(q, ext, fs[i]) && !IsError(fs[i])
  }

  predicate LastTag(fs: seq<Frame>, i: nat) {
    i < |fs| && IsTag(fs[i]) && forall j :: i < j < |fs| ==> !IsTag(fs[j])
  }

  /** What a reader makes of a reply and what follows it. */
  function ReadReply(q: Config, ext: bool, fs: seq<Frame>, ready: Bytes, tail: Bytes): Outcome
    requires Reply(q, ext, fs, ready)
  {
    ReadQuery(q, ext, EncodeAll(fs) + (Encode(Frame(READY_FOR_QUERY, ready)) + tail), NOTHING)
  }

  lemma ReplyIsMeaning(q: Config, ext: bool, fs: seq<Frame>, ready: Bytes, tail: Bytes)
    requires Reply(q, ext, fs, ready)
    ensures ReadReply(q, ext, fs, ready, tail) == Result(Rows(fs), Meanings(q, ext, fs, NOTHING).affected, tail)
  {
    hide ReadQuery, EncodeAll, Encode, Meanings, Rows, Handled;
    Resynchronises(q, ext, fs, ready, tail, NOTHING);
    MeaningsAre(q, ext, fs, NOTHING);
  }

  lemma {:induction false} LastSpaceIs(p: Bytes, d: Bytes)
    requires SPACE !in d
    ensures LastSpace(p + [SPACE] + d) == |p|
  {
    var b := p + [SPACE] + d;
    if d == [] {
      assert b[|b| - 1] == SPACE;
    } else {
      var front := d[..|d| - 1];
      assert b[..|b| - 1] == p + [SPACE] + front && b[|b| - 1] == d[|d| - 1];
      LastSpaceIs(p, front);
    }
  }

  lemma {:induction false} NoSpaceAtAll(b: Bytes)
    requires SPACE !in b
    ensures LastSpace(b) == -1
  {
    if b != [] { NoSpaceAtAll(b[..|b| - 1]); }
  }

  /**
    The number of rows affected is what stands between the last space and the last byte of the last command tag; where
    that is no number, it is -1.
  */
  lemma TagNumber(q: Config, ext: bool, fs: seq<Frame>, ready: Bytes, tail: Bytes, i: nat, p: Bytes, d: Bytes, z: Byte)
    requires Reply(q, ext, fs, ready) && LastTag(fs, i)
    requires fs[i].body == p + [SPACE] + d + [z] && SPACE !in d && z != SPACE
    ensures var n := if q.atoi(d).Some? then q.atoi(d).value else -1;
      ReadReply(q, ext, fs, ready, tail) == Result(Rows(fs), n, tail)
  {
    hide Meanings, Rows, ReadReply, Handled;
    ReplyIsMeaning(q, ext, fs, ready, tail);
    LastTagCounts(q, ext, fs, NOTHING, i);
    var b := fs[i].body;
    assert b == p + [SPACE] + (d + [z]);
    LastSpaceIs(p, d + [z]);
    assert b[|p| + 1..|b| - 1] == d;
  }

  /** A tag without a space gives -1. */
  lemma TagWithoutSpace(q: Config, ext: bool, fs: seq<Frame>, ready: Bytes, tail: Bytes, i: nat)
    requires Reply(q, ext, fs, ready) && LastTag(fs, i) && SPACE !in fs[i].body
    ensures ReadReply(q, ext, fs, ready, tail) == Result(Rows(fs), -1, tail)
  {
    hide Meanings, Rows, ReadReply, Handled;
    ReplyIsMeaning(q, ext, fs, ready, tail);
    LastTagCounts(q, ext, fs, NOTHING, i);
    NoSpaceAtAll(fs[i].body);
  }

  /** Without a tag nothing was affected. */
  lemma NoTagNothing(q: Config, ext: bool, fs: seq<Frame>, ready: Bytes, tail: Bytes)
    requires Reply(q, ext, fs, ready) && forall i :: 0 <= i < |fs| ==> !IsTag(fs[i])
    ensures ReadReply(q, ext, fs, ready, tail) == Result(Rows(fs), 0, tail)
  {
    hide Meanings, Rows, ReadReply, Handled;
    ReplyIsMeaning(q, ext, fs, ready, tail);
    NoTag(q, ext, fs, NOTHING);
  }

  // ---------- the fields of an error ----------

  datatype Labelled = Labelled(code: Byte, text: Bytes)

  /** The body of an error message with these fields (section 55.8 of the manual). */
  function FieldsBody(fields: seq<Labelled>): Bytes {
    if fields == [] then [0] else [fields[0].code] + fields[0].text + [0] + FieldsBody(fields[1..])
  }

  predicate FieldsFit(q: Config, fields: seq<Labelled>) {
    forall i :: 0 <= i < |fields| ==> fields[i].code != 0 && 0 !in fields[i].text && |fields[i].text| < q.capacity
  }

  /** The text of a code is that of its last field. */
  function LastTexts(fields: seq<Labelled>, m: map<Byte, Bytes>): map<Byte, Bytes> {
    if fields == [] then m else LastTexts(fields[1..], m[fields[0].code := fields[0].text])
  }

  lemma {:induction false} ZeroBehind(t: Bytes, rest: Bytes)
    requires 0 !in t
    ensures ZeroAt(t + ([0] + rest)) == |t|
  {
    var b := t + ([0] + rest);
    if t == [] {
      assert b == [0] + rest;
    } else {
      assert b[1..] == t[1..] + ([0] + rest);
      ZeroBehind(t[1..], rest);
    }
  }

  lemma {:induction false} FieldsAreRead(q: Config, fields: seq<Labelled>, m: map<Byte, Bytes>)
    requires FieldsFit(q, fields)
    ensures ErrorBody(q, FieldsBody(fields)) && FieldsOf(q, FieldsBody(fields), m) == LastTexts(fields, m)
    decreases |fields|
  {
    hide ZeroAt;
    if fields != [] {
      var f, more := fields[0], FieldsBody(fields[1..]);
      var b := FieldsBody(fields);
      assert b == [f.code] + f.text + [0] + more;
      assert b[1..] == f.text + ([0] + more);
      ZeroBehind(f.text, more);
      assert b[|f.text| + 2..] == more && b[1..|f.text| + 1] == f.text;
      FieldsAreRead(q, fields[1..], m[f.code := f.text]);
    }
  }

  /** A query that fails: the reader reports the fields of the first error message. */
  lemma ErrorIsReported(q: Config, ext: bool, fs: seq<Frame>, ready: Bytes, tail: Bytes, i: nat, fields: seq<Labelled>)
    requires forall j :: 0 <= j < |fs| ==> Handled(q, ext, fs[j]) && Sized(fs[j])
    requires q.capacity >= 4 && |ready| <= q.capacity && |ready| + 4 < 0x8000_0000
    requires i < |fs| && (forall j :: 0 <= j < i ==> !IsError(fs[j]))
    requires fs[i] == Frame(ERROR_RESPONSE, FieldsBody(fields)) && FieldsFit(q, fields)
    ensures ReadQuery(q, ext, EncodeAll(fs) + (Encode(Frame(READY_FOR_QUERY, ready)) + tail), NOTHING)
         == Rejected(Server(LastTexts(fields, map[])), tail)
  {
    hide ReadQuery, EncodeAll, Encode, FieldsBody, FieldsOf, ErrorBody, Handled;
    AllSized(q, ext, fs);
    ReaderMeets(q, ext, fs, ready, tail);
    FieldsAreRead(q, fields, map[]);
    assert IsError(fs[i]) && ErrorOf(q, ext, fs[i]) == Server(LastTexts(fields, map[]));
  }

  // ---------- the readers, on a stream ----------

  class Reader {
    const q: Config
    var rest: Bytes

    constructor (q: Config, s: Bytes)
      ensures this.q == q && rest == s
    {
      this.q, rest := q, s;
    }

    method ReadByte() returns (b: Option<Byte>)
      modifies this
      ensures if old(rest) == [] then b == None && rest == [] else b == Some(old(rest)[0]) && rest == old(rest)[1..]
    {
      if rest == [] { return None; }
      b := Some(rest[0]);
      rest := rest[1..];
    }

    method Take(n: int) returns (b: Option<Bytes>)
      modifies this
      ensures ReadN(q, n, old(rest)) == None ==> b == None
      ensures ReadN(q, n, old(rest)).Some? ==>
        b == Some(ReadN(q, n, old(rest)).value.0) && rest == ReadN(q, n, old(rest)).value.1
    {
      if !(0 <= n <= q.capacity && n <= |rest|) { return None; }
      b := Some(rest[..n]);
      rest := rest[n..];
    }

    method Skip(n: int) returns (ok: bool)
      modifies this
      ensures ok == Discard(n, old(rest)).Some?
      ensures ok ==> rest == Discard(n, old(rest)).value
    {
      if !(0 <= n <= |rest|) { return false; }
      rest := rest[n..];
      return true;
    }

    method ReadMessageType() returns (r: Option<(Byte, int)>)
      modifies this
      ensures Header(q, old(rest)) == None ==> r == None
      ensures Header(q, old(rest)).Some? ==>
        var h := Header(q, old(rest)).value; r == Some((h.0, h.1)) && rest == h.2
    {
      var c := ReadByte();
      if c == None { return None; }
      var l := Take(4);
      if l == None { return None; }
      r := Some((c.value, Int32(l.value) - 4));
    }

    method ReadString() returns (s: Option<Bytes>)
      modifies this
      ensures var k := ZeroAt(old(rest));
        if k == |old(rest)| || k >= q.capacity then s == None
        else s == Some(old(rest)[..k]) && rest == old(rest)[k + 1..]
    {
      var k := ZeroAt(rest);
      if k == |rest| || k >= q.capacity { return None; }
      s := Some(rest[..k]);
      rest := rest[k + 1..];
    }

    method ReadError() returns (r: Option<map<Byte, Bytes>>)
      modifies this
      ensures var f := ErrorFields(q, old(rest), map[]);
        if f == None then r == None else r == Some(f.value.0) && rest == f.value.1
    {
      var m: map<Byte, Bytes> := map[];
      while true
        invariant ErrorFields(q, old(rest), map[]) == ErrorFields(q, rest, m)
        decreases |rest|
      {
        ghost var s := rest;
        var c := ReadByte();
        if c == None { return None; }
        if c.value == 0 { return Some(m); }
        var str := ReadString();
        if str == None { return None; }
        var k := |str.value|;
        assert s[1..][..k] == s[1..k + 1] && s[1..][k + 1..] == s[k + 2..];
        m := m[c.value := str.value];
      }
    }

    /** `readSimpleQuery` */
    method ReadSimpleQuery() returns (r: Outcome)
      modifies this
      ensures r == ReadQuery(q, false, old(rest), NOTHING) && (r.Result? || r.Rejected? ==> rest == r.rest)
    {
      hide Header, ReadN, Discard, ErrorFields, Affected, SliceFails;
      var p := NOTHING;
      while true
        invariant ReadQuery(q, false, old(rest), NOTHING) == ReadQuery(q, false, rest, p)
        decreases |rest|
      {
        var h := ReadMessageType();
        if h == None { return Broken; }
        var (c, n) := h.value;
        if c == READY_FOR_QUERY {
          var b := Take(n);
          if b == None { return Broken; }
          return if p.first.Some? then Rejected(p.first.value, rest) else Result(p.returned, p.affected, rest);
        } else if c == DATA_ROW {
          var ok := Skip(n);
          if !ok { return Broken; }
          p := p.(returned := p.returned + 1);
        } else {
          var next := Common(false, c, n, p);
          match next {
            case Fails => return Broken;
            case Panics => return Panicked;
            case Read(p', _) => p := p';
          }
        }
      }
    }

    /** `readExtQuery` */
    method ReadExtQuery() returns (r: Outcome)
      modifies this
      ensures r == ReadQuery(q, true, old(rest), NOTHING) && (r.Result? || r.Rejected? ==> rest == r.rest)
    {
      hide Header, ReadN, Discard, ErrorFields, Affected, SliceFails;
      var p := NOTHING;
      while true
        invariant ReadQuery(q, true, old(rest), NOTHING) == ReadQuery(q, true, rest, p)
        decreases |rest|
      {
        var h := ReadMessageType();
        if h == None { return Broken; }
        var (c, n) := h.value;
        if c == READY_FOR_QUERY {
          var b := Take(n);
          if b == None { return Broken; }
          return if p.first.Some? then Rejected(p.first.value, rest) else Result(p.returned, p.affected, rest);
        } else if c == DATA_ROW {
          var b := Take(n);
          if b == None { return Broken; }
          p := p.(returned := p.returned + 1);
        } else {
          var next := Common(true, c, n, p);
          match next {
            case Fails => return Broken;
            case Panics => return Panicked;
            case Read(p', _) => p := p';
          }
        }
      }
    }

    /** The cases that both readers share. */
    method Common(ext: bool, c: Byte, n: int, p: Progress) returns (r: Reading)
      requires c != READY_FOR_QUERY && c != DATA_ROW
      modifies this
      ensures r == Message(q, ext, c, n, old(rest), p) && (r.Read? ==> rest == r.rest)
    {
      hide ReadN, ErrorFields;
      if c == COMMAND_COMPLETE {
        var b := Take(n);
        if b == None { return Fails; }
        if SliceFails(b.value) { return Panics; }
        return Read(p.(affected := Affected(q, b.value)), rest);
      } else if c == ERROR_RESPONSE {
        var m := ReadError();
        if m == None { return Fails; }
        return Read(Note(p, Server(m.value)), rest);
      } else if c == EMPTY_QUERY {
        return Read(Note(p, EmptyQuery), rest);
      } else if Ignored(ext, c) {
        var b := Take(n);
        return if b == None then Fails else Read(p, rest);
      }
      return Fails;
    }
  }
}
