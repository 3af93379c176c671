/**
  The value grammar of utoml/unstable/parser.go with comments dropped, as functions from
  what is left of the input to a syntax tree and the text behind it.
*/
module TomlGrammar {
  import opened TomlText
  import opened TomlStrings

  datatype Kind = String | Bool | Integer | Float | LocalDate | LocalTime | LocalDateTime | DateTime

  /** The syntax tree of a value. A leaf keeps the bytes its node carries. */
  datatype Tree =
    | Leaf(kind: Kind, data: Text)
    | Array(elements: seq<Tree>)
    | InlineTable(pairs: seq<Pair>)

  /** A key, as its dotted parts, and its value. */
  datatype Pair = Pair(key: seq<Text>, value: Tree)

  // ---------- blanks, comments, newlines ----------

  /** `parseWhitespace` */
  function SkipWs(b: Text): (r: Text)
    ensures |r| <= |b|
  {
    b[WsEnd(b)..]
  }

  /** `parseNewline` */
  function SkipNewlineOrErr(b: Text): (r: Result<Text>)
    requires b != []
    ensures r.Ok? ==> |r.value| < |b|
  {
    if b[0] == '\n' then Ok(b[1..])
    else if b[0] == '\r' && |b| > 1 && b[1] == '\n' then Ok(b[2..])
    else Err
  }

  /** `parseComment` */
  function SkipComment(b: Text): (r: Result<Text>)
    requires b != []
    ensures r.Ok? ==> |r.value| < |b|
  {
    match CommentEnd(b[1..])
    case Ok(n) => Ok(b[1 + n..])
    case Err => Err
  }

  /** `parseOptionalWhitespaceCommentNewline` */
  function SkipLines(b: Text): (r: Result<Text>)
    ensures r.Ok? ==> |r.value| <= |b|
    decreases |b|
  {
    var b1 := SkipWs(b);
    var b2 := if b1 != [] && b1[0] == '#' then SkipComment(b1) else Ok(b1);
    match b2
    case Err => Err
    case Ok(b3) =>
      if b3 == [] || (b3[0] != '\n' && b3[0] != '\r') then Ok(b3)
      else
        match SkipNewlineOrErr(b3)
        case Err => Err
        case Ok(b4) => SkipLines(b4)
  }

  /** `expect` */
  function Expect(c: char, b: Text): (r: Result<Text>)
    ensures r.Ok? ==> |r.value| < |b|
  {
    if b == [] || b[0] != c then Err else Ok(b[1..])
  }

  // ---------- numbers, dates and times ----------

  /** The length of the prefix of digits and underscores of a base. */
  function RadixEnd(b: Text, base: char): (n: nat)
    ensures n <= |b|
  {
    if b == [] || !IsRadixChar(b[0], base) then 0 else 1 + RadixEnd(b[1..], base)
  }

  predicate IsRadixChar(c: char, base: char) {
    match base
    case 'x' => 'a' <= c <= 'f' || 'A' <= c <= 'F' || '0' <= c <= '9' || c == '_'
    case 'o' => '0' <= c <= '7' || c == '_'
    case _ => c == '0' || c == '1' || c == '_'
  }

  /** The main loop of `scanIntOrFloat`: the length of the number and whether it is a float. */
  function NumberEnd(b: Text, isFloat: bool): (r: Result<(nat, bool)>)
    ensures r.Ok? ==> r.value.0 <= |b|
  {
    if b == [] then Ok((0, isFloat))
    else if IsDigit(b[0]) || b[0] == '+' || b[0] == '-' || b[0] == '_' then PlusOne(NumberEnd(b[1..], isFloat))
    else if b[0] == '.' || b[0] == 'e' || b[0] == 'E' then PlusOne(NumberEnd(b[1..], true))
    else if b[0] == 'i' then if Starts(b, "inf") then Ok((3, true)) else Err
    else if b[0] == 'n' then if Starts(b, "nan") then Ok((3, true)) else Err
    else Ok((0, isFloat))
  }

  function PlusOne(r: Result<(nat, bool)>): Result<(nat, bool)> {
    match r
    case Ok((n, f)) => Ok((n + 1, f))
    case Err => Err
  }

  type Scanned = Result<(Kind, nat)>

  /** `scanIntOrFloat` */
  function ScanNumber(b: Text): (r: Scanned)
    requires b != []
    ensures r.Ok? ==> 1 <= r.value.1 <= |b|
  {
    if |b| > 2 && b[0] == '0' && b[1] != '.' && b[1] != 'e' && b[1] != 'E' then
      if b[1] == 'x' || b[1] == 'o' || b[1] == 'b' then Ok((Integer, 2 + RadixEnd(b[2..], b[1])))
      else Ok((Integer, 1))
    else
      match NumberEnd(b, false)
      case Err => Err
      case Ok((n, isFloat)) => if n == 0 then Err else Ok((if isFloat then Float else Integer, n))
  }

  datatype Seen = Seen(date: bool, time: bool, tz: bool, space: bool)

  /** The loop of `scanDateTime` from position i: where it stops and what it has seen. */
  function DateTimeEnd(b: Text, i: nat, s: Seen): (r: (nat, Seen))
    requires i <= |b|
    ensures i <= r.0 <= |b|
    decreases |b| - i
  {
    if i == |b| then (i, s)
    else
      var c := b[i];
      if IsDigit(c) then DateTimeEnd(b, i + 1, s)
      else if c == '-' then DateTimeEnd(b, i + 1, s.(date := true, tz := s.tz || i >= 8))
      else if c == 'T' || c == 't' || c == ':' || c == '.' then DateTimeEnd(b, i + 1, s.(time := true))
      else if c == '+' || c == 'Z' || c == 'z' then DateTimeEnd(b, i + 1, s.(tz := true))
      else if c == ' ' && !s.space && i + 1 < |b| && IsDigit(b[i + 1]) then
        DateTimeEnd(b, if i + 2 < |b| then i + 3 else i + 2, s.(space := true, time := true))
      else (i, s)
  }

  /** `scanDateTime` */
  function ScanDateTime(b: Text): (r: Scanned)
    requires b != [] && IsDigit(b[0])
    ensures r.Ok? ==> 1 <= r.value.1 <= |b|
  {
    var (n, s) := DateTimeEnd(b, 0, Seen(false, false, false, false));
    Ok((if s.time then if s.date then if s.tz then DateTime else LocalDateTime else LocalTime else LocalDate, n))
  }

  /** Does a time (a colon after two digits) or a date (a dash after four) start here? */
  predicate LooksLikeDateTime(b: Text) {
    || (|b| >= 3 && IsDigit(b[0]) && IsDigit(b[1]) && b[2] == ':')
    || (|b| >= 5 && IsDigit(b[0]) && IsDigit(b[1]) && IsDigit(b[2]) && IsDigit(b[3]) && b[4] == '-')
  }

  /** `parseIntOrFloatOrDateTime` */
  function ScanScalar(b: Text): (r: Scanned)
    requires b != []
    ensures r.Ok? ==> 1 <= r.value.1 <= |b|
  {
    if b[0] == 'i' then if Starts(b, "inf") then Ok((Float, 3)) else Err
    else if b[0] == 'n' then if Starts(b, "nan") then Ok((Float, 3)) else Err
    else if LooksLikeDateTime(b) then ScanDateTime(b)
    else ScanNumber(b)
  }

  // ---------- keys ----------

  /** `parseLiteralString` */
  function ParseLiteral(b: Text): (r: Parsed)
    requires b != []
    ensures r.Ok? ==> |r.value.1| < |b|
  {
    match LiteralEnd(b[1..])
    case Ok(n) => Ok((b[1..n], b[1 + n..]))
    case Err => Err
  }

  /** `parseMultilineLiteralString` */
  function ParseMultilineLiteral(b: Text): (r: Parsed)
    requires Starts(b, "'''")
    ensures r.Ok? ==> |r.value.1| < |b|
  {
    match MultilineLiteralEnd(b[3..])
    case Ok(n) =>
      var t := SkipNewline(b[3..3 + n]);
      Ok((t[..|t| - 3], b[3 + n..]))
    case Err => Err
  }

  /** `parseSimpleKey` */
  function ParseSimpleKey(b: Text): (r: Parsed)
    ensures r.Ok? ==> |r.value.1| < |b|
  {
    if b == [] then Err
    else if b[0] == '\'' then ParseLiteral(b)
    else if b[0] == '"' then ParseBasic(b)
    else if IsKeyChar(b[0]) then Ok((b[..KeyEnd(b)], b[KeyEnd(b)..]))
    else Err
  }

  /** The loop of `parseKey`: the parts behind the first. */
  function ParseKeyRest(b: Text): (r: Result<(seq<Text>, Text)>)
    ensures r.Ok? ==> |r.value.1| <= |b|
    decreases |b|
  {
    var b1 := SkipWs(b);
    if b1 != [] && b1[0] == '.' then
      match ParseSimpleKey(SkipWs(b1[1..]))
      case Err => Err
      case Ok((k, b2)) =>
        match ParseKeyRest(b2)
        case Err => Err
        case Ok((ks, rest)) => Ok(([k] + ks, rest))
    else Ok(([], b1))
  }

  /** `parseKey` */
  function ParseKey(b: Text): (r: Result<(seq<Text>, Text)>)
    ensures r.Ok? ==> |r.value.1| < |b| && r.value.0 != []
  {
    match ParseSimpleKey(b)
    case Err => Err
    case Ok((k, b1)) =>
      match ParseKeyRest(b1)
      case Err => Err
      case Ok((ks, rest)) => Ok(([k] + ks, rest))
  }

  // ---------- values ----------

  function LeafOf(kind: Kind, r: Parsed): Result<(Tree, Text)> {
    match r
    case Ok((s, rest)) => Ok((Leaf(kind, s), rest))
    case Err => Err
  }

  /** `parseVal` */
  function ParseVal(b: Text): (r: Result<(Tree, Text)>)
    ensures r.Ok? ==> |r.value.1| < |b|
    decreases |b|, 2
  {
    if b == [] then Err
    else if b[0] == '"' then LeafOf(String, ParseString(b))
    else if b[0] == '\'' then
      LeafOf(String, if Starts(b, "'''") then ParseMultilineLiteral(b) else ParseLiteral(b))
    else if b[0] == 't' then if Starts(b, "true") then Ok((Leaf(Bool, "true"), b[4..])) else Err
    else if b[0] == 'f' then if Starts(b, "false") then Ok((Leaf(Bool, "false"), b[5..])) else Err
    else if b[0] == '[' then
      match ParseElements(b[1..], true)
      case Ok((ts, rest)) => Ok((Array(ts), rest))
      case Err => Err
    else if b[0] == '{' then
      match ParsePairs(b[1..], true)
      case Ok((ps, rest)) => Ok((InlineTable(ps), rest))
      case Err => Err
    else
      match ScanScalar(b)
      case Ok((kind, n)) => Ok((Leaf(kind, b[..n]), b[n..]))
      case Err => Err
  }

  /** Up to an element of an array, past the comma it needs unless it is the first; empty at the closing bracket. */
  function ToElement(b: Text, first: bool): (r: Result<Text>)
    ensures r.Ok? ==> |r.value| <= |b|
  {
    match SkipLines(b)
    case Err => Err
    case Ok(b1) =>
      if b1 == [] then Err
      else if b1[0] == ']' then Ok(b1)
      else if b1[0] == ',' then if first then Err else SkipLines(b1[1..])
      else if first then Ok(b1) else Err
  }

  /** The loop of `parseValArray`. */
  function ParseElements(b: Text, first: bool): (r: Result<(seq<Tree>, Text)>)
    ensures r.Ok? ==> |r.value.1| < |b|
    decreases |b|, 3
  {
    match ToElement(b, first)
    case Err => Err
    case Ok(b1) =>
      if b1 != [] && b1[0] == ']' then Ok(([], b1[1..]))
      else
        match ParseVal(b1)
        case Err => Err
        case Ok((t, b2)) =>
          match SkipLines(b2)
          case Err => Err
          case Ok(b3) =>
            match ParseElements(b3, false)
            case Err => Err
            case Ok((ts, rest)) => Ok(([t] + ts, rest))
  }

  /** `parseKeyval` */
  function ParsePair(b: Text): (r: Result<(Pair, Text)>)
    ensures r.Ok? ==> |r.value.1| < |b|
    decreases |b|, 0
  {
    match ParseKey(b)
    case Err => Err
    case Ok((key, b1)) =>
      match Expect('=', SkipWs(b1))
      case Err => Err
      case Ok(b2) =>
        match ParseVal(SkipWs(b2))
        case Err => Err
        case Ok((v, rest)) => Ok((Pair(key, v), rest))
  }

  /** Up to a pair of an inline table, past the comma it needs unless it is the first; true at the closing brace. */
  function ToPair(b: Text, first: bool): (r: Result<(bool, Text)>)
    ensures r.Ok? ==> |r.value.1| <= |b| && (r.value.0 ==> r.value.1 != [])
  {
    var b1 := SkipWs(b);
    if b1 == [] then Err
    else if b1[0] == '}' then Ok((true, b1))
    else if first then Ok((false, b1))
    else
      match Expect(',', b1)
      case Err => Err
      case Ok(b2) => Ok((false, SkipWs(b2)))
  }

  /** The loop of `parseInlineTable`. */
  function ParsePairs(b: Text, first: bool): (r: Result<(seq<Pair>, Text)>)
    ensures r.Ok? ==> |r.value.1| < |b|
    decreases |b|, 1
  {
    match ToPair(b, first)
    case Err => Err
    case Ok((closed, b1)) =>
      if closed then Ok(([], b1[1..]))
      else
        match ParsePair(b1)
        case Err => Err
        case Ok((p, b2)) =>
          match ParsePairs(b2, false)
          case Err => Err
          case Ok((ps, rest)) => Ok(([p] + ps, rest))
  }

  // ---------- expressions and documents ----------

  datatype Expression =
    | KeyValue(pair: Pair)
    | TableHeader(key: seq<Text>)
    | ArrayTableHeader(key: seq<Text>)

  /** At most one expression of a line. */
  datatype Line = Nothing | Just(e: Expression)

  /** `parseTable` */
  function ParseHeader(b: Text): (r: Result<(Expression, Text)>)
    requires b != []
    ensures r.Ok? ==> |r.value.1| < |b|
  {
    var isArray := |b| > 1 && b[1] == '[';
    match ParseKey(SkipWs(b[if isArray then 2 else 1..]))
    case Err => Err
    case Ok((key, b1)) =>
      match Expect(']', SkipWs(b1))
      case Err => Err
      case Ok(b2) =>
        if !isArray then Ok((TableHeader(key), b2))
        else
          match Expect(']', b2)
          case Err => Err
          case Ok(b3) => Ok((ArrayTableHeader(key), b3))
  }

  /** `parseExpression` */
  function ParseLine(b: Text): (r: Result<(Line, Text)>)
    ensures r.Ok? ==> |r.value.1| <= |b| && (r.value.0.Just? ==> |r.value.1| < |b|)
  {
    var b1 := SkipWs(b);
    if b1 == [] || b1[0] == '\n' || b1[0] == '\r' then Ok((Nothing, b1))
    else if b1[0] == '#' then
      match SkipComment(b1)
      case Ok(b2) => Ok((Nothing, b2))
      case Err => Err
    else
      var e := if b1[0] == '[' then ParseHeader(b1) else
        match ParsePair(b1)
        case Ok((p, rest)) => Ok((KeyValue(p), rest))
        case Err => Err;
      match e
      case Err => Err
      case Ok((x, b2)) =>
        var b3 := SkipWs(b2);
        if b3 != [] && b3[0] == '#' then
          match SkipComment(b3)
          case Ok(b4) => Ok((Just(x), b4))
          case Err => Err
        else Ok((Just(x), b3))
  }

  /** `NextExpression`: the next expression, past the lines without one; Nothing at the end of the document. */
  function NextExpression(b: Text, first: bool): (r: Result<(Line, Text)>)
    ensures r.Ok? ==> |r.value.1| <= |b| && (r.value.0.Just? ==> |r.value.1| < |b|)
    decreases |b|, first
  {
    if b == [] then Ok((Nothing, []))
    else
      var b1 := if first then Ok(b) else SkipNewlineOrErr(b);
      match b1
      case Err => Err
      case Ok(b2) =>
        if b2 == [] then Ok((Nothing, []))
        else
          match ParseLine(b2)
          case Err => Err
          case Ok((Just(e), rest)) => Ok((Just(e), rest))
          case Ok((Nothing, rest)) => NextExpression(rest, false)
  }

  /** All expressions of a document, by calling NextExpression until it finds no more. */
  function ParseDocument(b: Text, first: bool): Result<seq<Expression>>
    decreases |b|
  {
    match NextExpression(b, first)
    case Err => Err
    case Ok((Nothing, _)) => Ok([])
    case Ok((Just(e), rest)) =>
      match ParseDocument(rest, false)
      case Err => Err
      case Ok(es) => Ok([e] + es)
  }
}
