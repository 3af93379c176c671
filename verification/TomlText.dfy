/**
  Bytes, UTF-8 and the lexical scanners of utoml (internal/characters, unstable/scanner.go,
  and the string decoders of unstable/parser.go), as functions on what is left of the input.
  A byte is a character below 256.
*/
module TomlText {

  type Text = seq<char>

  datatype Result<+T> = Ok(value: T) | Err

  predicate IsDigit(c: char) {
    '0' <= c <= '9'
  }

  // ---------- UTF-8, section 4 of RFC 3629 ----------

  /** Control characters that TOML text must escape: all but tab, line feed and carriage return. */
  predicate InvalidAscii(c: char) {
    c <= '\U{8}' || '\U{b}' <= c <= '\U{c}' || '\U{e}' <= c <= '\U{1f}' || c == '\U{7f}'
  }

  /** For a non-ASCII lead byte: the length of its rune and the range of its second byte; length 0 if illegal. */
  function Lead(c: char): (nat, char, char) {
    if '\U{c2}' <= c <= '\U{df}' then (2, '\U{80}', '\U{bf}')
    else if c == '\U{e0}' then (3, '\U{a0}', '\U{bf}')
    else if c == '\U{ed}' then (3, '\U{80}', '\U{9f}')
    else if '\U{e1}' <= c <= '\U{ef}' then (3, '\U{80}', '\U{bf}')
    else if c == '\U{f0}' then (4, '\U{90}', '\U{bf}')
    else if '\U{f1}' <= c <= '\U{f3}' then (4, '\U{80}', '\U{bf}')
    else if c == '\U{f4}' then (4, '\U{80}', '\U{8f}')
    else (0, '\U{80}', '\U{bf}')
  }

  predicate IsContinuation(c: char) {
    '\U{80}' <= c <= '\U{bf}'
  }

  /** The size of the UTF-8 encoded rune at the front, or 0 if there is none. */
  function RuneSize(b: Text): (n: nat)
    requires b != []
    ensures n <= 4 && n <= |b|
  {
    if b[0] < '\U{80}' then 1
    else
      var (size, lo, hi) := Lead(b[0]);
      if size == 0 || |b| < size then 0
      else if !(lo <= b[1] <= hi) then 0
      else if size >= 3 && !IsContinuation(b[2]) then 0
      else if size == 4 && !IsContinuation(b[3]) then 0
      else size
  }

  predicate ValidUtf8(s: Text)
  {
    s == [] || (RuneSize(s) > 0 && ValidUtf8(s[RuneSize(s)..]))
  }

  /** `Utf8ValidNext`: like RuneSize, but refusing control characters. */
  function ValidNext(b: Text): (n: nat)
    requires b != []
    ensures n <= 4 && n <= |b|
  {
    if b[0] < '\U{80}' && InvalidAscii(b[0]) then 0 else RuneSize(b)
  }

  /** Every rune of the text is valid. */
  predicate TomlValid(s: Text)
  {
    s == [] || (ValidNext(s) > 0 && TomlValid(s[ValidNext(s)..]))
  }

  // ---------- runes and hex digits ----------

  function HexValue(c: char): Result<nat> {
    if '0' <= c <= '9' then Ok(c as int - '0' as int)
    else if 'a' <= c <= 'f' then Ok(c as int - 'a' as int + 10)
    else if 'A' <= c <= 'F' then Ok(c as int - 'A' as int + 10)
    else Err
  }

  /** The number written by hex digits, most significant first. */
  function HexNumber(b: Text): Result<nat>
  {
    if b == [] then Ok(0)
    else
      match (HexNumber(b[..|b| - 1]), HexValue(b[|b| - 1]))
      case (Ok(n), Ok(d)) => Ok(16 * n + d)
      case _ => Err
  }

  /** `hexToRune`: a Unicode scalar value from the first n bytes. */
  function HexToRune(b: Text, n: nat): Result<nat> {
    if |b| < n then Err
    else
      match HexNumber(b[..n])
      case Ok(r) => if r > 0x10FFFF || 0xD800 <= r < 0xE000 then Err else Ok(r)
      case Err => Err
  }

  function Byte(n: nat): char
    requires n < 256
  {
    n as char
  }

  /** `WriteRune`: the UTF-8 encoding of a Unicode scalar value. */
  function WriteRune(r: nat): Text
    requires r <= 0x10FFFF
  {
    if r < 0x80 then [Byte(r)]
    else if r < 0x800 then [Byte(0xC0 + r / 64), Byte(0x80 + r % 64)]
    else if r < 0x10000 then [Byte(0xE0 + r / 4096), Byte(0x80 + r / 64 % 64), Byte(0x80 + r % 64)]
    else [Byte(0xF0 + r / 262144), Byte(0x80 + r / 4096 % 64), Byte(0x80 + r / 64 % 64), Byte(0x80 + r % 64)]
  }

  // ---------- scanning for the end of a token ----------

  function Plus(n: nat, r: Result<nat>): Result<nat> {
    match r
    case Ok(k) => Ok(n + k)
    case Err => Err
  }

  /** `scanBasicString` after the opening quote: the number of bytes up to and with the closing one. */
  function BasicEnd(b: Text): (r: Result<nat>)
    ensures r.Ok? ==> 1 <= r.value <= |b| && b[r.value - 1] == '"'
  {
    if b == [] then Err
    else if b[0] == '"' then Ok(1)
    else if b[0] == '\n' || b[0] == '\r' then Err
    else if b[0] == '\\' then
      if |b| < 2 then Err else Plus(2, BasicEnd(b[2..]))
    else Plus(1, BasicEnd(b[1..]))
  }

  predicate Starts(b: Text, prefix: Text) {
    |prefix| <= |b| && b[..|prefix|] == prefix
  }

  /** Three closing quotes, and up to two more that belong to the string. */
  function ClosingQuotes(b: Text, quote: char): (r: Result<nat>)
    requires Starts(b, [quote, quote, quote])
    ensures r.Ok? ==> 3 <= r.value <= |b|
  {
    if |b| <= 3 || b[3] != quote then Ok(3)
    else if |b| <= 4 || b[4] != quote then Ok(4)
    else if |b| <= 5 || b[5] != quote then Ok(5)
    else Err
  }

  /** `scanMultilineBasicString` after the opening quotes. */
  function MultilineEnd(b: Text): (r: Result<nat>)
    ensures r.Ok? ==> 3 <= r.value <= |b|
  {
    if b == [] then Err
    else if b[0] == '"' && Starts(b, "\"\"\"") then ClosingQuotes(b, '"')
    else if b[0] == '\\' then
      if |b| < 2 then Err else Plus(2, MultilineEnd(b[2..]))
    else if b[0] == '\r' then
      if |b| < 2 || b[1] != '\n' then Err else Plus(2, MultilineEnd(b[2..]))
    else Plus(1, MultilineEnd(b[1..]))
  }

  /** `scanLiteralString` after the opening quote. */
  function LiteralEnd(b: Text): (r: Result<nat>)
    ensures r.Ok? ==> 1 <= r.value <= |b|
  {
    if b == [] then Err
    else if b[0] == '\'' then Ok(1)
    else if b[0] == '\n' || b[0] == '\r' || ValidNext(b) == 0 then Err
    else Plus(ValidNext(b), LiteralEnd(b[ValidNext(b)..]))
  }

  /** `scanMultilineLiteralString` after the opening quotes. */
  function MultilineLiteralEnd(b: Text): (r: Result<nat>)
    ensures r.Ok? ==> 3 <= r.value <= |b|
  {
    if b == [] then Err
    else if b[0] == '\'' && Starts(b, "'''") then ClosingQuotes(b, '\'')
    else if b[0] == '\r' then
      if |b| < 2 || b[1] != '\n' then Err else Plus(2, MultilineLiteralEnd(b[2..]))
    else if ValidNext(b) == 0 then Err
    else Plus(ValidNext(b), MultilineLiteralEnd(b[ValidNext(b)..]))
  }

  /** `scanComment` after the '#': the number of bytes before the line end, a carriage return included. */
  function CommentEnd(b: Text): (r: Result<nat>)
    ensures r.Ok? ==> r.value <= |b|
  {
    if b == [] then Ok(0)
    else if b[0] == '\n' then Ok(0)
    else if b[0] == '\r' then
      if |b| > 1 && b[1] == '\n' then Ok(1) else Err
    else if ValidNext(b) == 0 then Err
    else Plus(ValidNext(b), CommentEnd(b[ValidNext(b)..]))
  }

  predicate IsWs(c: char) {
    c == ' ' || c == '\t'
  }

  /** `scanWhitespace`: the length of the blank prefix. */
  function WsEnd(b: Text): (n: nat)
    ensures n <= |b|
  {
    if b == [] || !IsWs(b[0]) then 0 else 1 + WsEnd(b[1..])
  }

  predicate IsKeyChar(c: char) {
    'A' <= c <= 'Z' || 'a' <= c <= 'z' || '0' <= c <= '9' || c == '-' || c == '_'
  }

  /** `scanUnquotedKey`: the length of the bare key in front. */
  function KeyEnd(b: Text): (n: nat)
    ensures n <= |b|
  {
    if b == [] || !IsKeyChar(b[0]) then 0 else 1 + KeyEnd(b[1..])
  }

  // ---------- decoding string bodies ----------

  function Prepend(a: Text, r: Result<Text>): Result<Text> {
    match r
    case Ok(s) => Ok(a + s)
    case Err => Err
  }

  /** The byte a one-letter escape stands for. */
  function SimpleEscape(c: char): Result<char> {
    match c
    case '"' => Ok('"')
    case '\\' => Ok('\\')
    case 'b' => Ok('\U{8}')
    case 'f' => Ok('\U{c}')
    case 'n' => Ok('\n')
    case 'r' => Ok('\r')
    case 't' => Ok('\t')
    case 'e' => Ok('\U{1b}')
    case _ => Err
  }

  /**
    The decoding loop of `parseBasicString` on what is left of a token, its closing quote included.
  */
  function DecodeBasic(t: Text): Result<Text>
  {
    if |t| <= 1 then Ok([])
    else if t[0] == '\\' then
      if SimpleEscape(t[1]).Ok? then Prepend([SimpleEscape(t[1]).value], DecodeBasic(t[2..]))
      else if (t[1] == 'u' || t[1] == 'U') && |t| > 2 then
        var n := if t[1] == 'u' then 4 else 8;
        match HexToRune(t[2..|t| - 1], n)
        case Ok(r) => Prepend(WriteRune(r), DecodeBasic(t[2 + n..]))
        case Err => Err
      else Err
    else if ValidNext(t) == 0 then Err
    else Prepend(t[..ValidNext(t)], DecodeBasic(t[ValidNext(t)..]))
  }

  /** From a backslash: the position of the newline if only blanks stand before it (`findEOLLoop`). */
  function LineEndAfter(t: Text, j: nat): (r: Result<nat>)
    ensures r.Ok? ==> j <= r.value < |t|
    decreases |t| - j
  {
    if j + 3 >= |t| then Err
    else if t[j] == ' ' || t[j] == '\t' || (t[j] == '\r' && t[j + 1] == '\n') then LineEndAfter(t, j + 1)
    else if t[j] == '\n' then Ok(j)
    else Err
  }

  predicate IsBlank(c: char) {
    c == '\n' || c == '\r' || c == ' ' || c == '\t'
  }

  /** The rest of the token after a line continuation: blanks and newlines are trimmed. */
  function TrimBlanks(t: Text): (u: Text)
    ensures |u| <= |t|
  {
    if |t| <= 3 || !IsBlank(t[0]) then t else TrimBlanks(t[1..])
  }

  /** The decoding loop of `parseMultilineBasicString`, the three closing quotes included. */
  function DecodeMultiline(t: Text): Result<Text>
    decreases |t|
  {
    if |t| <= 3 then Ok([])
    else if t[0] == '\\' then
      if LineEndAfter(t, 1).Ok? then DecodeMultiline(TrimBlanks(t[LineEndAfter(t, 1).value..]))
      else if SimpleEscape(t[1]).Ok? then Prepend([SimpleEscape(t[1]).value], DecodeMultiline(t[2..]))
      else if t[1] == 'u' || t[1] == 'U' then
        var n := if t[1] == 'u' then 4 else 8;
        match HexToRune(t[2..], n)
        case Ok(r) => Prepend(WriteRune(r), DecodeMultiline(t[2 + n..]))
        case Err => Err
      else Err
    else if ValidNext(t) == 0 then Err
    else Prepend(t[..ValidNext(t)], DecodeMultiline(t[ValidNext(t)..]))
  }
}
