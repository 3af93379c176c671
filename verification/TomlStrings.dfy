/**
  Quoted strings: what `encodeQuotedString` writes, `parseBasicString` and
  `parseMultilineBasicString` read back, for every valid UTF-8 string.
*/
module TomlStrings {
  import opened TomlText

  // ---------- printing ----------

  function HexDigit(n: nat): char
    requires n < 16
  {
    "0123456789ABCDEF"[n]
  }

  /** What `encodeQuotedString` writes for one byte. */
  function EscapeByte(multiline: bool, c: char): Text {
    if c == '\\' then "\\\\"
    else if c == '"' then "\\\""
    else if c == '\U{8}' then "\\b"
    else if c == '\U{c}' then "\\f"
    else if c == '\n' then if multiline then "\n" else "\\n"
    else if c == '\r' then "\\r"
    else if c == '\t' then "\\t"
    else if c <= '\U{8}' || '\n' <= c <= '\U{1f}' || c == '\U{7f}' then
      "\\u00" + [HexDigit(c as int / 16), HexDigit(c as int % 16)]
    else [c]
  }

  function Escape(multiline: bool, v: Text): Text {
    if v == [] then [] else EscapeByte(multiline, v[0]) + Escape(multiline, v[1..])
  }

  function Quoted(multiline: bool, v: Text): Text {
    if multiline then "\"\"\"\n" + Escape(true, v) + "\"\"\"" else "\"" + Escape(false, v) + "\""
  }

  // ---------- parsing ----------

  predicate HasBackslash(b: Text) {
    exists i :: 0 <= i < |b| && b[i] == '\\'
  }

  /** A decoded string and the text behind it. */
  type Parsed = Result<(Text, Text)>

  /** `parseBasicString`: the fast path returns the bytes as they stand, if they are valid. */
  function ParseBasic(b: Text): (r: Parsed)
    requires b != []
    ensures r.Ok? ==> |r.value.1| < |b|
  {
    match BasicEnd(b[1..])
    case Err => Err
    case Ok(n) =>
      var token, rest := b[..1 + n], b[1 + n..];
      var body := token[1..n];
      if !HasBackslash(body) then
        if TomlValid(body) then Ok((body, rest)) else Err
      else
        match DecodeBasic(token[1..])
        case Ok(s) => Ok((s, rest))
        case Err => Err
  }

  /** The newline that may follow the opening quotes. */
  function SkipNewline(t: Text): (u: Text)
    ensures |u| <= |t|
  {
    if |t| > 0 && t[0] == '\n' then t[1..]
    else if |t| > 1 && t[0] == '\r' && t[1] == '\n' then t[2..]
    else t
  }

  /** `parseMultilineBasicString` */
  function ParseMultiline(b: Text): (r: Parsed)
    requires Starts(b, "\"\"\"")
    ensures r.Ok? ==> |r.value.1| < |b|
  {
    match MultilineEnd(b[3..])
    case Err => Err
    case Ok(n) =>
      var token, rest := b[..3 + n], b[3 + n..];
      var t := SkipNewline(token[3..]);
      if !HasBackslash(token) then
        if TomlValid(t[..|t| - 3]) then Ok((t[..|t| - 3], rest)) else Err
      else
        match DecodeMultiline(t)
        case Ok(s) => Ok((s, rest))
        case Err => Err
  }

  // ---------- one byte ----------

  /** The bytes that are written as they stand. */
  predicate Plain(multiline: bool, c: char) {
    EscapeByte(multiline, c) == [c]
  }

  lemma PlainBytes(multiline: bool, c: char)
    ensures Plain(multiline, c) ==>
      c != '"' && c != '\\' && c != '\r' && (c == '\n' ==> multiline) && !(c < '\U{80}' && InvalidAscii(c))
    ensures !Plain(multiline, c) ==>
      |EscapeByte(multiline, c)| >= 2 && EscapeByte(multiline, c)[0] == '\\' && c < '\U{80}'
    ensures c >= '\U{80}' ==> Plain(multiline, c)
  {
  }

  /** An escaped byte is a backslash with a letter for it, or a code of six bytes. */
  lemma EscapeShape(multiline: bool, c: char)
    requires !Plain(multiline, c)
    ensures var e := EscapeByte(multiline, c);
      && (|e| == 2 || |e| == 6)
      && (|e| == 2 ==> e == ['\\', e[1]] && SimpleEscape(e[1]) == Ok(c) && !IsBlank(e[1]))
      && (|e| == 6 ==> e == EscapeByte(false, c) && e == "\\u" + e[2..])
  {
  }

  lemma BasicEndByte(c: char, x: Text)
    ensures BasicEnd(EscapeByte(false, c) + x) == Plus(|EscapeByte(false, c)|, BasicEnd(x))
  {
    var e := EscapeByte(false, c);
    PlainBytes(false, c);
    if |e| == 1 {
      assert (e + x)[1..] == x;
    } else {
      assert (e + x)[2..] == e[2..] + x;
      if |e| == 6 { PlainHex(e[2..], x); }
    }
  }

  lemma PlainByteEnds(b: Text)
    requires b != [] && b[0] != '"' && b[0] != '\\' && b[0] != '\n' && b[0] != '\r'
    ensures BasicEnd(b) == Plus(1, BasicEnd(b[1..])) && MultilineEnd(b) == Plus(1, MultilineEnd(b[1..]))
  {
    hide Plus;
  }

  lemma TailOf(h: Text, x: Text)
    requires h != []
    ensures (h + x)[0] == h[0] && (h + x)[1..] == h[1..] + x
  {
  }

  lemma HexIsPlain(c: char)
    requires HexValue(c).Ok?
    ensures c != '"' && c != '\\' && c != '\n' && c != '\r'
  {
  }

  lemma {:induction false} PlainHex(h: Text, x: Text)
    requires forall i :: 0 <= i < |h| ==> HexValue(h[i]).Ok?
    ensures BasicEnd(h + x) == Plus(|h|, BasicEnd(x)) && MultilineEnd(h + x) == Plus(|h|, MultilineEnd(x))
  {
    hide BasicEnd, MultilineEnd, HexValue;
    if h == [] {
      assert h + x == x;
    } else {
      TailOf(h, x);
      HexIsPlain(h[0]);
      PlainByteEnds(h + x);
      PlainHex(h[1..], x);
    }
  }

  lemma MultilineEndByte(c: char, x: Text)
    ensures MultilineEnd(EscapeByte(true, c) + x) == Plus(|EscapeByte(true, c)|, MultilineEnd(x))
  {
    var e := EscapeByte(true, c);
    PlainBytes(true, c);
    if |e| == 1 {
      assert (e + x)[1..] == x;
    } else {
      assert (e + x)[2..] == e[2..] + x;
      if |e| == 6 { PlainHex(e[2..], x); }
    }
  }

  /** The decoders undo the escape of an ASCII byte. */
  lemma DecodeAsciiByte(c: char, x: Text)
    requires c < '\U{80}' && x != []
    ensures DecodeBasic(EscapeByte(false, c) + x) == Prepend([c], DecodeBasic(x))
  {
    hide HexToRune, WriteRune, Lead;
    var e := EscapeByte(false, c);
    PlainBytes(false, c);
    if |e| == 1 {
      assert (e + x)[..1] == [c] && (e + x)[1..] == x;
    } else if |e| == 2 {
      assert (e + x)[2..] == x;
    } else {
      DecodeUnicodeEscape(c, e[2..], x);
      assert e + x == "\\u" + e[2..] + x;
    }
  }

  lemma DecodeUnicodeEscape(c: char, h: Text, x: Text)
    requires c < '\U{80}' && x != [] && |EscapeByte(false, c)| == 6 && h == EscapeByte(false, c)[2..]
    ensures DecodeBasic("\\u" + h + x) == Prepend([c], DecodeBasic(x))
  {
    hide EscapeByte, HexNumber, WriteRune, ValidNext;
    ControlByte(c);
    var t := "\\u" + h + x;
    assert t[2..|t| - 1][..4] == h && t[6..] == x;
  }

  lemma ControlByte(c: char)
    requires c < '\U{80}' && |EscapeByte(false, c)| == 6
    ensures HexNumber(EscapeByte(false, c)[2..]) == Ok(c as int) && WriteRune(c as int) == [c]
  {
    var h := EscapeByte(false, c)[2..];
    assert h == ['0', '0', HexDigit(c as int / 16), HexDigit(c as int % 16)];
    assert h[..3] == ['0', '0', HexDigit(c as int / 16)] && h[..2] == ['0', '0'] && h[..1] == ['0'];
    HexDigits(c as int / 16);
    HexDigits(c as int % 16);
    assert h[..3][..2] == ['0', '0'] && h[..2][..1] == ['0'];
    assert HexNumber(['0']) == Ok(0) && HexNumber(['0', '0']) == Ok(0);
  }

  lemma HexDigits(n: nat)
    requires n < 16
    ensures HexValue(HexDigit(n)) == Ok(n)
  {
  }

  lemma DecodeMultilineAscii(c: char, x: Text)
    requires c < '\U{80}' && |x| >= 3
    ensures DecodeMultiline(EscapeByte(true, c) + x) == Prepend([c], DecodeMultiline(x))
  {
    hide HexToRune, WriteRune, Lead, EscapeByte, SimpleEscape;
    var e := EscapeByte(true, c);
    PlainBytes(true, c);
    if Plain(true, c) {
      assert (e + x)[..1] == [c] && (e + x)[1..] == x;
    } else {
      EscapeShape(true, c);
      if |e| == 2 {
        assert (e + x)[2..] == x;
        assert LineEndAfter(e + x, 1).Err?;
      } else {
        DecodeMultilineUnicode(c, e[2..], x);
      }
    }
  }

  lemma DecodeMultilineUnicode(c: char, h: Text, x: Text)
    requires c < '\U{80}' && |x| >= 3 && |EscapeByte(false, c)| == 6 && h == EscapeByte(false, c)[2..]
    ensures DecodeMultiline("\\u" + h + x) == Prepend([c], DecodeMultiline(x))
  {
    hide EscapeByte, HexNumber, WriteRune, ValidNext;
    ControlByte(c);
    var t := "\\u" + h + x;
    assert t[2..][..4] == h && t[6..] == x;
    assert LineEndAfter(t, 1).Err?;
  }

  // ---------- one rune ----------

  /** A rune of several bytes is written as it stands and recognised whatever follows. */
  lemma LongRune(multiline: bool, v: Text, y: Text)
    requires v != [] && RuneSize(v) > 1
    ensures var n := RuneSize(v);
      && v[0] >= '\U{80}'
      && Escape(multiline, v) == v[..n] + Escape(multiline, v[n..])
      && ValidNext(v[..n] + y) == n
  {
    var n := RuneSize(v);
    forall i | 0 <= i < n ensures v[i] >= '\U{80}' {
    }
    EscapePlain(multiline, v, n);
    assert forall i :: 0 <= i < n ==> (v[..n] + y)[i] == v[i];
  }

  lemma {:induction false} EscapePlain(multiline: bool, v: Text, n: nat)
    requires n <= |v| && forall i :: 0 <= i < n ==> Plain(multiline, v[i])
    ensures Escape(multiline, v) == v[..n] + Escape(multiline, v[n..])
  {
    hide EscapeByte;
    if n == 0 {
      assert v[n..] == v;
    } else {
      EscapePlain(multiline, v[1..], n - 1);
      assert v[1..][..n - 1] == v[1..n] && v[1..][n - 1..] == v[n..];
      assert v[..n] == [v[0]] + v[1..n];
    }
  }

  // ---------- whole strings ----------

  /** The scanners find the closing quote of any escaped text. */
  lemma {:induction false} BasicEndEscaped(v: Text, rest: Text)
    ensures BasicEnd(Escape(false, v) + "\"" + rest) == Ok(|Escape(false, v)| + 1)
  {
    hide EscapeByte;
    if v == [] {
      assert Escape(false, v) + "\"" + rest == "\"" + rest;
    } else {
      var x := Escape(false, v[1..]) + "\"" + rest;
      assert Escape(false, v) + "\"" + rest == EscapeByte(false, v[0]) + x;
      BasicEndByte(v[0], x);
      BasicEndEscaped(v[1..], rest);
    }
  }

  lemma {:induction false} MultilineEndEscaped(v: Text, rest: Text)
    requires rest == [] || rest[0] != '"'
    ensures MultilineEnd(Escape(true, v) + "\"\"\"" + rest) == Ok(|Escape(true, v)| + 3)
  {
    hide EscapeByte;
    if v == [] {
      assert Escape(true, v) + "\"\"\"" + rest == "\"\"\"" + rest;
    } else {
      var x := Escape(true, v[1..]) + "\"\"\"" + rest;
      assert Escape(true, v) + "\"\"\"" + rest == EscapeByte(true, v[0]) + x;
      MultilineEndByte(v[0], x);
      MultilineEndEscaped(v[1..], rest);
    }
  }

  /** The decoding loops undo the escaping of valid UTF-8. */
  lemma {:induction false} DecodeEscaped(v: Text)
    requires ValidUtf8(v)
    ensures DecodeBasic(Escape(false, v) + "\"") == Ok(v)
  {
    hide EscapeByte, ValidNext;
    if v != [] {
      var n := RuneSize(v);
      var x := Escape(false, v[n..]) + "\"";
      DecodeEscaped(v[n..]);
      assert v[..n] + v[n..] == v;
      if n == 1 {
        AsciiRune(v);
        assert Escape(false, v) + "\"" == EscapeByte(false, v[0]) + x;
        DecodeAsciiByte(v[0], x);
        assert v[..n] == [v[0]];
      } else {
        LongRune(false, v, x);
        assert Escape(false, v) + "\"" == v[..n] + x;
        assert (v[..n] + x)[..n] == v[..n] && (v[..n] + x)[n..] == x;
      }
    }
  }

  lemma AsciiRune(v: Text)
    requires v != [] && RuneSize(v) == 1
    ensures v[0] < '\U{80}'
  {
  }

  lemma {:induction false} DecodeMultilineEscaped(v: Text)
    requires ValidUtf8(v)
    ensures DecodeMultiline(Escape(true, v) + "\"\"\"") == Ok(v)
  {
    hide EscapeByte, ValidNext, LineEndAfter;
    if v != [] {
      var n := RuneSize(v);
      var x := Escape(true, v[n..]) + "\"\"\"";
      DecodeMultilineEscaped(v[n..]);
      assert v[..n] + v[n..] == v;
      if n == 1 {
        AsciiRune(v);
        assert Escape(true, v) + "\"\"\"" == EscapeByte(true, v[0]) + x;
        DecodeMultilineAscii(v[0], x);
        assert v[..n] == [v[0]];
      } else {
        LongRune(true, v, x);
        assert Escape(true, v) + "\"\"\"" == v[..n] + x;
        assert (v[..n] + x)[..n] == v[..n] && (v[..n] + x)[n..] == x;
      }
    }
  }

  lemma NoBackslashIn(e: Text, x: Text)
    requires !HasBackslash(e + x)
    ensures !HasBackslash(e) && !HasBackslash(x)
  {
    assert forall i :: 0 <= i < |e| ==> e[i] == (e + x)[i];
    assert forall i :: 0 <= i < |x| ==> x[i] == (e + x)[|e| + i];
  }

  lemma ValidRune(v: Text)
    requires ValidUtf8(v) && v != []
    ensures RuneSize(v) > 0 && ValidUtf8(v[RuneSize(v)..])
    ensures ValidNext(v) > 0 && TomlValid(v[RuneSize(v)..]) ==> TomlValid(v)
  {
    hide RuneSize;
  }

  /** The fast path is taken only when nothing was escaped, and then the bytes are valid. */
  lemma {:induction false} UnescapedIsPlain(multiline: bool, v: Text)
    requires ValidUtf8(v) && !HasBackslash(Escape(multiline, v))
    ensures Escape(multiline, v) == v && TomlValid(v)
  {
    hide EscapeByte, RuneSize, ValidUtf8, TomlValid, HasBackslash;
    if v == [] {
      EmptyIsFine(v);
    } else {
      ValidRune(v);
      var n := RuneSize(v);
      if n == 1 {
        AsciiRune(v);
        NoBackslashIn(EscapeByte(multiline, v[0]), Escape(multiline, v[1..]));
        PlainFirst(multiline, v[0]);
        assert v == [v[0]] + v[1..];
      } else {
        LongRune(multiline, v, []);
        assert v[..n] + [] == v[..n];
        NoBackslashIn(v[..n], Escape(multiline, v[n..]));
        LongRune(multiline, v, v[n..]);
        assert v[..n] + v[n..] == v;
      }
      UnescapedIsPlain(multiline, v[n..]);
      PlainIsValid(v);
    }
  }

  lemma EmptyIsFine(v: Text)
    requires v == []
    ensures TomlValid(v)
  {
  }

  /** A byte whose escape has no backslash is written as it stands. */
  lemma PlainFirst(multiline: bool, c: char)
    requires !HasBackslash(EscapeByte(multiline, c))
    ensures EscapeByte(multiline, c) == [c] && !(c < '\U{80}' && InvalidAscii(c))
  {
    PlainBytes(multiline, c);
  }

  lemma PlainIsValid(v: Text)
    requires v != [] && RuneSize(v) > 0 && !(v[0] < '\U{80}' && InvalidAscii(v[0]))
    ensures ValidNext(v) == RuneSize(v)
  {
    hide RuneSize;
  }

  // ---------- round trips ----------

  lemma BasicRoundTrip(v: Text, rest: Text)
    requires ValidUtf8(v)
    ensures ParseBasic(Quoted(false, v) + rest) == Ok((v, rest))
  {
    hide Escape, DecodeBasic, BasicEnd, TomlValid, HasBackslash;
    var e, b := Escape(false, v), Quoted(false, v) + rest;
    assert b[1..] == e + "\"" + rest;
    BasicEndEscaped(v, rest);
    var n := |e| + 1;
    assert b[..1 + n][1..n] == e && b[..1 + n][1..] == e + "\"" && b[1 + n..] == rest;
    if HasBackslash(e) {
      DecodeEscaped(v);
    } else {
      UnescapedIsPlain(false, v);
    }
  }

  lemma MultilineRoundTrip(v: Text, rest: Text)
    requires ValidUtf8(v) && (rest == [] || rest[0] != '"')
    ensures ParseMultiline(Quoted(true, v) + rest) == Ok((v, rest))
  {
    hide Escape, DecodeMultiline, MultilineEnd, TomlValid, HasBackslash, Quoted;
    var e, b := Escape(true, v), Quoted(true, v) + rest;
    MultilineEndEscaped(v, rest);
    MultilineLayout(e, rest);
    assert b == "\"\"\"\n" + e + "\"\"\"" + rest by { QuotedLines(v); }
    if HasBackslash(e) {
      DecodeMultilineEscaped(v);
    } else {
      UnescapedIsPlain(true, v);
    }
  }

  lemma QuotedLines(v: Text)
    ensures Quoted(true, v) == "\"\"\"\n" + Escape(true, v) + "\"\"\""
  {
  }

  /** Where the pieces of a printed multiline string lie. */
  lemma MultilineLayout(e: Text, rest: Text)
    requires MultilineEnd(e + "\"\"\"" + rest) == Ok(|e| + 3)
    ensures var b := "\"\"\"\n" + e + "\"\"\"" + rest; var n := |e| + 4; var t := e + "\"\"\"";
      && |b| >= 3 + n && MultilineEnd(b[3..]) == Ok(n) && b[3 + n..] == rest
      && SkipNewline(b[..3 + n][3..]) == t && t[..|t| - 3] == e
      && (HasBackslash(b[..3 + n]) <==> HasBackslash(e))
  {
    hide MultilineEnd;
    var q := "\"\"\"";
    var b, n := "\"\"\"\n" + e + q + rest, |e| + 4;
    assert b[3..] == "\n" + (e + q + rest);
    NewlineFirst(e + q + rest);
    assert b[..3 + n] == "\"\"\"\n" + e + q;
    assert b[..3 + n][3..] == "\n" + (e + q);
    Backslashes("\"\"\"\n", e, q);
  }

  lemma NewlineFirst(x: Text)
    ensures MultilineEnd("\n" + x) == Plus(1, MultilineEnd(x))
  {
    assert ("\n" + x)[1..] == x;
  }

  lemma Backslashes(a: Text, e: Text, z: Text)
    requires !HasBackslash(a) && !HasBackslash(z)
    ensures HasBackslash(a + e + z) <==> HasBackslash(e)
  {
    var t := a + e + z;
    forall i | 0 <= i < |e| ensures t[|a| + i] == e[i] { }
  }

  /** The string case of `parseVal`, which looks for three quotes first. */
  function ParseString(b: Text): (r: Parsed)
    requires b != []
    ensures r.Ok? ==> |r.value.1| < |b|
  {
    if Starts(b, "\"\"\"") then ParseMultiline(b) else ParseBasic(b)
  }

  /** A quote behind the printed string is taken for part of it, unless the string is a nonempty single-line one. */
  predicate QuoteIntrudes(multiline: bool, v: Text, rest: Text) {
    rest != [] && rest[0] == '"' && (multiline || v == [])
  }

  /** A printed string is read back, with exactly the text behind it left, just when no quote intrudes. */
  lemma StringRoundTrip(multiline: bool, v: Text, rest: Text)
    requires ValidUtf8(v)
    ensures ParseString(Quoted(multiline, v) + rest) == Ok((v, rest)) <==> !QuoteIntrudes(multiline, v, rest)
  {
    hide ParseBasic, ParseMultiline, Escape;
    var b := Quoted(multiline, v) + rest;
    if multiline {
      assert Starts(b, "\"\"\"");
      if QuoteIntrudes(multiline, v, rest) {
        IntrudedMultiline(v, rest);
      } else {
        MultilineRoundTrip(v, rest);
      }
    } else {
      FirstEscaped(v);
      if QuoteIntrudes(multiline, v, rest) {
        assert Starts(b, "\"\"\"");
        ConsumesSix(b);
      } else {
        assert b[0] == '"' && (v != [] ==> b[1] == Escape(false, v)[0]);
        assert v == [] && rest != [] ==> b[2] == rest[0];
        assert !Starts(b, "\"\"\"");
        BasicRoundTrip(v, rest);
      }
    }
  }

  lemma FirstEscaped(v: Text)
    ensures v == [] ==> Escape(false, v) == []
    ensures v != [] ==> Escape(false, v) != [] && Escape(false, v)[0] != '"'
  {
    if v != [] { PlainBytes(false, v[0]); }
  }

  lemma ConsumesSix(b: Text)
    requires Starts(b, "\"\"\"")
    ensures ParseMultiline(b).Ok? ==> |ParseMultiline(b).value.1| + 6 <= |b|
  {
  }

  lemma IntrudedMultiline(v: Text, rest: Text)
    requires rest != [] && rest[0] == '"'
    ensures var r := ParseMultiline(Quoted(true, v) + rest); r.Ok? ==> |r.value.1| < |rest|
  {
    hide Escape, DecodeMultiline, MultilineEnd, TomlValid, HasBackslash;
    var e, b := Escape(true, v), Quoted(true, v) + rest;
    assert b[3..] == "\n" + (e + "\"\"\"" + rest);
    IntrudedEnd(v, rest);
    NewlineFirst(e + "\"\"\"" + rest);
  }

  lemma {:induction false} IntrudedEnd(v: Text, rest: Text)
    requires rest != [] && rest[0] == '"'
    ensures var r := MultilineEnd(Escape(true, v) + "\"\"\"" + rest); r.Ok? ==> r.value > |Escape(true, v)| + 3
  {
    hide EscapeByte;
    if v == [] {
      assert Escape(true, v) + "\"\"\"" + rest == "\"\"\"" + rest;
    } else {
      var x := Escape(true, v[1..]) + "\"\"\"" + rest;
      assert Escape(true, v) + "\"\"\"" + rest == EscapeByte(true, v[0]) + x;
      MultilineEndByte(v[0], x);
      IntrudedEnd(v[1..], rest);
    }
  }
}
