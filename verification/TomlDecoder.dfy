/**
  The loops that decode tokens: UTF-8 validation (internal/characters/utf8.go), escapes
  (`hexToRune`, `parseBasicString`, `parseMultilineBasicString`) and numbers
  (`scanIntOrFloat`, `scanDateTime`), proved to compute the functions of the grammar.
*/
module TomlDecoder {
  import opened TomlText
  import opened TomlStrings
  import opened TomlGrammar
  import opened TomlScanner

  // ---------- validation ----------

  predicate PlainAscii(c: char) {
    c < '\U{80}' && !InvalidAscii(c)
  }

  lemma {:induction false} AsciiRun(p: Text, n: nat)
    requires n <= |p| && forall i :: 0 <= i < n ==> PlainAscii(p[i])
    ensures TomlValid(p) == TomlValid(p[n..])
  {
    if n > 0 {
      AsciiRun(p, n - 1);
      assert p[n - 1..][0] == p[n - 1] && p[n - 1..][1..] == p[n..];
    }
  }

  /** The size reported for an invalid rune: up to the byte that makes it invalid, or all that is left. */
  function FaultSize(b: Text): (n: nat)
    requires b != [] && ValidNext(b) == 0
    ensures 1 <= n <= 4 && n <= |b|
  {
    if b[0] < '\U{80}' then 1
    else
      var (size, lo, hi) := Lead(b[0]);
      if size == 0 then 1
      else if |b| < size then |b|
      else if !(lo <= b[1] <= hi) then 2
      else if size >= 3 && !IsContinuation(b[2]) then 3
      else 4
  }

  /** The place and size of the first invalid rune; no size if there is none. */
  predicate FirstFault(s: Text, index: nat, size: nat) {
    if size == 0 then index == 0 && TomlValid(s)
    else
      && index < |s| && TomlValid(s[..index])
      && ValidNext(s[index..]) == 0 && size == FaultSize(s[index..])
  }

  /** A rune is valid whatever follows it. */
  lemma NextStays(a: Text, b: Text)
    requires a != [] && ValidNext(a) > 0
    ensures ValidNext(a + b) == ValidNext(a)
  {
    assert forall i :: 0 <= i < |a| ==> (a + b)[i] == a[i];
  }

  lemma {:induction false} ValidAppend(a: Text, b: Text)
    requires TomlValid(a)
    ensures TomlValid(a + b) == TomlValid(b)
    decreases |a|
  {
    if a == [] {
      assert a + b == b;
    } else {
      var n := ValidNext(a);
      NextStays(a, b);
      assert (a + b)[n..] == a[n..] + b;
      ValidAppend(a[n..], b);
    }
  }

  /** A text with an invalid rune is not valid. */
  lemma FaultIsInvalid(s: Text, index: nat, size: nat)
    requires FirstFault(s, index, size)
    ensures size == 0 <==> TomlValid(s)
  {
    if size > 0 {
      ValidAppend(s[..index], s[index..]);
      assert s[..index] + s[index..] == s;
    }
  }

  /** Behind a valid part, i plain bytes or one valid rune may be added to it. */
  lemma PartGrows(s: Text, i: nat, n: nat)
    requires i + n <= |s| && TomlValid(s[..i]) && TomlValid(s[i..i + n])
    ensures TomlValid(s[..i + n])
  {
    hide TomlValid;
    ValidAppend(s[..i], s[i..i + n]);
    assert s[..i] + s[i..i + n] == s[..i + n];
  }

  lemma PlainIsValid(p: Text)
    requires forall i :: 0 <= i < |p| ==> PlainAscii(p[i])
    ensures TomlValid(p)
  {
    AsciiRun(p, |p|);
    assert p[|p|..] == [];
  }

  lemma PlainPart(s: Text, i: nat, n: nat)
    requires i + n <= |s| && TomlValid(s[..i]) && forall k :: i <= k < i + n ==> PlainAscii(s[k])
    ensures TomlValid(s[..i + n])
  {
    hide TomlValid, PlainAscii;
    PlainIsValid(s[i..i + n]);
    PartGrows(s, i, n);
  }

  lemma AsciiFault(s: Text, i: nat)
    requires i < |s| && TomlValid(s[..i]) && s[i] < '\U{80}' && InvalidAscii(s[i])
    ensures FirstFault(s, i, 1)
  {
    hide TomlValid;
    assert s[i..][0] == s[i];
  }

  lemma EmptyIsValid(p: Text)
    requires p == []
    ensures TomlValid(p)
  {
  }

  lemma RuneIsValid(p: Text)
    requires p != [] && ValidNext(p) > 0
    ensures TomlValid(p[..ValidNext(p)])
  {
    var r := p[..ValidNext(p)];
    assert forall i :: 0 <= i < |r| ==> r[i] == p[i];
    assert ValidNext(r) == |r| && r[|r|..] == [];
  }

  /** `Utf8TomlValidAlreadyEscaped`, with its fast path over eight ASCII bytes at a time. */
  method FindInvalid(s: Text) returns (index: nat, size: nat)
    ensures FirstFault(s, index, size)
    ensures size == 0 <==> TomlValid(s)
  {
    var offset, faulty := AsciiPrefix(s);
    hide TomlValid, ValidNext, FaultSize;
    if faulty {
      FaultIsInvalid(s, offset, 1);
      return offset, 1;
    }
    while offset < |s|
      invariant offset <= |s| && TomlValid(s[..offset])
    {
      var n := ValidNext(s[offset..]);
      if n == 0 {
        FaultIsInvalid(s, offset, FaultSize(s[offset..]));
        return offset, FaultSize(s[offset..]);
      }
      RuneIsValid(s[offset..]);
      assert s[offset..][..n] == s[offset..offset + n];
      PartGrows(s, offset, n);
      offset := offset + n;
    }
    assert s[..offset] == s;
    return 0, 0;
  }

  /** The fast path: bytes of plain ASCII are passed eight at a time, up to a fault or a byte that is not ASCII. */
  method AsciiPrefix(s: Text) returns (offset: nat, faulty: bool)
    ensures offset <= |s| && TomlValid(s[..offset])
    ensures faulty ==> FirstFault(s, offset, 1)
  {
    hide TomlValid, FirstFault, InvalidAscii;
    EmptyIsValid(s[..0]);
    offset := 0;
    while |s| - offset >= 8
      invariant offset <= |s| && TomlValid(s[..offset])
    {
      if exists k :: offset <= k < offset + 8 && s[k] >= '\U{80}' { return offset, false; }
      var i := 0;
      while i < 8
        invariant i <= 8 && forall k :: offset <= k < offset + i ==> PlainAscii(s[k])
      {
        if InvalidAscii(s[offset + i]) {
          PlainPart(s, offset, i);
          AsciiFault(s, offset + i);
          return offset + i, true;
        }
        i := i + 1;
      }
      PlainPart(s, offset, 8);
      offset := offset + 8;
    }
    return offset, false;
  }

  // ---------- escapes ----------

  function Pow16(n: nat): nat {
    if n == 0 then 1 else 16 * Pow16(n - 1)
  }

  lemma HexStep(b: Text, i: nat)
    requires i < |b|
    ensures HexNumber(b[..i + 1]) ==
      match (HexNumber(b[..i]), HexValue(b[i]))
      case (Ok(n), Ok(d)) => Ok(16 * n + d)
      case _ => Err
  {
    assert b[..i + 1][..i] == b[..i];
  }

  lemma {:induction false} HexFails(b: Text, i: nat)
    requires i < |b| && HexValue(b[i]).Err?
    ensures HexNumber(b).Err?
    decreases |b|
  {
    if i < |b| - 1 { HexFails(b[..|b| - 1], i); }
  }

  lemma NoDigits(b: Text)
    ensures HexNumber(b[..0]) == Ok(0)
  {
  }

  /** The 32-bit accumulator does not wrap around: at most eight digits are read. */
  method DecodeRune(b: Text, length: nat) returns (r: Result<nat>)
    requires length <= 8
    ensures r == HexToRune(b, length)
    ensures r.Ok? ==> r.value <= 0x10FFFF
  {
    hide HexNumber;
    if |b| < length { return Err; }
    NoDigits(b);
    var h := b[..length];
    var acc, i := 0, 0;
    while i < length
      invariant i <= length && HexNumber(h[..i]) == Ok(acc) && acc < Pow16(i)
    {
      var d := HexValue(h[i]);
      HexStep(h, i);
      match d
      case Err =>
        HexFails(h, i);
        return Err;
      case Ok(v) =>
        NoWrap(acc, v, i);
        acc := (16 * acc + v) % 0x1_0000_0000;
        i := i + 1;
    }
    assert h[..length] == h;
    if acc > 0x10FFFF || 0xD800 <= acc < 0xE000 { return Err; }
    return Ok(acc);
  }

  lemma NoWrap(acc: nat, v: nat, i: nat)
    requires acc < Pow16(i) && v < 16 && i < 8
    ensures 16 * acc + v < Pow16(i + 1) <= 0x1_0000_0000
    ensures (16 * acc + v) % 0x1_0000_0000 == 16 * acc + v
  {
    PowMonotone(i + 1, 8);
    assert Pow16(8) == 0x1_0000_0000;
  }

  lemma {:induction false} PowMonotone(i: nat, j: nat)
    requires i <= j
    ensures Pow16(i) <= Pow16(j)
  {
    if i < j { PowMonotone(i, j - 1); }
  }

  lemma PrependTwice(a: Text, b: Text, r: Result<Text>)
    ensures Prepend(a, Prepend(b, r)) == Prepend(a + b, r)
  {
    if r.Ok? { assert a + (b + r.value) == (a + b) + r.value; }
  }

  lemma PrependNone(r: Result<Text>)
    ensures Prepend([], r) == r
  {
    if r.Ok? { assert [] + r.value == r.value; }
  }

  /**
    One escape of a token, from the byte behind its backslash: what it writes and how many bytes it
    takes. The digits of a code end before the last `tail` bytes.
  */
  function Unescape(t: Text, tail: nat): (r: Result<(Text, nat)>)
    requires t != []
    ensures r.Ok? ==> 1 <= r.value.1 <= |t|
  {
    if SimpleEscape(t[0]).Ok? then Ok(([SimpleEscape(t[0]).value], 1))
    else if (t[0] == 'u' || t[0] == 'U') && |t| > tail then
      var n := if t[0] == 'u' then 4 else 8;
      match HexToRune(t[1..|t| - tail], n)
      case Ok(r) => Ok((WriteRune(r), 1 + n))
      case Err => Err
    else Err
  }

  method DecodeEscape(t: Text, tail: nat) returns (r: Result<(Text, nat)>)
    requires t != [] && (t[0] == 'u' || t[0] == 'U' ==> tail < |t|)
    ensures r == Unescape(t, tail)
  {
    hide HexToRune;
    match SimpleEscape(t[0])
    case Ok(c) => return Ok(([c], 1));
    case Err =>
      if t[0] != 'u' && t[0] != 'U' { return Err; }
      var n := if t[0] == 'u' then 4 else 8;
      var rune := DecodeRune(t[1..|t| - tail], n);
      match rune
      case Err => return Err;
      case Ok(x) => return Ok((WriteRune(x), 1 + n));
  }

  /** What a decoding loop reads from an escape on, given what it writes. */
  function AfterEscape(e: Result<(Text, nat)>, t: Text, multiline: bool): Result<Text>
    requires e.Ok? ==> e.value.1 <= |t|
  {
    match e
    case Ok((s, n)) => Prepend(s, if multiline then DecodeMultiline(t[n..]) else DecodeBasic(t[n..]))
    case Err => Err
  }

  lemma SliceOfTail(t: Text, a: nat, b: nat)
    requires a <= b < |t|
    ensures t[1..][a..b] == t[a + 1..b + 1]
  {
  }

  /** One escape, seen from its backslash and from the byte behind it. */
  lemma EscapeOfTail(t: Text)
    requires |t| > 1
    ensures Unescape(t[1..], 1) ==
      if SimpleEscape(t[1]).Ok? then Ok(([SimpleEscape(t[1]).value], 1))
      else if (t[1] == 'u' || t[1] == 'U') && |t| > 2 then
        var n := if t[1] == 'u' then 4 else 8;
        match HexToRune(t[2..|t| - 1], n)
        case Ok(r) => Ok((WriteRune(r), 1 + n))
        case Err => Err
      else Err
  {
    hide HexToRune, WriteRune, SimpleEscape;
    var u := t[1..];
    if |t| > 2 { SliceOfTail(t, 1, |t| - 2); }
  }

  lemma EscapeStep(t: Text)
    requires |t| > 1 && t[0] == '\\'
    ensures var e :=
        if SimpleEscape(t[1]).Ok? then Ok(([SimpleEscape(t[1]).value], 1))
        else if (t[1] == 'u' || t[1] == 'U') && |t| > 2 then
          var n := if t[1] == 'u' then 4 else 8;
          match HexToRune(t[2..|t| - 1], n)
          case Ok(r) => Ok((WriteRune(r), 1 + n))
          case Err => Err
        else Err;
      (e.Ok? ==> e.value.1 < |t|) && DecodeBasic(t) == AfterEscape(e, t[1..], false)
  {
    Drop(t, 1, 1);
    if |t| >= 6 { Drop(t, 1, 5); }
    if |t| >= 10 { Drop(t, 1, 9); }
    hide WriteRune, SimpleEscape, DecodeMultiline, Prepend, HexNumber;
  }

  lemma DecodeBasicStep(t: Text)
    requires |t| > 1
    ensures DecodeBasic(t) ==
      if t[0] == '\\' then AfterEscape(Unescape(t[1..], 1), t[1..], false)
      else if ValidNext(t) == 0 then Err
      else Prepend(t[..ValidNext(t)], DecodeBasic(t[ValidNext(t)..]))
  {
    hide HexToRune, ValidNext, Prepend, WriteRune, SimpleEscape, DecodeMultiline;
    if t[0] == '\\' {
      EscapeOfTail(t);
      EscapeStep(t);
    }
  }

  lemma DecodeMultilineStep(t: Text)
    requires |t| > 3
    ensures DecodeMultiline(t) ==
      if t[0] == '\\' then
        if LineEndAfter(t, 1).Ok? then DecodeMultiline(TrimBlanks(t[LineEndAfter(t, 1).value..]))
        else AfterEscape(Unescape(t[1..], 0), t[1..], true)
      else if ValidNext(t) == 0 then Err
      else Prepend(t[..ValidNext(t)], DecodeMultiline(t[ValidNext(t)..]))
  {
    hide HexToRune, ValidNext, Prepend, WriteRune, LineEndAfter, TrimBlanks;
    if t[0] == '\\' {
      var u := t[1..];
      Drop(t, 1, 1);
      assert t[2..] == u[1..|u| - 0];
      if |t| >= 6 { Drop(t, 1, 5); }
      if |t| >= 10 { Drop(t, 1, 9); }
    }
  }

  /** `parseBasicString` */
  method ParseBasicString(b: Text) returns (r: Parsed)
    requires b != []
    ensures r == ParseBasic(b)
  {
    hide BasicEnd, TomlValid, DecodeBasic, ValidNext, Unescape, HasBackslash, Prepend;
    var scanned, escaped := ScanBasicString(b);
    match scanned
    case Err => return Err;
    case Ok((token, rest)) =>
      var body := token[1..|token| - 1];
      assert body == b[1..|token| - 1];
      if !escaped {
        var _, fault := FindInvalid(body);
        return if fault == 0 then Ok((body, rest)) else Err;
      }
      var decoded := DecodeBody(token);
      match decoded
      case Err => return Err;
      case Ok(s) => return Ok((s, rest));
  }

  /** The escape path of `parseBasicString`. */
  method DecodeBody(token: Text) returns (r: Result<Text>)
    requires |token| >= 2 && token[|token| - 1] == '"'
    ensures r == DecodeBasic(token[1..])
  {
    hide DecodeBasic, ValidNext, Unescape;
    var i, out := 1, [];
    PrependNone(DecodeBasic(token[1..]));
    while i < |token| - 1
      invariant 1 <= i <= |token| && DecodeBasic(token[1..]) == Prepend(out, DecodeBasic(token[i..]))
    {
      DecodeBasicStep(token[i..]);
      var s, n: nat;
      if token[i] == '\\' {
        i := i + 1;
        Drop(token, i - 1, 1);
        var e := DecodeEscape(token[i..], 1);
        match e
        case Err => return Err;
        case Ok((text, size)) => s, n := text, size;
      } else {
        n := ValidNext(token[i..]);
        if n == 0 { return Err; }
        s := token[i..i + n];
        assert token[i..][..n] == s;
      }
      Drop(token, i, n);
      PrependTwice(out, s, DecodeBasic(token[i + n..]));
      out, i := out + s, i + n;
    }
    NoMore(token[i..]);
    assert out + [] == out;
    return Ok(out);
  }

  lemma NoMore(t: Text)
    ensures |t| <= 1 ==> DecodeBasic(t) == Ok([])
    ensures |t| <= 3 ==> DecodeMultiline(t) == Ok([])
  {
  }

  /** `parseMultilineBasicString` */
  method ParseMultilineBasicString(b: Text) returns (r: Parsed)
    requires Starts(b, "\"\"\"")
    ensures r == ParseMultiline(b)
  {
    hide MultilineEnd, TomlValid, DecodeMultiline, ValidNext, Unescape, HasBackslash, Prepend, Starts;
    var scanned, escaped := ScanMultilineBasicString(b);
    match scanned
    case Err => return Err;
    case Ok((token, rest)) =>
      var start := 3;
      if token[start] == '\n' {
        start := start + 1;
      } else if token[start] == '\r' && token[start + 1] == '\n' {
        start := start + 2;
      }
      var end := |token| - 3;
      AfterNewline(token, start, '"');
      if !escaped {
        var _, fault := FindInvalid(token[start..end]);
        return if fault == 0 then Ok((token[start..end], rest)) else Err;
      }
      var decoded := DecodeMultilineBody(token, start);
      match decoded
      case Err => return Err;
      case Ok(s) => return Ok((s, rest));
  }

  lemma AfterNewline(token: Text, start: nat, quote: char)
    requires Closed(token, quote) && quote != '\n' && quote != '\r'
    requires start == 3 + (if token[3] == '\n' then 1 else if token[3] == '\r' && token[4] == '\n' then 2 else 0)
    ensures start <= |token| - 3
    ensures SkipNewline(token[3..]) == token[start..]
    ensures token[start..][..|token| - start - 3] == token[start..|token| - 3]
  {
    Drop(token, 3, start - 3);
    assert start <= |token| - 3;
    Slice(token, start, |token| - 3);
  }

  lemma Slice(t: Text, i: nat, j: nat)
    requires i <= j <= |t|
    ensures t[i..][..j - i] == t[i..j]
  {
  }

  /** The line continuation of a backslash at i: the position of the newline, if only blanks stand before it. */
  method FindLineEnd(token: Text, i: nat) returns (r: Result<nat>)
    requires i + 3 < |token|
    ensures r == LineEndAfter(token[i..], 1) && (r.Ok? ==> i + r.value + 3 < |token|)
  {
    hide LineEndAfter;
    var t := token[i..];
    var j := 1;
    while j < |token| - 3 - i
      invariant 1 <= j <= |token| - 3 - i && LineEndAfter(t, 1) == LineEndAfter(t, j)
    {
      LineEndStep(t, j);
      var c := token[i + j];
      if c == ' ' || c == '\t' || (c == '\r' && token[i + j + 1] == '\n') {
        j := j + 1;
      } else if c == '\n' {
        return Ok(j);
      } else {
        return Err;
      }
    }
    LineEndStep(t, j);
    return Err;
  }

  lemma LineEndStep(t: Text, j: nat)
    ensures LineEndAfter(t, j) ==
      if j + 3 >= |t| then Err
      else if t[j] == ' ' || t[j] == '\t' || (t[j] == '\r' && t[j + 1] == '\n') then LineEndAfter(t, j + 1)
      else if t[j] == '\n' then Ok(j)
      else Err
  {
  }

  /** The trimming loop behind a line continuation. */
  method SkipBlankLines(token: Text, start: nat) returns (i: nat)
    requires start + 3 <= |token|
    ensures start <= i && i + 3 <= |token| && token[i..] == TrimBlanks(token[start..])
  {
    i := start;
    while i < |token| - 3
      invariant start <= i && i + 3 <= |token| && TrimBlanks(token[start..]) == TrimBlanks(token[i..])
    {
      var c := token[i];
      if !(c == '\n' || c == '\r' || c == ' ' || c == '\t') { return; }
      Drop(token, i, 1);
      i := i + 1;
    }
  }

  /** The escape path of `parseMultilineBasicString`, from the end of the optional newline. */
  method DecodeMultilineBody(token: Text, start: nat) returns (r: Result<Text>)
    requires start + 3 <= |token|
    ensures r == DecodeMultiline(token[start..])
  {
    hide DecodeMultiline, ValidNext, Unescape, LineEndAfter, TrimBlanks;
    var i, out := start, [];
    PrependNone(DecodeMultiline(token[start..]));
    while i < |token| - 3
      invariant start <= i <= |token| && DecodeMultiline(token[start..]) == Prepend(out, DecodeMultiline(token[i..]))
      decreases |token| - i
    {
      DecodeMultilineStep(token[i..]);
      var s: Text, n: nat := [], 0;
      var newline: Result<nat> := Err;
      if token[i] == '\\' { newline := FindLineEnd(token, i); }
      if newline.Ok? {
        Drop(token, i, newline.value);
        i := SkipBlankLines(token, i + newline.value);
      } else {
        if token[i] == '\\' {
          i := i + 1;
          Drop(token, i - 1, 1);
          var e := DecodeEscape(token[i..], 0);
          match e
          case Err => return Err;
          case Ok((text, size)) => s, n := text, size;
        } else {
          n := ValidNext(token[i..]);
          if n == 0 { return Err; }
          s := token[i..i + n];
          assert token[i..][..n] == s;
        }
        Drop(token, i, n);
        PrependTwice(out, s, DecodeMultiline(token[i + n..]));
        out, i := out + s, i + n;
      }
    }
    NoMore(token[i..]);
    assert out + [] == out;
    return Ok(out);
  }

  /** `parseMultilineLiteralString` */
  method ParseMultilineLiteralString(b: Text) returns (r: Parsed)
    requires Starts(b, "'''")
    ensures r == ParseMultilineLiteral(b)
  {
    hide MultilineLiteralEnd, SkipNewline;
    var scanned := ScanMultilineLiteralString(b);
    match scanned
    case Err => return Err;
    case Ok((token, rest)) =>
      var start := 3;
      if token[start] == '\n' {
        start := start + 1;
      } else if token[start] == '\r' && token[start + 1] == '\n' {
        start := start + 2;
      }
      AfterNewline(token, start, '\'');
      assert token[3..] == b[3..|token|];
      return Ok((token[start..|token| - 3], rest));
  }

  // ---------- numbers, dates and times ----------

  lemma RadixStep(b: Text, i: nat, base: char)
    requires i < |b|
    ensures RadixEnd(b[i..], base) == if IsRadixChar(b[i], base) then 1 + RadixEnd(b[i + 1..], base) else 0
  {
    Drop(b, i, 1);
  }

  lemma NumberStep(b: Text, i: nat, isFloat: bool)
    requires i < |b|
    ensures NumberEnd(b[i..], isFloat) ==
      if IsDigit(b[i]) || b[i] == '+' || b[i] == '-' || b[i] == '_' then PlusOne(NumberEnd(b[i + 1..], isFloat))
      else if b[i] == '.' || b[i] == 'e' || b[i] == 'E' then PlusOne(NumberEnd(b[i + 1..], true))
      else if b[i] == 'i' then if Starts(b[i..], "inf") then Ok((3, true)) else Err
      else if b[i] == 'n' then if Starts(b[i..], "nan") then Ok((3, true)) else Err
      else Ok((0, isFloat))
  {
    hide PlusOne, Starts;
    Drop(b, i, 1);
  }

  function Ahead(i: nat, r: Result<(nat, bool)>): Result<(nat, bool)> {
    match r
    case Ok((n, f)) => Ok((i + n, f))
    case Err => Err
  }

  /** `scanIntOrFloat` */
  method ScanIntOrFloat(b: Text) returns (r: Scanned)
    requires b != []
    ensures r == ScanNumber(b)
  {
    hide NumberEnd, RadixEnd, Starts;
    var i := 0;
    if |b| > 2 && b[0] == '0' && b[1] != '.' && b[1] != 'e' && b[1] != 'E' {
      if b[1] != 'x' && b[1] != 'o' && b[1] != 'b' { return Ok((Integer, 1)); }
      i := 2;
      while i < |b|
        invariant 2 <= i <= |b| && 2 + RadixEnd(b[2..], b[1]) == i + RadixEnd(b[i..], b[1])
      {
        RadixStep(b, i, b[1]);
        if !IsRadixChar(b[i], b[1]) { break; }
        i := i + 1;
      }
      return Ok((Integer, i));
    }
    var isFloat := false;
    assert b[0..] == b;
    while i < |b|
      invariant i <= |b| && NumberEnd(b, false) == Ahead(i, NumberEnd(b[i..], isFloat))
    {
      NumberStep(b, i, isFloat);
      var c := b[i];
      if IsDigit(c) || c == '+' || c == '-' || c == '_' {
        i := i + 1;
      } else if c == '.' || c == 'e' || c == 'E' {
        isFloat := true;
        i := i + 1;
      } else if c == 'i' {
        return if Starts(b[i..], "inf") then Ok((Float, i + 3)) else Err;
      } else if c == 'n' {
        return if Starts(b[i..], "nan") then Ok((Float, i + 3)) else Err;
      } else {
        break;
      }
    }
    NumberStops(b[i..], isFloat);
    if i == 0 { return Err; }
    return Ok((if isFloat then Float else Integer, i));
  }

  lemma NumberStops(b: Text, isFloat: bool)
    ensures b == [] ==> NumberEnd(b, isFloat) == Ok((0, isFloat))
  {
  }

  /** The loop of `scanDateTime`. */
  method ScanDate(b: Text) returns (r: Scanned)
    requires b != [] && IsDigit(b[0])
    ensures r == ScanDateTime(b)
  {
    var i, s := 0, Seen(false, false, false, false);
    while i < |b|
      invariant i <= |b| && DateTimeEnd(b, 0, Seen(false, false, false, false)) == DateTimeEnd(b, i, s)
    {
      var c := b[i];
      if IsDigit(c) {
      } else if c == '-' {
        s := s.(date := true, tz := s.tz || i >= 8);
      } else if c == 'T' || c == 't' || c == ':' || c == '.' {
        s := s.(time := true);
      } else if c == '+' || c == 'Z' || c == 'z' {
        s := s.(tz := true);
      } else if c == ' ' && !s.space && i + 1 < |b| && IsDigit(b[i + 1]) {
        i := i + 2;
        if i >= |b| { i := i - 1; }
        s := s.(space := true, time := true);
      } else {
        break;
      }
      i := i + 1;
    }
    return Ok((if s.time then if s.date then if s.tz then DateTime else LocalDateTime else LocalTime
        else LocalDate, i));
  }

  /** `parseIntOrFloatOrDateTime`, without the push. */
  method ScanScalarValue(b: Text) returns (r: Scanned)
    requires b != []
    ensures r == ScanScalar(b)
  {
    hide ScanNumber, ScanDateTime;
    if b[0] == 'i' { return if Starts(b, "inf") then Ok((Float, 3)) else Err; }
    if b[0] == 'n' { return if Starts(b, "nan") then Ok((Float, 3)) else Err; }
    if b[0] != '+' && b[0] != '-' && |b| >= 3 {
      var s := if |b| < 5 then |b| else 5;
      var k := 0;
      while k < s
        invariant k <= s && forall j :: 0 <= j < k ==> IsDigit(b[j])
      {
        if !IsDigit(b[k]) {
          if (k == 2 && b[k] == ':') || (k == 4 && b[k] == '-') {
            r := ScanDate(b);
            return;
          }
          break;
        }
        k := k + 1;
      }
    }
    r := ScanIntOrFloat(b);
  }
}
