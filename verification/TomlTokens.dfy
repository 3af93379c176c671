/**
  The tokens of TOML 1.0.0 and what the parser makes of each, whatever may follow a value: strings of all four kinds,
  booleans, numbers in all bases, dates and times. With TomlLayouts this says what the parser makes of documents that
  no encoder has printed.
*/
module TomlTokens {
  import opened TomlText
  import opened TomlGrammar
  import opened TomlDecoder
  import opened TomlRoundTrip
  import opened TomlLayouts
  import opened TomlNumbers
  import TomlLiterals
  import TomlEscapes

  // ---------- bytes ----------

  /** Which bytes are blanks, digits and key characters, and which digits a base has. */
  lemma BytesAre(c: char, base: nat)
    requires base in {16, 8, 2}
    ensures IsWs(c) <==> c in " \t"
    ensures IsDigit(c) <==> c in "0123456789"
    ensures IsKeyChar(c) <==>
      c in "ABCDEFGHIJKLM" || c in "NOPQRSTUVWXYZ" || c in "abcdefghijklm" || c in "nopqrstuvwxyz" ||
      c in "0123456789" || c in "-_"
    ensures IsRadixChar(c, LetterOf(base)) <==> c == '_' || DigitValue(c, base).Ok?
  {
    KeyCharIs(c);
    DigitOfBase(c, base);
    RunOf(c, "0123456789", '0');
    assert c in " \t" <==> c == " \t"[0] || c == " \t"[1];
  }

  lemma KeyCharIs(c: char)
    ensures IsKeyChar(c) <==>
      c in "ABCDEFGHIJKLM" || c in "NOPQRSTUVWXYZ" || c in "abcdefghijklm" || c in "nopqrstuvwxyz" ||
      c in "0123456789" || c in "-_"
  {
    RunOf(c, "ABCDEFGHIJKLM", 'A');
    RunOf(c, "NOPQRSTUVWXYZ", 'N');
    RunOf(c, "abcdefghijklm", 'a');
    RunOf(c, "nopqrstuvwxyz", 'n');
    RunOf(c, "0123456789", '0');
    assert c in "-_" <==> c == "-_"[0] || c == "-_"[1];
  }

  /** Bytes that follow one another. */
  lemma RunOf(c: char, run: Text, first: char)
    requires forall i :: 0 <= i < |run| ==> run[i] as int == first as int + i
    ensures c in run <==> first as int <= c as int < first as int + |run|
  {
    if first as int <= c as int < first as int + |run| { assert run[c as int - first as int] == c; }
  }

  lemma DigitOfBase(c: char, base: nat)
    requires base in {16, 8, 2}
    ensures IsRadixChar(c, LetterOf(base)) <==> c == '_' || DigitValue(c, base).Ok?
  {
  }

  /** The ASCII bytes that may stand in text: all that are printed, tab and the bytes of newlines. */
  lemma AsciiAllowed(c: char, x: Text)
    requires c < '\U{80}'
    ensures ValidNext([c] + x) == if ' ' <= c <= '~' || c in {'\t', '\n', '\r'} then 1 else 0
  {
  }

  // ---------- what follows ----------

  /** The first byte that may follow a value. */
  predicate Ender(c: char) {
    c in {' ', '\t', '\n', '\r', '#', ',', ']', '}'}
  }

  lemma FollowsFirst(rest: Text)
    requires Follows(rest) && rest != []
    ensures Ender(rest[0]) && (rest[0] == ' ' && |rest| > 1 ==> !IsDigit(rest[1]))
  {
    assert [rest[0]] + rest[1..] == rest;
    if !IsWs(rest[0]) {
      NoBlankFirst(rest);
    } else if |rest| > 1 && IsDigit(rest[1]) {
      WsEndRun([rest[0]], rest[1..]);
    }
  }

  // ---------- strings, booleans and keys ----------

  lemma LiteralToken(s: Text)
    requires TomlLiterals.LiteralText(s)
    ensures TokenReads("'" + s + "'", String, s)
  {
    hide ParseVal, Follows;
    forall rest | Follows(rest) ensures ParseVal("'" + s + "'" + rest) == Ok((Leaf(String, s), rest)) {
      if rest != [] { FollowsFirst(rest); }
      TomlLiterals.LiteralValue(s, rest);
    }
  }

  lemma LiteralLinesToken(nl: Text, s: Text)
    requires TomlLiterals.IsNewline(nl) && TomlLiterals.LinesText(s) && (nl == "" ==> !TomlLiterals.StartsLine(s))
    ensures TokenReads("'''" + nl + s + "'''", String, s)
  {
    hide ParseVal, Follows;
    forall rest | Follows(rest) ensures ParseVal("'''" + nl + s + "'''" + rest) == Ok((Leaf(String, s), rest)) {
      if rest != [] { FollowsFirst(rest); }
      TomlLiterals.LinesValue(nl, s, rest);
    }
  }

  lemma BasicToken(ps: seq<TomlEscapes.Piece>)
    requires TomlEscapes.OnOneLine(ps)
    ensures TokenReads("\"" + TomlEscapes.Written(ps) + "\"", String, TomlEscapes.Meant(ps))
  {
    hide ParseVal, Follows, TomlEscapes.Written, TomlEscapes.Meant;
    var w, m := TomlEscapes.Written(ps), TomlEscapes.Meant(ps);
    forall rest | Follows(rest) ensures ParseVal("\"" + w + "\"" + rest) == Ok((Leaf(String, m), rest)) {
      if rest != [] { FollowsFirst(rest); }
      TomlEscapes.BasicValue(ps, rest);
    }
  }

  lemma BasicLinesToken(nl: Text, ps: seq<TomlEscapes.Piece>)
    requires TomlEscapes.OnLines(ps) && (nl == "" || TomlEscapes.IsNewline(nl))
    requires nl == "" ==> ps == [] || !ps[0].Line?
    ensures TokenReads("\"\"\"" + nl + TomlEscapes.Written(ps) + "\"\"\"", String, TomlEscapes.Meant(ps))
  {
    hide ParseVal, Follows, TomlEscapes.Written, TomlEscapes.Meant;
    var w, m := TomlEscapes.Written(ps), TomlEscapes.Meant(ps);
    forall rest | Follows(rest)
      ensures ParseVal("\"\"\"" + nl + w + "\"\"\"" + rest) == Ok((Leaf(String, m), rest))
    {
      if rest != [] { FollowsFirst(rest); }
      TomlEscapes.LinesValue(nl, ps, rest);
    }
  }

  lemma BoolToken(t: Text)
    requires t == "true" || t == "false"
    ensures TokenReads(t, Bool, t)
  {
    hide ParseElements, ParsePairs, ScanScalar, Follows;
    forall rest | Follows(rest) ensures ParseVal(t + rest) == Ok((Leaf(Bool, t), rest)) {
      assert (t + rest)[..|t|] == t && (t + rest)[|t|..] == rest;
    }
  }

  lemma {:induction false} BareEnds(t: Text, rest: Text)
    requires (forall i :: 0 <= i < |t| ==> IsKeyChar(t[i])) && (rest == [] || !IsKeyChar(rest[0]))
    ensures KeyEnd(t + rest) == |t|
  {
    if t == [] {
      assert t + rest == rest;
    } else {
      assert (t + rest)[1..] == t[1..] + rest;
      BareEnds(t[1..], rest);
    }
  }

  /** The three forms of a part of a key. */
  lemma BarePart(t: Text)
    requires t != [] && forall i :: 0 <= i < |t| ==> IsKeyChar(t[i])
    ensures PartReads(t, t)
  {
    forall rest | AfterPart(rest) ensures ParseSimpleKey(t + rest) == Ok((t, rest)) {
      BareEnds(t, rest);
      assert (t + rest)[..|t|] == t && (t + rest)[|t|..] == rest;
    }
  }

  lemma QuotedPart(s: Text, ps: seq<TomlEscapes.Piece>)
    ensures TomlLiterals.LiteralText(s) ==> PartReads("'" + s + "'", s)
    ensures TomlEscapes.OnOneLine(ps) ==> PartReads("\"" + TomlEscapes.Written(ps) + "\"", TomlEscapes.Meant(ps))
  {
    hide ParseSimpleKey, TomlEscapes.Written, TomlEscapes.Meant, TomlLiterals.LiteralText, TomlEscapes.Good;
    if TomlLiterals.LiteralText(s) {
      forall rest | AfterPart(rest) ensures ParseSimpleKey("'" + s + "'" + rest) == Ok((s, rest)) {
        TomlLiterals.LiteralKey(s, rest);
      }
    }
    if TomlEscapes.OnOneLine(ps) {
      var w, m := TomlEscapes.Written(ps), TomlEscapes.Meant(ps);
      forall rest | AfterPart(rest) ensures ParseSimpleKey("\"" + w + "\"" + rest) == Ok((m, rest)) {
        TomlEscapes.BasicKey(ps, rest);
      }
    }
  }

  // ---------- numbers ----------

  predicate NumberChar(c: char) {
    IsDigit(c) || c == '+' || c == '-' || c == '_' || FloatChar(c)
  }

  predicate FloatChar(c: char) {
    c == '.' || c == 'e' || c == 'E'
  }

  predicate HasFloatChar(u: Text) {
    exists i :: 0 <= i < |u| && FloatChar(u[i])
  }

  lemma {:induction false} NumberRun(u: Text, rest: Text, f: bool)
    requires (forall i :: 0 <= i < |u| ==> NumberChar(u[i])) && (rest == [] || Ender(rest[0]))
    ensures NumberEnd(u + rest, f) == Ok((|u|, f || HasFloatChar(u)))
  {
    if u == [] {
      assert u + rest == rest;
    } else {
      assert (u + rest)[1..] == u[1..] + rest;
      var f' := f || FloatChar(u[0]);
      NumberRun(u[1..], rest, f');
      assert HasFloatChar(u) <==> FloatChar(u[0]) || HasFloatChar(u[1..]) by {
        if HasFloatChar(u[1..]) {
          var i :| 0 <= i < |u[1..]| && FloatChar(u[1..][i]);
          assert FloatChar(u[i + 1]);
        }
        if HasFloatChar(u) && !FloatChar(u[0]) {
          var i :| 0 <= i < |u| && FloatChar(u[i]);
          assert u[1..][i - 1] == u[i];
        }
      }
    }
  }

  /** A number is not taken for a date because of what follows it. */
  lemma NoDate(u: Text, rest: Text)
    requires !LooksLikeDateTime(u) && (rest == [] || Ender(rest[0]))
    requires u != [] && forall i :: 0 <= i < |u| ==> u[i] != ':'
    ensures !LooksLikeDateTime(u + rest)
  {
    var b := u + rest;
    assert forall i :: 0 <= i < |u| ==> b[i] == u[i];
    assert rest != [] ==> b[|u|] == rest[0];
  }

  lemma ScalarValue(b: Text, kind: Kind, n: nat)
    requires b != [] && (IsDigit(b[0]) || b[0] == '+' || b[0] == '-' || b[0] == 'i' || b[0] == 'n')
    requires ScanScalar(b) == Ok((kind, n))
    ensures ParseVal(b) == Ok((Leaf(kind, b[..n]), b[n..]))
  {
    hide ScanScalar, ParseElements, ParsePairs;
  }

  /** A decimal number, whole or not. A zero at its beginning stands alone, or a fraction or an exponent follows. */
  lemma NumberToken(u: Text)
    requires u != [] && (IsDigit(u[0]) || u[0] == '+' || u[0] == '-') && !LooksLikeDateTime(u)
    requires (forall i :: 0 <= i < |u| ==> NumberChar(u[i])) && (u[0] == '0' && |u| > 1 ==> FloatChar(u[1]))
    ensures TokenReads(u, if HasFloatChar(u) then Float else Integer, u)
  {
    hide ParseVal, Follows;
    var kind := if HasFloatChar(u) then Float else Integer;
    forall rest | Follows(rest) ensures ParseVal(u + rest) == Ok((Leaf(kind, u), rest)) {
      if rest != [] { FollowsFirst(rest); }
      NumberRun(u, rest, false);
      NoDate(u, rest);
      NumberScans(u, rest);
      assert (u + rest)[..|u|] == u && (u + rest)[|u|..] == rest;
      ScalarValue(u + rest, kind, |u|);
    }
  }

  lemma NumberScans(u: Text, rest: Text)
    requires u != [] && (IsDigit(u[0]) || u[0] == '+' || u[0] == '-') && !LooksLikeDateTime(u + rest)
    requires (u[0] == '0' && |u| > 1 ==> FloatChar(u[1])) && (rest == [] || Ender(rest[0]))
    requires NumberEnd(u + rest, false) == Ok((|u|, HasFloatChar(u)))
    ensures ScanScalar(u + rest) == Ok((if HasFloatChar(u) then Float else Integer, |u|))
  {
    hide NumberEnd, LooksLikeDateTime;
    var b := u + rest;
    assert |u| > 1 ==> b[1] == u[1];
    assert |u| == 1 && rest != [] ==> b[1] == rest[0];
    assert b[0] == u[0];
    if |u| == 1 && u[0] == '0' { assert !HasFloatChar(u); }
  }

  lemma SpecialToken(u: Text)
    requires u in {"inf", "nan", "+inf", "-inf", "+nan", "-nan"}
    ensures TokenReads(u, Float, u)
  {
    hide ParseVal, Follows;
    forall rest | Follows(rest) ensures ParseVal(u + rest) == Ok((Leaf(Float, u), rest)) {
      SpecialScans(u, rest);
      assert (u + rest)[..|u|] == u && (u + rest)[|u|..] == rest;
      ScalarValue(u + rest, Float, |u|);
    }
  }

  lemma SpecialScans(u: Text, rest: Text)
    requires u in {"inf", "nan", "+inf", "-inf", "+nan", "-nan"}
    ensures ScanScalar(u + rest) == Ok((Float, |u|))
  {
    var b := u + rest;
    if |u| == 3 {
      assert b[..3] == u;
    } else {
      var v := b[1..];
      assert v == u[1..] + rest && v[..3] == u[1..] && u[1..] in {"inf", "nan"};
      assert NumberEnd(v, false) == Ok((3, true));
      assert NumberEnd(b, false) == Ok((4, true));
    }
  }

  function LetterOf(base: nat): char {
    if base == 16 then 'x' else if base == 8 then 'o' else 'b'
  }

  lemma {:induction false} RadixRun(u: Text, c: char, rest: Text)
    requires (forall i :: 0 <= i < |u| ==> IsRadixChar(u[i], c)) && (rest == [] || !IsRadixChar(rest[0], c))
    ensures RadixEnd(u + rest, c) == |u|
  {
    if u == [] {
      assert u + rest == rest;
    } else {
      assert (u + rest)[1..] == u[1..] + rest;
      RadixRun(u[1..], c, rest);
    }
  }

  /** A number in base 16, 8 or 2. */
  lemma RadixToken(u: Text, base: nat)
    requires base in {16, 8, 2} && u != [] && forall i :: 0 <= i < |u| ==> IsRadixChar(u[i], LetterOf(base))
    ensures TokenReads("0" + [LetterOf(base)] + u, Integer, "0" + [LetterOf(base)] + u)
  {
    hide ParseVal, Follows;
    var c := LetterOf(base);
    var t := "0" + [c] + u;
    forall rest | Follows(rest) ensures ParseVal(t + rest) == Ok((Leaf(Integer, t), rest)) {
      if rest != [] { FollowsFirst(rest); }
      RadixRun(u, c, rest);
      var b := t + rest;
      assert b[2..] == u + rest && b[1] == c && b[0] == '0';
      assert ScanScalar(b) == Ok((Integer, |t|));
      assert b[..|t|] == t && b[|t|..] == rest;
      ScalarValue(b, Integer, |t|);
    }
  }

  // ---------- the value of an integer ----------

  /** A number without its last digit. */
  function Higher(n: nat, base: nat): (q: nat)
    requires base >= 2
    ensures n >= base ==> 0 < q < n
  {
    n / base
  }

  function LastDigit(n: nat, base: nat): (d: nat)
    requires base >= 2
    ensures d < base && (n < base ==> d == n) && n == base * Higher(n, base) + d
  {
    n % base
  }

  /** The digits of a number in a base. */
  function DigitsIn(n: nat, base: nat, upper: bool): (s: Text)
    requires 2 <= base <= 16
    ensures s != []
  {
    hide Higher, LastDigit;
    (if n < base then [] else DigitsIn(Higher(n, base), base, upper)) + [TomlEscapes.DigitOf(LastDigit(n, base), upper)]
  }

  lemma {:induction false} DigitsInRead(n: nat, base: nat, upper: bool)
    requires 2 <= base <= 16
    ensures ParseNat(DigitsIn(n, base, upper), base) == Ok(n)
  {
    hide Higher, LastDigit;
    var s, d := DigitsIn(n, base, upper), LastDigit(n, base);
    var c := TomlEscapes.DigitOf(d, upper);
    DigitIn(d, base, upper);
    if n >= base {
      DigitsInRead(Higher(n, base), base, upper);
      var t := DigitsIn(Higher(n, base), base, upper);
      assert s == t + [c];
      hide TomlEscapes.DigitOf, DigitValue, DigitsIn, ParseNat;
      OneMore(t, c, base, Higher(n, base), d);
    } else {
      assert s == [c];
      hide TomlEscapes.DigitOf, DigitValue, DigitsIn;
      assert [c][..0] == [];
    }
  }

  lemma {:induction false} DigitsInFront(n: nat, base: nat, upper: bool)
    requires 2 <= base <= 16
    ensures !IsSign(DigitsIn(n, base, upper)[0]) && (n > 0 ==> DigitsIn(n, base, upper)[0] != '0')
    ensures n < base ==> |DigitsIn(n, base, upper)| == 1
  {
    hide Higher, LastDigit, TomlEscapes.DigitOf, IsSign;
    DigitIs(LastDigit(n, base), upper);
    if n >= base { DigitsInFront(Higher(n, base), base, upper); }
  }

  lemma OneMore(t: Text, c: char, base: nat, n: nat, d: nat)
    requires ParseNat(t, base) == Ok(n) && DigitValue(c, base) == Ok(d)
    ensures ParseNat(t + [c], base) == Ok(base * n + d)
  {
    hide DigitValue;
    assert (t + [c])[..|t|] == t;
  }

  lemma DigitIn(d: nat, base: nat, upper: bool)
    requires d < base <= 16
    ensures DigitValue(TomlEscapes.DigitOf(d, upper), base) == Ok(d)
  {
    TomlEscapes.DigitReads(d, upper);
    hide TomlEscapes.DigitOf, HexValue;
  }

  lemma DigitIs(n: nat, upper: bool)
    requires n < 16
    ensures var c := TomlEscapes.DigitOf(n, upper); !IsSign(c) && (n > 0 ==> c != '0')
  {
  }

  /** Text with underscores between its digits and these digits without them. */
  predicate Spaced(u: Text, digits: Text) {
    u != [] && UnderscoresOk(u) && Without(u) == digits
  }

  lemma {:induction false} WithoutFirst(u: Text)
    requires u != [] && u[0] != '_'
    ensures Without(u) != [] && Without(u)[0] == u[0]
  {
  }

  lemma SignIsNone(s: Text, base: nat, n: nat)
    requires s != [] && !IsSign(s[0]) && ParseNat(s, base) == Ok(n)
    ensures ParseInt(s, base) == if n < 0x8000_0000_0000_0000 then Ok(n) else Err
  {
    hide ParseNat;
  }

  /** A number in base 16, 8 or 2 is read as its value, and refused if it does not fit 64 bits. */
  lemma RadixValue(u: Text, n: nat, base: nat, upper: bool)
    requires base in {16, 8, 2} && Spaced(u, DigitsIn(n, base, upper))
    ensures var b := "0" + [LetterOf(base)] + u;
      !Panics(b) && IntegerValue(b) == if n < 0x8000_0000_0000_0000 then Ok(n) else Err
  {
    hide UnderscoresOk, Without, DigitsIn, ParseInt;
    var b := "0" + [LetterOf(base)] + u;
    assert b[2..] == u;
    DigitsInRead(n, base, upper);
    DigitsInFront(n, base, upper);
    SignIsNone(DigitsIn(n, base, upper), base, n);
  }

  /** A decimal number with a sign or without. */
  lemma DecimalValue(u: Text, sign: Text, n: nat)
    requires sign in {"", "+", "-"} && Spaced(u, sign + DigitsIn(n, 10, false))
    ensures var i: int := if sign == "-" then 0 - n else n;
      !Panics(u) &&
      IntegerValue(u) == if -0x8000_0000_0000_0000 <= i < 0x8000_0000_0000_0000 then Ok(i) else Err
  {
    hide Without, DigitsIn, ParseNat;
    var d := DigitsIn(n, 10, false);
    var s := sign + d;
    DigitsInRead(n, 10, false);
    DigitsInFront(n, 10, false);
    FirstBytes(u, sign, d);
    assert sign != "" ==> s[1..] == d;
    assert sign == "" ==> s == d;
    if sign == "" { LoneZero(u, d, n); }
  }

  lemma FirstBytes(u: Text, sign: Text, d: Text)
    requires sign in {"", "+", "-"} && Spaced(u, sign + d) && d != [] && !IsSign(d[0])
    ensures u[0] == (sign + d)[0] && (sign == "" ==> u[0] != '_')
  {
    WithoutFirst(u);
  }

  /** A zero in front means that there is no other digit. */
  lemma LoneZero(u: Text, d: Text, n: nat)
    requires Spaced(u, d) && d == DigitsIn(n, 10, false)
    ensures u[0] == '0' ==> |u| == 1
  {
    DigitsInFront(n, 10, false);
    if u[0] == '0' {
      WithoutFirst(u);
      if |u| > 1 { WithoutTwo(u); }
    }
  }

  lemma {:induction false} WithoutTwo(u: Text)
    requires |u| > 1 && u[0] != '_' && u[|u| - 1] != '_'
    ensures |Without(u)| >= 2
  {
    LastStays(u[1..]);
  }

  lemma {:induction false} LastStays(u: Text)
    requires u != [] && u[|u| - 1] != '_'
    ensures Without(u) != []
  {
    if |u| > 1 && u[0] == '_' { LastStays(u[1..]); }
  }

  // ---------- dates and times ----------

  predicate DigitsAt(t: Text, i: nat, n: nat) {
    i + n <= |t| && forall k :: i <= k < i + n ==> IsDigit(t[k])
  }

  /** 1979-05-27 */
  predicate IsDateText(t: Text) {
    |t| == 10 && DigitsAt(t, 0, 4) && t[4] == '-' && DigitsAt(t, 5, 2) && t[7] == '-' && DigitsAt(t, 8, 2)
  }

  /** 07:32:00, with a fraction or without */
  predicate IsTimeText(t: Text) {
    && |t| >= 8 && DigitsAt(t, 0, 2) && t[2] == ':' && DigitsAt(t, 3, 2) && t[5] == ':' && DigitsAt(t, 6, 2)
    && (|t| > 8 ==> t[8] == '.' && DigitsAt(t, 9, |t| - 9))
  }

  /** Z, or -07:00 */
  predicate IsOffsetText(t: Text) {
    || t == "Z" || t == "z"
    || (|t| == 6 && (t[0] == '+' || t[0] == '-') && DigitsAt(t, 1, 2) && t[3] == ':' && DigitsAt(t, 4, 2))
  }

  predicate IsJoint(c: char) {
    c == 'T' || c == 't' || c == ' '
  }

  /** t stands in b from i on. */
  predicate StandsAt(b: Text, i: nat, t: Text) {
    i + |t| <= |b| && forall k :: 0 <= k < |t| ==> b[i + k] == t[k]
  }

  lemma {:induction false} DigitsPass(b: Text, i: nat, n: nat, s: Seen)
    requires DigitsAt(b, i, n)
    ensures DateTimeEnd(b, i, s) == DateTimeEnd(b, i + n, s)
    decreases n
  {
    if n > 0 {
      assert IsDigit(b[i]);
      DigitsPass(b, i + 1, n - 1, s);
    }
  }

  lemma DigitsStand(b: Text, i: nat, t: Text, k: nat, n: nat)
    requires StandsAt(b, i, t) && DigitsAt(t, k, n)
    ensures DigitsAt(b, i + k, n)
  {
    forall x | i + k <= x < i + k + n ensures IsDigit(b[x]) {
      assert b[i + (x - i)] == t[x - i];
    }
  }

  lemma MarkPasses(b: Text, i: nat, s: Seen)
    requires i < |b|
    ensures b[i] == '-' ==> DateTimeEnd(b, i, s) == DateTimeEnd(b, i + 1, s.(date := true, tz := s.tz || i >= 8))
    ensures b[i] in {'T', 't', ':', '.'} ==> DateTimeEnd(b, i, s) == DateTimeEnd(b, i + 1, s.(time := true))
    ensures b[i] in {'+', 'Z', 'z'} ==> DateTimeEnd(b, i, s) == DateTimeEnd(b, i + 1, s.(tz := true))
  {
  }

  lemma DatePasses(b: Text, t: Text, s: Seen)
    requires IsDateText(t) && StandsAt(b, 0, t)
    ensures DateTimeEnd(b, 0, s) == DateTimeEnd(b, 10, s.(date := true))
  {
    hide DateTimeEnd, DigitsAt;
    assert b[0 + 4] == '-' && b[0 + 7] == '-';
    DigitsStand(b, 0, t, 0, 4);
    DigitsStand(b, 0, t, 5, 2);
    DigitsStand(b, 0, t, 8, 2);
    DigitsPass(b, 0, 4, s);
    MarkPasses(b, 4, s);
    var s' := s.(date := true);
    DigitsPass(b, 5, 2, s');
    MarkPasses(b, 7, s');
    DigitsPass(b, 8, 2, s');
  }

  /** A time from behind its first two digits on. */
  lemma MinutesPass(b: Text, i: nat, t: Text, s: Seen)
    requires IsTimeText(t) && StandsAt(b, i, t)
    ensures DateTimeEnd(b, i + 2, s) == DateTimeEnd(b, i + |t|, s.(time := true))
  {
    hide DateTimeEnd, DigitsAt;
    assert b[i + 2] == ':' && b[i + 5] == ':' && (|t| > 8 ==> b[i + 8] == '.');
    DigitsStand(b, i, t, 3, 2);
    DigitsStand(b, i, t, 6, 2);
    var s' := s.(time := true);
    MarkPasses(b, i + 2, s);
    DigitsPass(b, i + 3, 2, s');
    MarkPasses(b, i + 5, s');
    DigitsPass(b, i + 6, 2, s');
    if |t| > 8 {
      MarkPasses(b, i + 8, s');
      DigitsStand(b, i, t, 9, |t| - 9);
      DigitsPass(b, i + 9, |t| - 9, s');
    }
  }

  lemma TimePasses(b: Text, i: nat, t: Text, s: Seen)
    requires IsTimeText(t) && StandsAt(b, i, t)
    ensures DateTimeEnd(b, i, s) == DateTimeEnd(b, i + |t|, s.(time := true))
  {
    hide DateTimeEnd, DigitsAt;
    DigitsStand(b, i, t, 0, 2);
    DigitsPass(b, i, 2, s);
    MinutesPass(b, i, t, s);
  }

  /** A time behind the byte that joins it to a date. */
  lemma JoinedPasses(b: Text, i: nat, t: Text, s: Seen)
    requires i < |b| && IsJoint(b[i]) && IsTimeText(t) && StandsAt(b, i + 1, t) && !s.space
    ensures DateTimeEnd(b, i, s) == DateTimeEnd(b, i + 1 + |t|, s.(time := true, space := b[i] == ' '))
  {
    if b[i] == ' ' {
      assert b[i + 1 + 0] == t[0] && b[i + 1 + 1] == t[1];
      assert DateTimeEnd(b, i, s) == DateTimeEnd(b, i + 3, s.(space := true, time := true));
      hide DateTimeEnd;
      MinutesPass(b, i + 1, t, s.(space := true, time := true));
    } else {
      hide DateTimeEnd;
      MarkPasses(b, i, s);
      TimePasses(b, i + 1, t, s.(time := true));
    }
  }

  lemma OffsetPasses(b: Text, i: nat, t: Text, s: Seen)
    requires IsOffsetText(t) && StandsAt(b, i, t) && i >= 8 && s.date && s.time
    ensures DateTimeEnd(b, i, s) == DateTimeEnd(b, i + |t|, s.(tz := true))
  {
    hide DateTimeEnd, DigitsAt;
    assert b[i + 0] == t[0];
    MarkPasses(b, i, s);
    if |t| == 6 {
      var s' := s.(tz := true);
      assert b[i + 3] == ':';
      DigitsStand(b, i, t, 1, 2);
      DigitsStand(b, i, t, 4, 2);
      DigitsPass(b, i + 1, 2, s');
      MarkPasses(b, i + 3, s');
      DigitsPass(b, i + 4, 2, s');
    }
  }

  /** Where a date or time ends. */
  lemma DateTimeStops(t: Text, rest: Text, s: Seen)
    requires Follows(rest)
    ensures DateTimeEnd(t + rest, |t|, s) == (|t|, s)
  {
    hide Follows;
    var b := t + rest;
    if rest != [] {
      FollowsFirst(rest);
      assert b[|t|] == rest[0] && (|rest| > 1 ==> b[|t| + 1] == rest[1]);
    }
  }

  datatype Moment = Moment(date: Text, joint: Text, time: Text, offset: Text)

  function MomentText(m: Moment): Text {
    m.date + m.joint + m.time + m.offset
  }

  /** The four kinds: a date, a time, both, and both with an offset. */
  predicate IsMoment(m: Moment, kind: Kind) {
    match kind
    case LocalDate => IsDateText(m.date) && m.joint == "" && m.time == "" && m.offset == ""
    case LocalTime => m.date == "" && m.joint == "" && IsTimeText(m.time) && m.offset == ""
    case LocalDateTime => Joined(m) && m.offset == ""
    case DateTime => Joined(m) && IsOffsetText(m.offset)
    case _ => false
  }

  predicate Joined(m: Moment) {
    IsDateText(m.date) && |m.joint| == 1 && IsJoint(m.joint[0]) && IsTimeText(m.time)
  }

  lemma MomentParts(m: Moment, rest: Text)
    ensures var b := MomentText(m) + rest;
      && StandsAt(b, 0, m.date) && StandsAt(b, |m.date|, m.joint) && StandsAt(b, |m.date| + |m.joint|, m.time)
      && StandsAt(b, |m.date| + |m.joint| + |m.time|, m.offset)
  {
  }

  lemma MomentEnds(m: Moment, kind: Kind, rest: Text)
    requires IsMoment(m, kind) && Follows(rest)
    ensures var b, t := MomentText(m) + rest, MomentText(m);
      var (n, s) := DateTimeEnd(b, 0, Seen(false, false, false, false));
      && n == |t| && s.date == !kind.LocalTime? && s.time == !kind.LocalDate? && s.tz == kind.DateTime?
  {
    hide DateTimeEnd, Follows, IsDateText, IsTimeText, IsOffsetText, StandsAt;
    var none := Seen(false, false, false, false);
    var t := MomentText(m);
    var b := t + rest;
    MomentParts(m, rest);
    if kind.LocalTime? {
      assert t == m.time;
      TimePasses(b, 0, m.time, none);
      DateTimeStops(t, rest, none.(time := true));
    } else {
      DatePasses(b, m.date, none);
      var s := none.(date := true);
      assert |m.date| == 10 by { DateSize(m.date); }
      if kind.LocalDate? {
        assert t == m.date;
        DateTimeStops(t, rest, s);
      } else {
        assert b[10] == m.joint[0] by { JointAt(b, 10, m.joint); }
        JoinedPasses(b, 10, m.time, s);
        s := s.(time := true, space := b[10] == ' ');
        if kind.DateTime? {
          OffsetPasses(b, 11 + |m.time|, m.offset, s);
          s := s.(tz := true);
        }
        DateTimeStops(t, rest, s);
      }
    }
  }

  lemma DateSize(t: Text)
    requires IsDateText(t)
    ensures |t| == 10
  {
  }

  lemma JointAt(b: Text, i: nat, joint: Text)
    requires StandsAt(b, i, joint) && joint != []
    ensures i < |b| && b[i] == joint[0]
  {
    assert b[i + 0] == joint[0];
  }

  lemma MomentLooks(m: Moment, kind: Kind, rest: Text)
    requires IsMoment(m, kind)
    ensures var b := MomentText(m) + rest; b != [] && IsDigit(b[0]) && LooksLikeDateTime(b)
  {
    var b := MomentText(m) + rest;
    if kind.LocalTime? {
      assert forall k :: 0 <= k < 3 ==> b[k] == m.time[k];
    } else {
      assert forall k :: 0 <= k < 5 ==> b[k] == m.date[k];
    }
  }

  /** A date or a time is one token of its kind. */
  lemma MomentToken(m: Moment, kind: Kind)
    requires IsMoment(m, kind)
    ensures TokenReads(MomentText(m), kind, MomentText(m))
  {
    hide ParseVal, Follows, DateTimeEnd, IsMoment, LooksLikeDateTime, MomentText;
    var t := MomentText(m);
    assert IsDigit((t + [])[0]) && t + [] == t by { MomentLooks(m, kind, []); assert t + [] == t; }
    forall rest | Follows(rest) ensures ParseVal(t + rest) == Ok((Leaf(kind, t), rest)) {
      var b := t + rest;
      MomentLooks(m, kind, rest);
      MomentEnds(m, kind, rest);
      assert kind in {LocalDate, LocalTime, LocalDateTime, DateTime} by { MomentKinds(m, kind); }
      assert ScanScalar(b) == Ok((kind, |t|));
      assert b[..|t|] == t && b[|t|..] == rest;
      ScalarValue(b, kind, |t|);
    }
  }

  lemma MomentKinds(m: Moment, kind: Kind)
    requires IsMoment(m, kind)
    ensures kind in {LocalDate, LocalTime, LocalDateTime, DateTime}
  {
  }
}
