/**
  What the parser reads beyond what the encoder prints: basic strings with any escapes (section "String" of TOML 1.0.0),
  as pieces of text that are written one way and mean another.
*/
module TomlEscapes {
  import opened TomlText
  import opened TomlStrings
  import opened TomlGrammar
  import opened TomlDecoder

  // ---------- runes ----------

  predicate Scalar(r: nat) {
    r <= 0x10FFFF && !(0xD800 <= r < 0xE000)
  }

  /** The code point that UTF-8 text stands for, as section 3 of RFC 3629 has it. */
  function CodePoint(b: Text): int
    requires 1 <= |b| <= 4
  {
    if |b| == 1 then b[0] as int
    else if |b| == 2 then (b[0] as int - 0xC0) * 64 + (b[1] as int - 0x80)
    else if |b| == 3 then ((b[0] as int - 0xE0) * 64 + (b[1] as int - 0x80)) * 64 + (b[2] as int - 0x80)
    else (((b[0] as int - 0xF0) * 64 + (b[1] as int - 0x80)) * 64 + (b[2] as int - 0x80)) * 64 + (b[3] as int - 0x80)
  }

  lemma Sixths(r: nat)
    ensures r == r / 64 * 64 + r % 64 && r / 64 / 64 == r / 4096 && r / 4096 / 64 == r / 262144
  {
  }

  /** Every scalar value is written as one valid rune that stands for it. */
  lemma RuneIsCode(r: nat)
    requires Scalar(r)
    ensures var b := WriteRune(r); 1 <= |b| <= 4 && RuneSize(b) == |b| && CodePoint(b) == r
  {
    Sixths(r);
    Sixths(r / 64);
    if r >= 0x10000 {
      LongRuneIsCode(r);
    }
  }

  lemma LongRuneIsCode(r: nat)
    requires 0x10000 <= r <= 0x10FFFF
    ensures var b := WriteRune(r); |b| == 4 && RuneSize(b) == 4 && CodePoint(b) == r
  {
    Sixths(r);
    Sixths(r / 64);
    var top, high := r / 262144, r / 4096 % 64;
    assert r / 4096 == top * 64 + high;
    assert top == 0 ==> high >= 16;
    assert top == 4 ==> high < 16;
    assert top <= 4;
  }

  lemma PairOf(h: nat, l: nat)
    requires l < 64
    ensures (h * 64 + l) / 64 == h && (h * 64 + l) % 64 == l
  {
  }

  lemma TwoBytes(b: Text)
    requires |b| >= 2 && RuneSize(b) == 2
    ensures var r := CodePoint(b[..2]); 0x80 <= r < 0x800 && WriteRune(r) == b[..2]
  {
    PairOf(b[0] as int - 0xC0, b[1] as int - 0x80);
  }

  lemma ThreeBytes(b: Text)
    requires |b| >= 3 && RuneSize(b) == 3
    ensures var r := CodePoint(b[..3]); 0x800 <= r < 0x10000 && Scalar(r) && WriteRune(r) == b[..3]
  {
    var x, y, z := b[0] as int - 0xE0, b[1] as int - 0x80, b[2] as int - 0x80;
    PairOf(x * 64 + y, z);
    PairOf(x, y);
    var r := CodePoint(b[..3]);
    assert r == (x * 64 + y) * 64 + z;
    Sixths(r);
  }

  lemma FourBytes(b: Text)
    requires |b| >= 4 && RuneSize(b) == 4
    ensures var r := CodePoint(b[..4]); 0x10000 <= r <= 0x10FFFF && WriteRune(r) == b[..4]
  {
    var w, x, y, z := b[0] as int - 0xF0, b[1] as int - 0x80, b[2] as int - 0x80, b[3] as int - 0x80;
    PairOf((w * 64 + x) * 64 + y, z);
    PairOf(w * 64 + x, y);
    PairOf(w, x);
    var r := CodePoint(b[..4]);
    assert r == ((w * 64 + x) * 64 + y) * 64 + z;
    Sixths(r);
  }

  /** A valid rune is the one way to write its code point: no other forms and no surrogates are valid. */
  lemma ValidIsCode(b: Text)
    requires b != [] && RuneSize(b) > 0
    ensures var n := RuneSize(b); var r := CodePoint(b[..n]); 0 <= r && Scalar(r) && WriteRune(r) == b[..n]
  {
    hide Scalar;
    if |b| >= 2 && RuneSize(b) == 2 { TwoBytes(b); }
    if |b| >= 3 && RuneSize(b) == 3 { ThreeBytes(b); }
    if |b| >= 4 && RuneSize(b) == 4 { FourBytes(b); }
    ScalarRanges();
  }

  lemma ScalarRanges()
    ensures forall r: nat {:trigger Scalar(r)} :: r < 0x800 || 0x10000 <= r <= 0x10FFFF ==> Scalar(r)
  {
  }

  // ---------- the place of a fault ----------

  /** The bytes a rune with this first byte has; none for a byte that begins no rune. */
  function RuneLength(c: char): nat {
    if c < '\U{80}' then 1 else Lead(c).0
  }

  /** Text that begins no valid rune, whatever follows. */
  ghost predicate NoRune(t: Text) {
    forall x :: t + x != [] ==> ValidNext(t + x) == 0
  }

  /**
    The size reported for an invalid rune: all that is left if that is too short, or else the bytes up to the first one
    with which no rune begins.
  */
  lemma FaultIs(b: Text)
    requires b != [] && ValidNext(b) == 0
    ensures var n := FaultSize(b);
      if |b| < RuneLength(b[0]) then n == |b| else NoRune(b[..n]) && !NoRune(b[..n - 1])
  {
    var n := FaultSize(b);
    if |b| >= RuneLength(b[0]) {
      forall x | b[..n] + x != [] ensures ValidNext(b[..n] + x) == 0 {
        var t := b[..n] + x;
        assert forall i :: 0 <= i < n ==> t[i] == b[i];
      }
      Completes(b, n);
    }
  }

  lemma Completes(b: Text, n: nat)
    requires b != [] && ValidNext(b) == 0 && n == FaultSize(b) && |b| >= RuneLength(b[0])
    ensures !NoRune(b[..n - 1])
  {
    var t := b[..n - 1];
    if n == 1 {
      assert t + "a" == "a" && ValidNext("a") == 1;
    } else {
      var (size, lo, hi) := Lead(b[0]);
      var x := if n == 2 then [lo, '\U{80}', '\U{80}'] else ['\U{80}', '\U{80}'];
      var u := t + x;
      assert u[0] == b[0] && (n > 2 ==> u[1] == b[1]) && (n > 3 ==> u[2] == b[2]);
      assert ValidNext(u) == size;
    }
  }

  // ---------- hex digits ----------

  function DigitOf(n: nat, upper: bool): char
    requires n < 16
  {
    if upper then "0123456789ABCDEF"[n] else "0123456789abcdef"[n]
  }

  /** A number in n hex digits. */
  function HexText(r: nat, n: nat, upper: bool): (s: Text)
    ensures |s| == n
  {
    if n == 0 then [] else HexText(r / 16, n - 1, upper) + [DigitOf(r % 16, upper)]
  }

  lemma DigitReads(n: nat, upper: bool)
    requires n < 16
    ensures HexValue(DigitOf(n, upper)) == Ok(n)
  {
  }

  lemma {:induction false} HexReads(r: nat, n: nat, upper: bool)
    requires r < Pow16(n)
    ensures HexNumber(HexText(r, n, upper)) == Ok(r)
    ensures forall i :: 0 <= i < n ==> HexValue(HexText(r, n, upper)[i]).Ok?
  {
    hide HexValue, DigitOf;
    if n > 0 {
      var s := HexText(r, n, upper);
      assert s[..n - 1] == HexText(r / 16, n - 1, upper) && s[n - 1] == DigitOf(r % 16, upper);
      HexReads(r / 16, n - 1, upper);
      DigitReads(r % 16, upper);
    }
  }

  lemma Widths()
    ensures Pow16(4) == 0x10000 && Pow16(8) == 0x1_0000_0000
  {
    assert Pow16(2) == 256 && Pow16(6) == 0x100_0000;
  }

  // ---------- pieces ----------

  /** The escapes of one letter and the characters they stand for. */
  const LETTERS: seq<(char, nat)> :=
    [('b', 0x08), ('t', 0x09), ('n', 0x0A), ('f', 0x0C), ('r', 0x0D), ('e', 0x1B), ('"', 0x22), ('\\', 0x5C)]

  /**
    A rune that stands for itself, a newline, an escape of one letter, a code point, or a backslash at the end of a line
    with all blanks and newlines behind it.
  */
  datatype Piece =
    | Rune(t: Text)
    | Line(t: Text)
    | Letter(i: nat)
    | Code(r: nat, long: bool, upper: bool)
    | Fold(t: Text)

  predicate IsNewline(t: Text) {
    t == "\n" || t == "\r\n"
  }

  /** Blanks and newlines, with no carriage return alone. */
  predicate Blanks(t: Text) {
    forall i :: 0 <= i < |t| ==> BlankAt(t, i)
  }

  predicate BlankAt(t: Text, i: nat)
    requires i < |t|
  {
    IsBlank(t[i]) && (t[i] == '\r' ==> i + 1 < |t| && t[i + 1] == '\n')
  }

  lemma BlanksTail(t: Text, n: nat)
    requires Blanks(t) && n <= |t|
    ensures Blanks(t[n..])
  {
    forall i | 0 <= i < |t[n..]| ensures BlankAt(t[n..], i) {
      assert BlankAt(t, n + i);
    }
  }

  predicate Good(p: Piece) {
    match p
    case Rune(t) => t != [] && ValidNext(t) == |t| && t[0] != '\\' && t[0] != '\n' && t[0] != '\r'
    case Line(t) => IsNewline(t)
    case Letter(i) => i < |LETTERS|
    case Code(r, long, _) => Scalar(r) && (!long ==> r < 0x10000)
    case Fold(t) => Blanks(t) && '\n' in t
  }

  function WrittenOne(p: Piece): (s: Text)
    requires Good(p)
    ensures s != []
  {
    match p
    case Rune(t) => t
    case Line(t) => t
    case Letter(i) => ['\\', LETTERS[i].0]
    case Code(r, long, upper) => if long then "\\U" + HexText(r, 8, upper) else "\\u" + HexText(r, 4, upper)
    case Fold(t) => "\\" + t
  }

  function MeantOne(p: Piece): Text
    requires Good(p)
  {
    match p
    case Rune(t) => t
    case Line(t) => t
    case Letter(i) => [LETTERS[i].1 as char]
    case Code(r, _, _) => WriteRune(r)
    case Fold(_) => []
  }

  predicate AllGood(ps: seq<Piece>) {
    forall i :: 0 <= i < |ps| ==> Good(ps[i])
  }

  function Written(ps: seq<Piece>): Text
    requires AllGood(ps)
  {
    if ps == [] then [] else WrittenOne(ps[0]) + Written(ps[1..])
  }

  function Meant(ps: seq<Piece>): Text
    requires AllGood(ps)
  {
    if ps == [] then [] else MeantOne(ps[0]) + Meant(ps[1..])
  }

  predicate IsQuote(p: Piece) {
    p == Rune("\"")
  }

  // ---------- scanning ----------

  lemma {:induction false} PlainRun(t: Text, x: Text)
    requires forall i :: 0 <= i < |t| ==> t[i] != '"' && t[i] != '\\' && t[i] != '\n' && t[i] != '\r'
    ensures BasicEnd(t + x) == Plus(|t|, BasicEnd(x)) && MultilineEnd(t + x) == Plus(|t|, MultilineEnd(x))
  {
    hide BasicEnd, MultilineEnd;
    if t == [] {
      assert t + x == x;
    } else {
      TailOf(t, x);
      PlainByteEnds(t + x);
      PlainRun(t[1..], x);
    }
  }

  lemma RuneBytes(t: Text)
    requires t != [] && ValidNext(t) == |t|
    ensures forall i :: 1 <= i < |t| ==> t[i] >= '\U{80}'
  {
  }

  lemma {:induction false} BlankRun(t: Text, x: Text)
    requires Blanks(t)
    ensures MultilineEnd(t + x) == Plus(|t|, MultilineEnd(x))
    decreases |t|
  {
    if t == [] {
      assert t + x == x;
    } else {
      assert BlankAt(t, 0);
      var n := if t[0] == '\r' then 2 else 1;
      assert (t + x)[n..] == t[n..] + x;
      BlanksTail(t, n);
      BlankRun(t[n..], x);
    }
  }

  /** The digits of a code point, behind the backslash and its letter. */
  lemma CodeEnds(r: nat, n: nat, upper: bool, x: Text)
    requires r < Pow16(n)
    ensures BasicEnd(HexText(r, n, upper) + x) == Plus(n, BasicEnd(x))
    ensures MultilineEnd(HexText(r, n, upper) + x) == Plus(n, MultilineEnd(x))
  {
    HexReads(r, n, upper);
    PlainHex(HexText(r, n, upper), x);
  }

  lemma EscapeEnds(c: char, x: Text)
    ensures BasicEnd(['\\', c] + x) == Plus(2, BasicEnd(x)) && MultilineEnd(['\\', c] + x) == Plus(2, MultilineEnd(x))
  {
    assert (['\\', c] + x)[2..] == x;
  }

  lemma PlusPlus(m: nat, n: nat, r: Result<nat>)
    ensures Plus(m, Plus(n, r)) == Plus(m + n, r)
  {
  }

  lemma PieceEnds(p: Piece, x: Text)
    requires Good(p) && !IsQuote(p)
    ensures MultilineEnd(WrittenOne(p) + x) == Plus(|WrittenOne(p)|, MultilineEnd(x))
    ensures !p.Line? && !p.Fold? ==> BasicEnd(WrittenOne(p) + x) == Plus(|WrittenOne(p)|, BasicEnd(x))
  {
    hide BasicEnd, MultilineEnd, HexText, ValidNext;
    Widths();
    var w := WrittenOne(p);
    match p
    case Rune(t) =>
      RuneBytes(t);
      if t[0] == '"' { OneByte(t); }
      PlainRun(t, x);
    case Line(t) => BlankRun(t, x);
    case Letter(i) => EscapeEnds(w[1], x);
    case Code(r, long, upper) => CodePieceEnds(r, if long then 8 else 4, upper, w[1], x);
    case Fold(t) => FoldEnds(t, x);
  }

  lemma CodePieceEnds(r: nat, n: nat, upper: bool, c: char, x: Text)
    requires (n == 4 || n == 8) && r < Pow16(n)
    ensures BasicEnd(['\\', c] + HexText(r, n, upper) + x) == Plus(2 + n, BasicEnd(x))
    ensures MultilineEnd(['\\', c] + HexText(r, n, upper) + x) == Plus(2 + n, MultilineEnd(x))
  {
    hide BasicEnd, MultilineEnd, HexText;
    var h := HexText(r, n, upper);
    assert ['\\', c] + h + x == ['\\', c] + (h + x);
    EscapeEnds(c, h + x);
    CodeEnds(r, n, upper, x);
    PlusPlus(2, n, BasicEnd(x));
    PlusPlus(2, n, MultilineEnd(x));
  }

  lemma FoldEnds(t: Text, x: Text)
    requires Blanks(t) && t != []
    ensures MultilineEnd("\\" + t + x) == Plus(1 + |t|, MultilineEnd(x))
  {
    hide MultilineEnd, Blanks;
    assert "\\" + t + x == ['\\', t[0]] + (t[1..] + x);
    EscapeEnds(t[0], t[1..] + x);
    BlanksTail(t, 1);
    BlankRun(t[1..], x);
    PlusPlus(2, |t| - 1, MultilineEnd(x));
  }

  lemma OneByte(t: Text)
    requires t != [] && ValidNext(t) == |t| && t[0] == '"'
    ensures t == "\""
  {
  }

  // ---------- decoding ----------

  lemma LetterDecodes(i: nat)
    requires i < |LETTERS|
    ensures SimpleEscape(LETTERS[i].0) == Ok(LETTERS[i].1 as char)
    ensures !IsBlank(LETTERS[i].0)
  {
  }

  lemma BasicLetter(i: nat, x: Text)
    requires i < |LETTERS| && x != []
    ensures DecodeBasic(['\\', LETTERS[i].0] + x) == Prepend([LETTERS[i].1 as char], DecodeBasic(x))
  {
    hide SimpleEscape;
    LetterDecodes(i);
    assert (['\\', LETTERS[i].0] + x)[2..] == x;
  }

  lemma {:induction false} BasicCodeStep(t: Text)
    requires |t| > 2 && t[0] == '\\' && (t[1] == 'u' || t[1] == 'U')
    ensures var n := if t[1] == 'u' then 4 else 8;
      HexToRune(t[2..|t| - 1], n).Ok? && 2 + n <= |t| ==>
        DecodeBasic(t) == Prepend(WriteRune(HexToRune(t[2..|t| - 1], n).value), DecodeBasic(t[2 + n..]))
  {
    hide HexNumber, WriteRune, ValidNext;
  }

  lemma {:induction false} LinesCodeStep(t: Text)
    requires |t| > 3 && t[0] == '\\' && (t[1] == 'u' || t[1] == 'U')
    ensures var n := if t[1] == 'u' then 4 else 8;
      HexToRune(t[2..], n).Ok? && 2 + n <= |t| ==>
        DecodeMultiline(t) == Prepend(WriteRune(HexToRune(t[2..], n).value), DecodeMultiline(t[2 + n..]))
  {
    hide HexNumber, WriteRune, ValidNext;
    assert LineEndAfter(t, 1).Err?;
  }

  lemma CodeIsRead(u: Text, r: nat, n: nat, upper: bool)
    requires Scalar(r) && r < Pow16(n) && n <= |u| && u[..n] == HexText(r, n, upper)
    ensures HexToRune(u, n) == Ok(r)
  {
    hide HexText, HexNumber;
    HexReads(r, n, upper);
  }

  lemma BasicCode(r: nat, n: nat, upper: bool, x: Text)
    requires Scalar(r) && (n == 4 || n == 8) && r < Pow16(n) && x != []
    ensures DecodeBasic(['\\', if n == 4 then 'u' else 'U'] + HexText(r, n, upper) + x)
         == Prepend(WriteRune(r), DecodeBasic(x))
  {
    hide HexText, WriteRune, DecodeBasic, HexToRune, Prepend;
    var h := HexText(r, n, upper);
    var c := if n == 4 then 'u' else 'U';
    var t := ['\\', c] + h + x;
    assert t[..2] == ['\\', c];
    CodeSlices(t, h, x);
    CodeIsRead(t[2..|t| - 1], r, n, upper);
    BasicCodeStep(t);
  }

  lemma CodeSlices(t: Text, h: Text, x: Text)
    requires |t| >= 2 && t == t[..2] + h + x && x != []
    ensures t[2..][..|h|] == h && t[2..|t| - 1][..|h|] == h && t[2 + |h|..] == x
  {
  }

  lemma BasicRune(t: Text, x: Text)
    requires Good(Rune(t)) && x != []
    ensures DecodeBasic(t + x) == Prepend(t, DecodeBasic(x))
  {
    NextStays(t, x);
    hide ValidNext;
    assert (t + x)[..|t|] == t && (t + x)[|t|..] == x;
  }

  lemma BasicDecodes(p: Piece, x: Text)
    requires Good(p) && !p.Line? && !p.Fold? && x != []
    ensures DecodeBasic(WrittenOne(p) + x) == Prepend(MeantOne(p), DecodeBasic(x))
  {
    hide DecodeBasic, HexText, WriteRune;
    Widths();
    match p
    case Rune(t) => BasicRune(t, x);
    case Letter(i) => BasicLetter(i, x);
    case Code(r, long, upper) => BasicCode(r, if long then 8 else 4, upper, x);
  }

  lemma LinesLetter(i: nat, x: Text)
    requires i < |LETTERS| && |x| >= 3
    ensures DecodeMultiline(['\\', LETTERS[i].0] + x) == Prepend([LETTERS[i].1 as char], DecodeMultiline(x))
  {
    hide SimpleEscape;
    LetterDecodes(i);
    var t := ['\\', LETTERS[i].0] + x;
    assert t[2..] == x && LineEndAfter(t, 1).Err?;
  }

  lemma LinesCode(r: nat, n: nat, upper: bool, x: Text)
    requires Scalar(r) && (n == 4 || n == 8) && r < Pow16(n) && |x| >= 3
    ensures DecodeMultiline(['\\', if n == 4 then 'u' else 'U'] + HexText(r, n, upper) + x)
         == Prepend(WriteRune(r), DecodeMultiline(x))
  {
    hide HexText, WriteRune, DecodeMultiline, HexToRune, Prepend;
    var h := HexText(r, n, upper);
    var c := if n == 4 then 'u' else 'U';
    var t := ['\\', c] + h + x;
    assert t[..2] == ['\\', c];
    CodeSlices(t, h, x);
    CodeIsRead(t[2..], r, n, upper);
    LinesCodeStep(t);
  }

  lemma LinesRune(t: Text, x: Text)
    requires t != [] && ValidNext(t) == |t| && t[0] != '\\' && |x| >= 3
    ensures DecodeMultiline(t + x) == Prepend(t, DecodeMultiline(x))
  {
    NextStays(t, x);
    hide ValidNext;
    assert (t + x)[..|t|] == t && (t + x)[|t|..] == x;
  }

  lemma LinesNewline(t: Text, x: Text)
    requires IsNewline(t) && |x| >= 3
    ensures DecodeMultiline(t + x) == Prepend(t, DecodeMultiline(x))
  {
    OneByteRune('\n');
    OneByteRune('\r');
    hide DecodeMultiline, ValidNext, Prepend;
    if t == "\n" {
      LinesRune(t, x);
    } else {
      LinesRune("\n", x);
      LinesRune("\r", "\n" + x);
      assert t == "\r" + "\n" && t + x == "\r" + ("\n" + x);
      PrependTwice("\r", "\n", DecodeMultiline(x));
    }
  }

  lemma OneByteRune(c: char)
    requires c == '\n' || c == '\r'
    ensures ValidNext([c]) == 1
  {
  }

  /** Only blanks stand before the first newline of a fold. */
  lemma {:induction false} FoldLineEnd(t: Text, x: Text, j: nat) returns (n: nat)
    requires Blanks(t) && |x| >= 3 && j <= |t| && '\n' in t[j..]
    ensures j <= n < |t| && t[n] == '\n' && LineEndAfter("\\" + t + x, 1 + j) == Ok(1 + n)
    decreases |t| - j
  {
    var b := "\\" + t + x;
    assert BlankAt(t, j);
    assert b[1 + j] == t[j] && (j + 1 < |t| ==> b[2 + j] == t[j + 1]);
    if t[j] == '\n' {
      n := j;
    } else {
      assert t[j..] == [t[j]] + t[j + 1..];
      n := FoldLineEnd(t, x, j + 1);
    }
  }

  lemma {:induction false} BlanksTrimmed(t: Text, x: Text)
    requires Blanks(t) && |x| >= 3 && !IsBlank(x[0])
    ensures TrimBlanks(t + x) == x
  {
    if t == [] {
      assert t + x == x;
    } else {
      assert BlankAt(t, 0);
      assert (t + x)[1..] == t[1..] + x;
      BlanksTail(t, 1);
      BlanksTrimmed(t[1..], x);
    }
  }

  lemma LinesFold(t: Text, x: Text)
    requires Good(Fold(t)) && |x| >= 3 && !IsBlank(x[0])
    ensures DecodeMultiline("\\" + t + x) == DecodeMultiline(x)
  {
    hide LineEndAfter, TrimBlanks, Blanks, IsBlank, DecodeMultiline;
    var b := "\\" + t + x;
    assert t[0..] == t;
    var n := FoldLineEnd(t, x, 0);
    assert b[1 + n..] == t[n..] + x;
    BlanksTail(t, n);
    BlanksTrimmed(t[n..], x);
    LinesFoldStep(b);
  }

  lemma LinesFoldStep(b: Text)
    requires |b| > 3 && b[0] == '\\' && LineEndAfter(b, 1).Ok?
    ensures DecodeMultiline(b) == DecodeMultiline(TrimBlanks(b[LineEndAfter(b, 1).value..]))
  {
    hide LineEndAfter, TrimBlanks, SimpleEscape, HexToRune, WriteRune, ValidNext;
  }

  lemma LinesDecodes(p: Piece, x: Text)
    requires Good(p) && |x| >= 3 && (p.Fold? ==> !IsBlank(x[0]))
    ensures DecodeMultiline(WrittenOne(p) + x) == Prepend(MeantOne(p), DecodeMultiline(x))
  {
    hide DecodeMultiline, HexText, WriteRune;
    Widths();
    match p
    case Rune(t) => LinesRune(t, x);
    case Line(t) => LinesNewline(t, x);
    case Letter(i) => LinesLetter(i, x);
    case Code(r, long, upper) => LinesCode(r, if long then 8 else 4, upper, x);
    case Fold(t) => LinesFold(t, x); PrependNone(DecodeMultiline(x));
  }

  // ---------- on one line ----------

  predicate OnOneLine(ps: seq<Piece>) {
    AllGood(ps) && forall i :: 0 <= i < |ps| ==> !ps[i].Line? && !ps[i].Fold? && !IsQuote(ps[i])
  }

  lemma Regroup(a: Text, b: Text, c: Text)
    ensures a + b + c == a + (b + c)
  {
  }

  lemma {:induction false} BasicWrittenEnds(ps: seq<Piece>, x: Text)
    requires OnOneLine(ps)
    ensures BasicEnd(Written(ps) + x) == Plus(|Written(ps)|, BasicEnd(x))
  {
    hide BasicEnd, Good, WrittenOne;
    if ps == [] {
      assert Written(ps) + x == x;
    } else {
      Regroup(WrittenOne(ps[0]), Written(ps[1..]), x);
      PieceEnds(ps[0], Written(ps[1..]) + x);
      BasicWrittenEnds(ps[1..], x);
      PlusPlus(|WrittenOne(ps[0])|, |Written(ps[1..])|, BasicEnd(x));
    }
  }

  lemma {:induction false} BasicWrittenDecodes(ps: seq<Piece>)
    requires OnOneLine(ps)
    ensures DecodeBasic(Written(ps) + "\"") == Ok(Meant(ps))
  {
    hide Good, WrittenOne, MeantOne;
    if ps == [] {
      assert Written(ps) + "\"" == "\"";
    } else {
      hide DecodeBasic;
      Regroup(WrittenOne(ps[0]), Written(ps[1..]), "\"");
      BasicDecodes(ps[0], Written(ps[1..]) + "\"");
      BasicWrittenDecodes(ps[1..]);
    }
  }

  lemma InConcat(a: Text, b: Text)
    ensures HasBackslash(a + b) <==> HasBackslash(a) || HasBackslash(b)
  {
    forall i | 0 <= i < |a| ensures (a + b)[i] == a[i] { }
    forall i | 0 <= i < |b| ensures (a + b)[|a| + i] == b[i] { }
  }

  lemma PlainPieceMeans(p: Piece)
    requires Good(p) && !HasBackslash(WrittenOne(p))
    ensures MeantOne(p) == WrittenOne(p) && TomlValid(WrittenOne(p))
  {
    var w := WrittenOne(p);
    EscapesBegin(p);
    assert p.Rune? || p.Line?;
    assert w[|w|..] == [];
    if w == "\r\n" {
      assert w[1..] == "\n" && w[1..][1..] == "";
    }
  }

  lemma EscapesBegin(p: Piece)
    requires Good(p)
    ensures p.Letter? || p.Code? || p.Fold? ==> HasBackslash(WrittenOne(p))
  {
    var w := WrittenOne(p);
    if p.Letter? || p.Code? || p.Fold? { assert w[0] == '\\'; }
  }

  /** Without a backslash the pieces mean what they are written as. */
  lemma {:induction false} PlainWrittenMeans(ps: seq<Piece>)
    requires AllGood(ps) && !HasBackslash(Written(ps))
    ensures Meant(ps) == Written(ps) && TomlValid(Written(ps))
  {
    hide Good, WrittenOne, MeantOne, HasBackslash;
    if ps != [] {
      InConcat(WrittenOne(ps[0]), Written(ps[1..]));
      PlainPieceMeans(ps[0]);
      PlainWrittenMeans(ps[1..]);
      ValidAppend(WrittenOne(ps[0]), Written(ps[1..]));
    }
  }

  lemma BasicTextReads(ps: seq<Piece>, rest: Text)
    requires OnOneLine(ps)
    ensures ParseBasic("\"" + Written(ps) + "\"" + rest) == Ok((Meant(ps), rest))
  {
    hide Written, Meant, DecodeBasic, TomlValid, HasBackslash, Good;
    var w := Written(ps);
    var b := "\"" + w + "\"" + rest;
    BasicWrittenEnds(ps, "\"" + rest);
    assert b[1..] == w + ("\"" + rest);
    assert BasicEnd("\"" + rest) == Ok(1);
    hide BasicEnd;
    var n := |w| + 1;
    assert b[..1 + n][1..n] == w && b[..1 + n][1..] == w + "\"" && b[1 + n..] == rest;
    if HasBackslash(w) { BasicWrittenDecodes(ps); } else { PlainWrittenMeans(ps); }
  }

  lemma FirstByte(p: Piece)
    requires Good(p)
    ensures WrittenOne(p)[0] == '"' <==> IsQuote(p)
    ensures IsBlank(WrittenOne(p)[0]) ==> p.Line? || p.Rune?
  {
    if p.Rune? && p.t[0] == '"' { OneByte(p.t); }
  }

  /** A basic string is read as what its pieces mean, with exactly the text behind it left. */
  lemma BasicValue(ps: seq<Piece>, rest: Text)
    requires OnOneLine(ps) && (ps == [] ==> rest == [] || rest[0] != '"')
    ensures ParseVal("\"" + Written(ps) + "\"" + rest) == Ok((Leaf(String, Meant(ps)), rest))
  {
    hide ParseBasic, ParseMultiline, Good, WrittenOne, ParseVal;
    var b := "\"" + Written(ps) + "\"" + rest;
    BasicTextReads(ps, rest);
    ValueIsString(b);
    if ps == [] {
      assert rest != [] ==> b[2] == rest[0];
    } else {
      FirstByte(ps[0]);
      assert b[1] == WrittenOne(ps[0])[0];
    }
    assert !Starts(b, "\"\"\"");
  }

  lemma ValueIsString(b: Text)
    requires b != [] && b[0] == '"'
    ensures ParseVal(b) == LeafOf(String, ParseString(b))
  {
    hide ParseString, ParseElements, ParsePairs, ScanScalar;
  }

  /** As a key. */
  lemma BasicKey(ps: seq<Piece>, rest: Text)
    requires OnOneLine(ps)
    ensures ParseSimpleKey("\"" + Written(ps) + "\"" + rest) == Ok((Meant(ps), rest))
  {
    hide ParseBasic, Written;
    BasicTextReads(ps, rest);
  }

  // ---------- on several lines ----------

  /** Never three quotes in a row, and a fold has all the blanks there are. */
  predicate OnLines(ps: seq<Piece>) {
    && AllGood(ps)
    && (forall i :: 0 <= i < |ps| - 2 ==> !(IsQuote(ps[i]) && IsQuote(ps[i + 1]) && IsQuote(ps[i + 2])))
    && (forall i :: 0 <= i < |ps| - 1 && ps[i].Fold? ==> !IsBlank(WrittenOne(ps[i + 1])[0]))
  }

  lemma OnLinesTail(ps: seq<Piece>)
    requires OnLines(ps) && ps != []
    ensures OnLines(ps[1..])
  {
    hide Good, WrittenOne;
    var tail := ps[1..];
    assert forall i :: 0 <= i < |tail| ==> tail[i] == ps[i + 1];
  }

  predicate FewQuotes(ps: seq<Piece>) {
    |ps| <= 2 && forall i :: 0 <= i < |ps| ==> IsQuote(ps[i])
  }

  lemma FewQuotesClose(ps: seq<Piece>, rest: Text)
    requires AllGood(ps) && FewQuotes(ps) && (rest == [] || rest[0] != '"')
    ensures |Written(ps)| == |ps| && MultilineEnd(Written(ps) + ("\"\"\"" + rest)) == Ok(|ps| + 3)
  {
    hide Written, MultilineEnd;
    QuotesWritten(ps);
    QuotesEnd(Written(ps), rest);
  }

  lemma {:induction false} QuotesWritten(ps: seq<Piece>)
    requires AllGood(ps) && forall i :: 0 <= i < |ps| ==> IsQuote(ps[i])
    ensures |Written(ps)| == |ps| && forall i :: 0 <= i < |ps| ==> Written(ps)[i] == '"'
  {
    if ps != [] {
      hide Good;
      QuoteIs(ps[0]);
      QuotesWritten(ps[1..]);
    }
  }

  lemma QuotesEnd(w: Text, rest: Text)
    requires |w| <= 2 && (forall i :: 0 <= i < |w| ==> w[i] == '"') && (rest == [] || rest[0] != '"')
    ensures MultilineEnd(w + ("\"\"\"" + rest)) == Ok(|w| + 3)
  {
    var b := w + ("\"\"\"" + rest);
    assert forall i :: 0 <= i < |w| + 3 ==> b[i] == '"';
    assert rest != [] ==> b[|w| + 3] == rest[0];
    assert b[..3] == "\"\"\"";
    EndsInQuotes(b);
    hide MultilineEnd;
  }

  lemma EndsInQuotes(b: Text)
    requires Starts(b, "\"\"\"")
    ensures MultilineEnd(b) == ClosingQuotes(b, '"')
  {
    hide ClosingQuotes;
    assert b[0] == b[..3][0];
  }

  lemma NotThreeQuotes(ps: seq<Piece>, x: Text)
    requires OnLines(ps) && ps != [] && IsQuote(ps[0]) && !FewQuotes(ps)
    ensures !Starts(Written(ps) + x, "\"\"\"")
  {
    hide Good, WrittenOne, Written;
    var b := Written(ps) + x;
    WrittenFront(ps);
    assert ps[1..] != [];
    WrittenFront(ps[1..]);
    if IsQuote(ps[1]) {
      assert ps[1..][0] == ps[1] && ps[1..][1..] == ps[2..];
      assert ps[2..] != [] && ps[2..][0] == ps[2];
      WrittenFront(ps[2..]);
      var w := Written(ps[2..]);
      assert b == "\"" + ("\"" + w) + x && b[2] == w[0];
    } else {
      var w := Written(ps[1..]);
      assert b == "\"" + w + x && b[1] == w[0];
    }
  }

  lemma WrittenFront(ps: seq<Piece>)
    requires AllGood(ps) && ps != []
    ensures Written(ps) != [] && (Written(ps)[0] == '"' <==> IsQuote(ps[0]))
    ensures IsQuote(ps[0]) ==> Written(ps) == "\"" + Written(ps[1..])
  {
    hide Good, WrittenOne;
    FirstByte(ps[0]);
    if IsQuote(ps[0]) { QuoteIs(ps[0]); }
  }

  lemma QuoteIs(p: Piece)
    requires IsQuote(p)
    ensures Good(p) && WrittenOne(p) == "\""
  {
  }

  lemma QuoteEnds(x: Text)
    requires !Starts("\"" + x, "\"\"\"")
    ensures MultilineEnd("\"" + x) == Plus(1, MultilineEnd(x))
  {
    assert ("\"" + x)[1..] == x;
  }

  lemma {:induction false} LinesWrittenEnd(ps: seq<Piece>, rest: Text)
    requires OnLines(ps) && (rest == [] || rest[0] != '"')
    ensures MultilineEnd(Written(ps) + ("\"\"\"" + rest)) == Ok(|Written(ps)| + 3)
  {
    hide MultilineEnd, Good, WrittenOne;
    if FewQuotes(ps) {
      FewQuotesClose(ps, rest);
    } else {
      var x := Written(ps[1..]) + ("\"\"\"" + rest);
      Regroup(WrittenOne(ps[0]), Written(ps[1..]), "\"\"\"" + rest);
      OnLinesTail(ps);
      LinesWrittenEnd(ps[1..], rest);
      if IsQuote(ps[0]) {
        NotThreeQuotes(ps, "\"\"\"" + rest);
        QuoteIs(ps[0]);
        QuoteEnds(x);
      } else {
        PieceEnds(ps[0], x);
      }
    }
  }

  lemma {:induction false} LinesWrittenDecode(ps: seq<Piece>)
    requires OnLines(ps)
    ensures DecodeMultiline(Written(ps) + "\"\"\"") == Ok(Meant(ps))
  {
    hide Good, WrittenOne, MeantOne;
    if ps == [] {
      assert Written(ps) + "\"\"\"" == "\"\"\"";
    } else {
      hide DecodeMultiline;
      var x := Written(ps[1..]) + "\"\"\"";
      Regroup(WrittenOne(ps[0]), Written(ps[1..]), "\"\"\"");
      OnLinesTail(ps);
      assert ps[0].Fold? ==> !IsBlank(x[0]) by {
        if |ps| > 1 { assert x[0] == WrittenOne(ps[1])[0]; } else { assert x[0] == '"'; }
      }
      LinesDecodes(ps[0], x);
      LinesWrittenDecode(ps[1..]);
    }
  }

  /** The newline behind the opening quotes. */
  lemma FirstNewline(nl: Text, w: Text)
    requires nl == "" || IsNewline(nl)
    requires nl == "" ==> !(w != [] && w[0] == '\n') && !Starts(w, "\r\n")
    ensures SkipNewline(nl + w + "\"\"\"") == w + "\"\"\""
  {
    var t := nl + w + "\"\"\"";
    if nl == "" {
      assert t == w + "\"\"\"";
      if w != [] { assert t[0] == w[0]; }
      if |w| >= 2 { assert t[1] == w[1]; }
    } else if nl == "\n" {
      assert t[1..] == w + "\"\"\"";
    } else {
      assert t[0] == '\r' && t[1] == '\n' && t[2..] == w + "\"\"\"";
    }
  }

  lemma NewlineEnds(nl: Text, x: Text)
    requires nl == "" || IsNewline(nl)
    ensures MultilineEnd(nl + x) == Plus(|nl|, MultilineEnd(x)) && !HasBackslash(nl)
  {
    BlankRun(nl, x);
  }

  lemma FirstIsNoNewline(ps: seq<Piece>)
    requires AllGood(ps) && (ps == [] || !ps[0].Line?)
    ensures var w := Written(ps); !(w != [] && w[0] == '\n') && !Starts(w, "\r\n")
  {
    if ps != [] {
      var one := WrittenOne(ps[0]);
      assert one[0] != '\n' && one[0] != '\r';
      assert Written(ps)[0] == one[0];
    }
  }

  /**
    A basic string of several lines is read as what its pieces mean, without a newline behind the opening quotes, with
    exactly the text behind it left.
  */
  lemma LinesValue(nl: Text, ps: seq<Piece>, rest: Text)
    requires OnLines(ps) && (nl == "" || IsNewline(nl)) && (nl == "" ==> ps == [] || !ps[0].Line?)
    requires rest == [] || rest[0] != '"'
    ensures ParseVal("\"\"\"" + nl + Written(ps) + "\"\"\"" + rest) == Ok((Leaf(String, Meant(ps)), rest))
  {
    var w := Written(ps);
    var b := "\"\"\"" + nl + w + "\"\"\"" + rest;
    hide Written, ParseMultiline, ParseBasic, ParseVal, Starts;
    LinesTextReads(nl, ps, rest);
    assert b[0] == '"';
    ValueIsString(b);
  }

  lemma LinesTextReads(nl: Text, ps: seq<Piece>, rest: Text)
    requires OnLines(ps) && (nl == "" || IsNewline(nl)) && (nl == "" ==> ps == [] || !ps[0].Line?)
    requires rest == [] || rest[0] != '"'
    ensures var b := "\"\"\"" + nl + Written(ps) + "\"\"\"" + rest;
      Starts(b, "\"\"\"") && ParseMultiline(b) == Ok((Meant(ps), rest))
  {
    hide Written, Meant, DecodeMultiline, TomlValid, HasBackslash, Good, MultilineEnd, SkipNewline;
    var q, w := "\"\"\"", Written(ps);
    var b := q + nl + w + q + rest;
    LinesLayout(nl, w, rest);
    NewlineEnds(nl, w + (q + rest));
    LinesWrittenEnd(ps, rest);
    if nl == "" { FirstIsNoNewline(ps); }
    FirstNewline(nl, w);
    NoBackslashes(nl, w);
    if HasBackslash(w) { LinesWrittenDecode(ps); } else { PlainWrittenMeans(ps); }
  }

  lemma LinesLayout(nl: Text, w: Text, rest: Text)
    ensures var q := "\"\"\""; var b := q + nl + w + q + rest; var n := |nl| + |w| + 3;
      && Starts(b, q) && b[3..] == nl + (w + (q + rest)) && b[..3 + n] == q + nl + w + q && b[3 + n..] == rest
      && b[..3 + n][3..] == nl + w + q && (w + q)[..|w|] == w
  {
    var q := "\"\"\"";
    var b, n := q + nl + w + q + rest, |nl| + |w| + 3;
    assert b[..3 + n] == q + nl + w + q;
    assert b == q + (nl + (w + (q + rest)));
  }

  lemma NoBackslashes(nl: Text, w: Text)
    requires !HasBackslash(nl)
    ensures HasBackslash("\"\"\"" + nl + w + "\"\"\"") <==> HasBackslash(w)
  {
    hide HasBackslash;
    InConcat("\"\"\"" + nl + w, "\"\"\"");
    InConcat("\"\"\"" + nl, w);
    InConcat("\"\"\"", nl);
    QuotesOnly();
  }

  lemma QuotesOnly()
    ensures !HasBackslash("\"\"\"")
  {
  }
}
