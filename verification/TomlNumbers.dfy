/**
  Integers: `parseInteger` of utoml/decode.go, with the underscore loop it relies on.
*/
module TomlNumbers {
  import opened TomlText
  import opened TomlPrinter

  predicate IsSign(c: char) {
    c == '+' || c == '-'
  }

  // ---------- underscores ----------

  function Without(b: Text): Text {
    if b == [] then [] else (if b[0] == '_' then [] else [b[0]]) + Without(b[1..])
  }

  predicate DoubledAt(b: Text, i: int) {
    0 < i < |b| && b[i - 1] == '_' && b[i] == '_'
  }

  /** Every underscore of the digits stands between two other bytes. */
  predicate UnderscoresOk(b: Text)
    requires b != []
  {
    var start := if IsSign(b[0]) then 1 else 0;
    |b| == start || (b[start] != '_' && b[|b| - 1] != '_' && forall i :: 0 <= i < |b| ==> !DoubledAt(b, i))
  }

  lemma {:induction false} WithoutMore(a: Text, c: char)
    ensures Without(a + [c]) == Without(a) + if c == '_' then [] else [c]
  {
    if a != [] {
      assert (a + [c])[1..] == a[1..] + [c];
      WithoutMore(a[1..], c);
    }
  }

  /** `checkAndRemoveUnderscoresIntegers` */
  method RemoveUnderscores(b: Text) returns (r: Result<Text>)
    requires b != []
    ensures r == if UnderscoresOk(b) then Ok(Without(b)) else Err
    ensures r.Ok? ==> r.value != []
  {
    hide Without;
    var start := if IsSign(b[0]) then 1 else 0;
    if |b| == start {
      Unchanged(b);
      return Ok(b);
    }
    if b[start] == '_' || b[|b| - 1] == '_' { return Err; }
    var i := 0;
    while i < |b|
      invariant i <= |b| && forall k :: 0 <= k < i ==> b[k] != '_'
    {
      if b[i] == '_' { break; }
      i := i + 1;
    }
    Unchanged(b[..i]);
    if i == |b| {
      assert b[..i] == b;
      return Ok(b);
    }
    var cleaned, before := b[..i], false;
    StepWithout(b, i);
    i := i + 1;
    while i < |b|
      invariant 0 < i <= |b| && cleaned == Without(b[..i]) && before == (b[i - 1] != '_')
      invariant cleaned != [] && forall k :: 0 <= k < i ==> !DoubledAt(b, k)
    {
      StepWithout(b, i);
      if b[i] == '_' {
        if !before {
          assert DoubledAt(b, i);
          return Err;
        }
        before := false;
      } else {
        before := true;
        cleaned := cleaned + [b[i]];
      }
      i := i + 1;
    }
    assert b[..i] == b;
    return Ok(cleaned);
  }

  lemma StepWithout(b: Text, i: nat)
    requires i < |b|
    ensures Without(b[..i + 1]) == Without(b[..i]) + if b[i] == '_' then [] else [b[i]]
  {
    assert b[..i + 1] == b[..i] + [b[i]];
    WithoutMore(b[..i], b[i]);
  }

  lemma {:induction false} Unchanged(b: Text)
    requires forall k :: 0 <= k < |b| ==> b[k] != '_'
    ensures Without(b) == b
  {
    if b != [] { Unchanged(b[1..]); }
  }

  // ---------- strconv.ParseInt ----------

  function DigitValue(c: char, base: nat): Result<nat> {
    match HexValue(c)
    case Ok(d) => if d < base then Ok(d) else Err
    case Err => Err
  }

  function ParseNat(s: Text, base: nat): Result<nat> {
    if s == [] then Ok(0)
    else
      match (ParseNat(s[..|s| - 1], base), DigitValue(s[|s| - 1], base))
      case (Ok(n), Ok(d)) => Ok(base * n + d)
      case _ => Err
  }

  predicate IsInt64(i: int) {
    -0x8000_0000_0000_0000 <= i < 0x8000_0000_0000_0000
  }

  function ParseInt(s: Text, base: nat): Result<int> {
    var digits := if s != [] && IsSign(s[0]) then s[1..] else s;
    if digits == [] then Err
    else
      match ParseNat(digits, base)
      case Err => Err
      case Ok(n) =>
        var i: int := if s[0] == '-' then -(n as int) else n as int;
        if IsInt64(i) then Ok(i) else Err
  }

  // ---------- parseInteger ----------

  /** The bytes on which `parseInteger` panics. */
  predicate Panics(b: Text) {
    |b| > 2 && b[0] == '0' && b[1] != 'x' && b[1] != 'b' && b[1] != 'o'
  }

  function IntegerValue(b: Text): Result<int>
    requires b != [] && !Panics(b)
  {
    if |b| > 2 && b[0] == '0' then
      if !UnderscoresOk(b[2..]) then Err
      else ParseInt(Without(b[2..]), if b[1] == 'x' then 16 else if b[1] == 'b' then 2 else 8)
    else if !UnderscoresOk(b) then Err
    else
      var cleaned := Without(b);
      var start := if cleaned != [] && IsSign(cleaned[0]) then 1 else 0;
      if |cleaned| > start + 1 && cleaned[start] == '0' then Err else ParseInt(cleaned, 10)
  }

  method ParseInteger(b: Text) returns (r: Result<int>)
    requires b != [] && !Panics(b)
    ensures r == IntegerValue(b)
  {
    hide UnderscoresOk, Without, ParseInt;
    if |b| > 2 && b[0] == '0' {
      var cleaned := RemoveUnderscores(b[2..]);
      match cleaned
      case Err => return Err;
      case Ok(s) => return ParseInt(s, if b[1] == 'x' then 16 else if b[1] == 'b' then 2 else 8);
    }
    var cleaned := RemoveUnderscores(b);
    match cleaned
    case Err => return Err;
    case Ok(s) =>
      var start := if IsSign(s[0]) then 1 else 0;
      if |s| > start + 1 && s[start] == '0' { return Err; }
      return ParseInt(s, 10);
  }

  // ---------- printed integers ----------

  lemma {:induction false} DigitsParse(n: nat)
    ensures ParseNat(Digits(n), 10) == Ok(n)
    ensures |Digits(n)| > 1 ==> Digits(n)[0] != '0'
  {
    var d := Digits(n);
    assert HexValue(d[|d| - 1]) == Ok(n % 10);
    if n >= 10 {
      DigitsParse(n / 10);
      assert d[..|d| - 1] == Digits(n / 10);
    } else {
      assert d[..0] == [];
    }
  }

  /** A printed 64-bit integer reads as itself. */
  lemma DecimalParses(i: int)
    requires IsInt64(i)
    ensures !Panics(Decimal(i)) && IntegerValue(Decimal(i)) == Ok(i)
  {
    hide ParseNat, Without, Digits, HexValue;
    var d, n: nat := Decimal(i), if i < 0 then -i else i;
    DigitsParse(n);
    assert i < 0 ==> d[1..] == Digits(n);
    assert forall k :: 0 <= k < |d| ==> d[k] != '_';
    Unchanged(d);
    assert UnderscoresOk(d);
  }

  lemma DecimalInjective(i: int, j: int)
    requires Decimal(i) == Decimal(j)
    ensures i == j
  {
    DigitsParse(if i < 0 then -i else i);
    DigitsParse(if j < 0 then -j else j);
    assert i < 0 ==> Decimal(i)[1..] == Digits(-i);
    assert j < 0 ==> Decimal(j)[1..] == Digits(-j);
  }

  // ---------- the tree of a value determines the value ----------

  /** A value without the `multiline` options, which the text does not carry. */
  function Strip(v: Value): Value
    decreases Size(v), 0
  {
    match v
    case List(vs) => List(StripAll(vs))
    case Table(es) => Table(StripEntries(es))
    case _ => v
  }

  function StripAll(vs: seq<Value>): seq<Value>
    decreases SizeAll(vs), 1
  {
    if vs == [] then [] else [Strip(vs[0])] + StripAll(vs[1..])
  }

  function StripEntries(es: seq<Entry>): seq<Entry>
    decreases SizeEntries(es), 1
  {
    if es == [] then [] else [Entry(es[0].key, false, Strip(es[0].value))] + StripEntries(es[1..])
  }

  lemma {:induction false} TreeDetermines(v: Value, w: Value)
    requires TreeOf(v) == TreeOf(w)
    ensures Strip(v) == Strip(w)
    decreases Size(v), 0
  {
    match v
    case Int(i) => DecimalInjective(i, w.i);
    case List(vs) => TreesDetermine(vs, w.elements);
    case Table(es) => PairsDetermine(es, w.entries);
    case _ =>
  }

  lemma {:induction false} TreesDetermine(vs: seq<Value>, ws: seq<Value>)
    requires TreesOf(vs) == TreesOf(ws)
    ensures StripAll(vs) == StripAll(ws)
    decreases SizeAll(vs), 1
  {
    if vs != [] && ws != [] {
      assert TreesOf(vs)[0] == TreesOf(ws)[0] && TreesOf(vs)[1..] == TreesOf(ws)[1..];
      TreeDetermines(vs[0], ws[0]);
      TreesDetermine(vs[1..], ws[1..]);
    }
  }

  lemma {:induction false} PairsDetermine(es: seq<Entry>, fs: seq<Entry>)
    requires PairsOf(es) == PairsOf(fs)
    ensures StripEntries(es) == StripEntries(fs)
    decreases SizeEntries(es), 1
  {
    if es != [] && fs != [] {
      assert PairsOf(es)[0] == PairsOf(fs)[0] && PairsOf(es)[1..] == PairsOf(fs)[1..];
      assert [es[0].key][0] == [fs[0].key][0];
      TreeDetermines(es[0].value, fs[0].value);
      PairsDetermine(es[1..], fs[1..]);
    }
  }
}
