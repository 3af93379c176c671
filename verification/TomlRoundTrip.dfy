/**
  Printing a value and parsing it gives the value back and leaves exactly the text that
  followed it.
*/
module TomlRoundTrip {
  import opened TomlText
  import opened TomlStrings
  import opened TomlGrammar
  import opened TomlPrinter

  /** Text that may follow a value: the end, a blank, a line end, a comment, or the rest of an array or table. */
  predicate Separated(rest: Text) {
    rest == [] || IsBlank(rest[0]) || rest[0] == ',' || rest[0] == ']' || rest[0] == '}' || rest[0] == '#'
  }

  /** Every string and key is valid UTF-8. */
  predicate Encodable(v: Value)
    decreases Size(v)
  {
    match v
    case Str(s) => ValidUtf8(s)
    case List(vs) => EncodableAll(vs)
    case Table(es) => EncodableEntries(es)
    case _ => true
  }

  predicate EncodableAll(vs: seq<Value>)
    decreases SizeAll(vs)
  {
    vs == [] || (Encodable(vs[0]) && EncodableAll(vs[1..]))
  }

  predicate EncodableEntries(es: seq<Entry>)
    decreases SizeEntries(es)
  {
    es == [] || (ValidUtf8(es[0].key) && Encodable(es[0].value) && EncodableEntries(es[1..]))
  }

  /** The indentation consists of spaces and tabs. */
  predicate BlankIndent(f: Format) {
    forall i :: 0 <= i < |f.indentSymbol| ==> IsWs(f.indentSymbol[i])
  }

  // ---------- blanks ----------

  predicate Solid(x: Text) {
    x != [] && !IsBlank(x[0]) && x[0] != '#'
  }

  lemma {:induction false} WsEndRun(w: Text, x: Text)
    requires forall i :: 0 <= i < |w| ==> IsWs(w[i])
    requires x == [] || !IsWs(x[0])
    ensures WsEnd(w + x) == |w| && SkipWs(w + x) == x
  {
    if w == [] {
      assert w + x == x;
    } else {
      assert (w + x)[1..] == w[1..] + x;
      WsEndRun(w[1..], x);
    }
  }

  lemma SkipWsToSolid(w: Text, x: Text)
    requires (forall i :: 0 <= i < |w| ==> IsWs(w[i])) && Solid(x)
    ensures SkipLines(w + x) == Ok(x)
  {
    hide SkipComment, SkipNewlineOrErr, SkipWs;
    WsEndRun(w, x);
  }

  lemma SkipNewlineFirst(b: Text)
    ensures SkipLines("\n" + b) == SkipLines(b)
  {
    hide SkipComment, SkipWs;
    WsEndRun("", "\n" + b);
    assert "" + ("\n" + b) == "\n" + b;
    assert ("\n" + b)[1..] == b;
  }

  lemma {:induction false} IndentIsBlank(f: Format, level: nat)
    requires BlankIndent(f)
    ensures forall i :: 0 <= i < |Indent(f, level)| ==> IsWs(Indent(f, level)[i])
  {
    if level > 0 { IndentIsBlank(f, level - 1); }
  }

  // ---------- scalars ----------

  lemma DecimalStart(i: int)
    ensures Decimal(i) != [] && (IsDigit(Decimal(i)[0]) || Decimal(i)[0] == '-')
    ensures forall k :: 0 <= k < |Decimal(i)| ==> IsDigit(Decimal(i)[k]) || Decimal(i)[k] == '-'
    ensures forall k :: 0 < k < |Decimal(i)| ==> IsDigit(Decimal(i)[k])
  {
  }

  lemma {:induction false} NumberEndRun(d: Text, rest: Text)
    requires (forall k :: 0 <= k < |d| ==> IsDigit(d[k]) || d[k] == '-') && Separated(rest)
    ensures NumberEnd(d + rest, false) == Ok((|d|, false))
  {
    if d == [] {
      assert d + rest == rest;
    } else {
      assert (d + rest)[1..] == d[1..] + rest;
      NumberEndRun(d[1..], rest);
    }
  }

  /** A printed integer never starts with a zero that more digits follow. */
  lemma {:induction false} NoLeadingZero(n: nat)
    ensures |Digits(n)| > 1 ==> Digits(n)[0] != '0'
    ensures |Digits(n)| == 1 || Digits(n / 10) == Digits(n)[..|Digits(n)| - 1]
  {
    if n >= 10 { NoLeadingZero(n / 10); }
  }

  lemma IntRoundTrip(i: int, rest: Text)
    requires Separated(rest)
    ensures ScanScalar(Decimal(i) + rest) == Ok((Integer, |Decimal(i)|))
  {
    var d := Decimal(i);
    var b := d + rest;
    DecimalStart(i);
    NumberEndRun(d, rest);
    NoLeadingZero(if i < 0 then -i else i);
    assert !LooksLikeDateTime(b);
    if |b| > 2 && b[0] == '0' {
      assert |d| == 1 && b[1] == rest[0];
    }
  }

  // ---------- keys ----------

  lemma {:induction false} KeyEndRun(k: Text, x: Text)
    requires BareKey(k) && x != [] && !IsKeyChar(x[0])
    ensures KeyEnd(k + x) == |k|
  {
    if k == [] {
      assert k + x == x;
    } else {
      assert (k + x)[1..] == k[1..] + x;
      KeyEndRun(k[1..], x);
    }
  }

  /** A printed key is read back up to any byte that cannot be part of a bare key. */
  lemma SimpleKeyRoundTrip(k: Text, x: Text)
    requires ValidUtf8(k) && x != [] && !IsKeyChar(x[0])
    ensures ParseSimpleKey(PrintKey(k) + x) == Ok((k, x))
  {
    hide ParseBasic, ParseLiteral, KeyEnd, Quoted;
    var b := PrintKey(k) + x;
    if k == [] {
      EmptyKey(x);
    } else if BareKey(k) {
      KeyEndRun(k, x);
      assert b[0] == k[0] && b[..|k|] == k && b[|k|..] == x;
      assert k[0] != '\'' && k[0] != '"';
    } else {
      BasicRoundTrip(k, x);
      QuotedStart(false, k);
    }
  }

  /** A printed key is read back up to the equals sign. */
  lemma KeyRoundTrip(k: Text, y: Text)
    requires ValidUtf8(k)
    ensures ParseKey(PrintKey(k) + " = " + y) == Ok(([k], "= " + y))
  {
    hide ParseSimpleKey, PrintKey, ParseKeyRest;
    assert PrintKey(k) + " = " + y == PrintKey(k) + (" = " + y);
    SimpleKeyRoundTrip(k, " = " + y);
    AfterKey(y);
    assert [k] + [] == [k];
  }

  lemma EmptyKey(x: Text)
    ensures ParseSimpleKey("''" + x) == Ok(([], x))
  {
    var b := "''" + x;
    assert b[1..] == "'" + x && b[2..] == x;
    assert LiteralEnd(b[1..]) == Ok(1) && b[1..1] == [];
  }

  lemma QuotedStart(multiline: bool, v: Text)
    ensures Quoted(multiline, v) != [] && Quoted(multiline, v)[0] == '"'
  {
  }

  lemma AfterKey(y: Text)
    ensures ParseKeyRest(" = " + y) == Ok(([], "= " + y))
  {
    WsEndRun(" ", "= " + y);
    assert " = " + y == " " + ("= " + y);
  }

  // ---------- values ----------

  /** A printed value starts with solid text. */
  lemma PrintStart(f: Format, v: Value, multiline: bool, indent: nat)
    ensures Solid(Print(f, v, multiline, indent)) && Print(f, v, multiline, indent)[0] !in {']', ',', '}', '.'}
  {
    match v
    case Str(s) => QuotedStart(multiline, s);
    case Int(i) => DecimalStart(i);
    case _ =>
  }

  /**
    Parsing a printed value gives its tree and leaves what followed, provided that starts
    with a separator.
  */
  lemma {:induction false} ValueRoundTrip(f: Format, v: Value, multiline: bool, indent: nat, rest: Text)
    requires BlankIndent(f) && Encodable(v) && Separated(rest)
    ensures ParseVal(Print(f, v, multiline, indent) + rest) == Ok((TreeOf(v), rest))
    decreases Size(v), 1
  {
    hide ParseString, ScanScalar, ParseElements, ParsePairs, PrintElements, PrintEntries, Quoted;
    var p := Print(f, v, multiline, indent);
    var b := p + rest;
    match v
    case Str(s) =>
      StringRoundTrip(multiline, s, rest);
      QuotedStart(multiline, s);
    case Int(i) =>
      IntRoundTrip(i, rest);
      DecimalStart(i);
      assert b[..|p|] == p && b[|p|..] == rest;
    case Boolean(x) =>
      assert b[..|p|] == p && b[|p|..] == rest;
    case List(vs) => ListRoundTrip(f, vs, multiline, indent, rest);
    case Table(es) => TableRoundTrip(f, es, multiline, indent, rest);
  }

  // ---------- arrays ----------

  /** The blanks in front of an element or of the closing bracket. */
  function Gap(f: Format, multi: bool, level: nat): Text {
    if multi then "\n" + Indent(f, level) else " "
  }

  lemma SkipGap(f: Format, multi: bool, level: nat, x: Text)
    requires BlankIndent(f) && Solid(x)
    ensures SkipLines(Gap(f, multi, level) + x) == Ok(x)
    ensures Separated(Gap(f, multi, level) + x)
  {
    hide SkipLines;
    if multi {
      IndentIsBlank(f, level);
      SkipWsToSolid(Indent(f, level), x);
      SkipNewlineFirst(Indent(f, level) + x);
      assert Gap(f, multi, level) + x == "\n" + (Indent(f, level) + x);
    } else {
      SkipWsToSolid(" ", x);
    }
  }

  lemma SkipNothing(x: Text)
    requires Solid(x)
    ensures SkipLines(x) == Ok(x)
  {
    SkipWsToSolid("", x);
    assert "" + x == x;
  }

  /** The text behind an element: the closing bracket, or a comma and the next one. */
  lemma TailShape(f: Format, vs: seq<Value>, multi: bool, indent: nat)
    ensures vs == [] ==> PrintElements(f, vs, multi, indent, false) == Gap(f, multi, indent) + "]"
    ensures vs != [] ==>
      PrintElements(f, vs, multi, indent, false) == ","
          + (Gap(f, multi, indent + 1) + ElementsFrom(f, vs, multi, indent))
  {
  }

  function ElementsFrom(f: Format, vs: seq<Value>, multi: bool, indent: nat): Text
    requires vs != []
  {
    Print(f, vs[0], false, if multi then indent + 1 else indent) + PrintElements(f, vs[1..], multi, indent, false)
  }

  lemma ListShape(f: Format, vs: seq<Value>, multiline: bool, indent: nat)
    requires vs != []
    ensures var multi := multiline || f.arraysMultiline;
      Print(f, List(vs), multiline, indent) == "[" + (Gap(f, multi, indent + 1) + ElementsFrom(f, vs, multi, indent))
  {
  }

  lemma TailSeparated(f: Format, vs: seq<Value>, multi: bool, indent: nat, rest: Text)
    ensures Separated(PrintElements(f, vs, multi, indent, false) + rest)
  {
    TailShape(f, vs, multi, indent);
  }

  /** One element and all behind it. */
  lemma {:induction false} ElementsRoundTrip(f: Format, vs: seq<Value>, multi: bool, indent: nat, b: Text, first: bool,
      rest: Text)
    requires BlankIndent(f) && vs != [] && EncodableAll(vs)
    requires ToElement(b, first) == Ok(ElementsFrom(f, vs, multi, indent) + rest)
    ensures ParseElements(b, first) == Ok((TreesOf(vs), rest))
    decreases SizeAll(vs), 0
  {
    hide Print, PrintElements, ToElement, SkipLines, ParseVal, Separated;
    var level := if multi then indent + 1 else indent;
    var tail := PrintElements(f, vs[1..], multi, indent, false) + rest;
    var p := Print(f, vs[0], false, level);
    assert ElementsFrom(f, vs, multi, indent) + rest == p + tail;
    PrintStart(f, vs[0], false, level);
    TailSeparated(f, vs[1..], multi, indent, rest);
    ValueRoundTrip(f, vs[0], false, level, tail);
    TailRoundTrip(f, vs[1..], multi, indent, rest);
  }

  /** The text behind an element, after its leading blanks. */
  lemma {:induction false} TailRoundTrip(f: Format, vs: seq<Value>, multi: bool, indent: nat, rest: Text)
    requires BlankIndent(f) && EncodableAll(vs)
    ensures var b := SkipLines(PrintElements(f, vs, multi, indent, false) + rest);
      b.Ok? && ParseElements(b.value, false) == Ok((TreesOf(vs), rest))
    decreases SizeAll(vs), 1
  {
    hide Print, PrintElements, SkipLines, ParseVal, Gap, ElementsFrom;
    var b := PrintElements(f, vs, multi, indent, false) + rest;
    TailShape(f, vs, multi, indent);
    if vs == [] {
      assert b == Gap(f, multi, indent) + ("]" + rest);
      SkipGap(f, multi, indent, "]" + rest);
      SkipNothing("]" + rest);
      assert ("]" + rest)[1..] == rest;
    } else {
      var x := ElementsFrom(f, vs, multi, indent) + rest;
      assert b == "," + (Gap(f, multi, indent + 1) + x);
      assert b[1..] == Gap(f, multi, indent + 1) + x;
      SkipNothing(b);
      ElementsStart(f, vs, multi, indent, rest);
      SkipGap(f, multi, indent + 1, x);
      ElementsRoundTrip(f, vs, multi, indent, b, false, rest);
    }
  }

  lemma ElementsStart(f: Format, vs: seq<Value>, multi: bool, indent: nat, rest: Text)
    requires vs != []
    ensures Solid(ElementsFrom(f, vs, multi, indent) + rest)
    ensures (ElementsFrom(f, vs, multi, indent) + rest)[0] !in {']', ',', '}', '.'}
  {
    PrintStart(f, vs[0], false, if multi then indent + 1 else indent);
  }

  lemma {:induction false} ListRoundTrip(f: Format, vs: seq<Value>, multiline: bool, indent: nat, rest: Text)
    requires BlankIndent(f) && EncodableAll(vs)
    ensures ParseVal(Print(f, List(vs), multiline, indent) + rest) == Ok((TreeOf(List(vs)), rest))
    decreases SizeAll(vs), 2
  {
    hide SkipLines, Gap, ElementsFrom, ParseElements;
    var b := Print(f, List(vs), multiline, indent) + rest;
    var multi := multiline || f.arraysMultiline;
    if vs == [] {
      EmptyArray(rest);
      assert b == "[]" + rest && b[1..] == "]" + rest;
    } else {
      var x := ElementsFrom(f, vs, multi, indent) + rest;
      var y := Gap(f, multi, indent + 1) + x;
      ListShape(f, vs, multiline, indent);
      assert b == "[" + y && b[1..] == y;
      ElementsStart(f, vs, multi, indent, rest);
      SkipGap(f, multi, indent + 1, x);
      assert ToElement(y, true) == Ok(x);
      ElementsRoundTrip(f, vs, multi, indent, y, true, rest);
    }
  }

  lemma EmptyArray(rest: Text)
    ensures ParseElements("]" + rest, true) == Ok(([], rest))
  {
    hide SkipLines;
    SkipNothing("]" + rest);
    assert ("]" + rest)[1..] == rest;
  }

  // ---------- inline tables ----------

  /** A printed key-value pair, up to a separator. */
  lemma {:induction false} PairRoundTrip(f: Format, e: Entry, indent: nat, rest: Text)
    requires BlankIndent(f) && ValidUtf8(e.key) && Encodable(e.value) && Separated(rest)
    ensures ParsePair(PrintPair(f, e, indent) + rest) == Ok((PairOf(e), rest))
    decreases Size(e.value), 2
  {
    hide Print, PrintKey, ParseKey, ParseVal, SkipWs, Separated;
    var y := Print(f, e.value, e.multiline, indent) + rest;
    assert PrintPair(f, e, indent) + rest == PrintKey(e.key) + " = " + y;
    KeyRoundTrip(e.key, y);
    WsEndRun("", "= " + y);
    assert "" + ("= " + y) == "= " + y;
    assert ("= " + y)[1..] == " " + y;
    PrintStart(f, e.value, e.multiline, indent);
    WsEndRun(" ", y);
    ValueRoundTrip(f, e.value, e.multiline, indent, rest);
  }

  lemma EntriesSeparated(f: Format, es: seq<Entry>, indent: nat, rest: Text)
    ensures Separated(PrintEntries(f, es, indent, false) + rest)
  {
  }

  /** Where `parseInlineTable` finds the next entry. */
  lemma EntriesShape(f: Format, es: seq<Entry>, indent: nat, first: bool, blank: Text, rest: Text)
    requires blank == "" || blank == " "
    ensures var b := blank + PrintEntries(f, es, indent, first) + rest;
      if es == [] then ToPair(b, first) == Ok((true, "}" + rest))
      else ToPair(b, first) == Ok((false, PrintPair(f, es[0], indent)
          + (PrintEntries(f, es[1..], indent, false) + rest)))
  {
    hide PrintPair, SkipWs;
    var b := blank + PrintEntries(f, es, indent, first) + rest;
    if es == [] {
      WsEndRun(blank + " ", "}" + rest);
      assert b == blank + " " + ("}" + rest);
    } else {
      var x := PrintPair(f, es[0], indent) + (PrintEntries(f, es[1..], indent, false) + rest);
      PairStart(f, es[0], indent);
      if first {
        assert b == blank + x;
        WsEndRun(blank, x);
      } else {
        assert b == blank + ("," + (" " + x));
        WsEndRun(blank, "," + (" " + x));
        assert ("," + (" " + x))[1..] == " " + x;
        WsEndRun(" ", x);
      }
    }
  }

  /** The entries of an inline table from some entry on. */
  lemma {:induction false} EntriesRoundTrip(f: Format, es: seq<Entry>, indent: nat, first: bool, blank: Text,
      rest: Text)
    requires BlankIndent(f) && EncodableEntries(es) && (blank == "" || blank == " ")
    ensures ParsePairs(blank + PrintEntries(f, es, indent, first) + rest, first) == Ok((PairsOf(es), rest))
    decreases SizeEntries(es), 3
  {
    hide PrintPair, ParsePair, ToPair, Separated, PrintEntries;
    EntriesShape(f, es, indent, first, blank, rest);
    if es == [] {
      assert ("}" + rest)[1..] == rest;
    } else {
      var tail := PrintEntries(f, es[1..], indent, false) + rest;
      EntriesSeparated(f, es[1..], indent, rest);
      PairRoundTrip(f, es[0], indent, tail);
      EntriesRoundTrip(f, es[1..], indent, false, "", rest);
      assert "" + PrintEntries(f, es[1..], indent, false) + rest == tail;
    }
  }

  lemma PairStart(f: Format, e: Entry, indent: nat)
    ensures Solid(PrintPair(f, e, indent)) && PrintPair(f, e, indent)[0] != '}' && PrintPair(f, e, indent)[0] != '['
  {
    hide Print, Quoted;
    QuotedStart(false, e.key);
  }

  lemma {:induction false} TableRoundTrip(f: Format, es: seq<Entry>, multiline: bool, indent: nat, rest: Text)
    requires BlankIndent(f) && EncodableEntries(es)
    ensures ParseVal(Print(f, Table(es), multiline, indent) + rest) == Ok((TreeOf(Table(es)), rest))
    decreases SizeEntries(es), 4
  {
    hide ParsePairs, PrintEntries;
    var b := Print(f, Table(es), multiline, indent) + rest;
    var y := " " + PrintEntries(f, es, indent, true) + rest;
    assert b == "{" + y && b[1..] == y;
    EntriesRoundTrip(f, es, indent, true, " ", rest);
  }
}
