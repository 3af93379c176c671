/**
  How the encoder's text looks: which strings and keys stand as they are, and what its settings do: where it breaks
  lines, one element per line, how far a row of a document is indented and where the empty lines stand.
*/
module TomlFormat {
  import opened TomlText
  import opened TomlStrings
  import opened TomlPrinter
  import opened TomlTables

  // ---------- strings and keys as they stand ----------

  /** The bytes of a string on one line that need no escape. */
  predicate Bare(c: char) {
    c >= ' ' && c != '"' && c != '\\' && c != '\U{7f}'
  }

  /** A string stands between its quotes as it is exactly if no byte needs an escape; others take more room. */
  lemma {:induction false} StringAsIs(s: Text)
    ensures |Quoted(false, s)| == |s| + 2 <==> forall i :: 0 <= i < |s| ==> Bare(s[i])
    ensures Quoted(false, s) == "\"" + s + "\"" <==> forall i :: 0 <= i < |s| ==> Bare(s[i])
  {
    EscapeAsIs(s);
  }

  lemma {:induction false} EscapeAsIs(s: Text)
    ensures |Escape(false, s)| >= |s|
    ensures |Escape(false, s)| == |s| <==> forall i :: 0 <= i < |s| ==> Bare(s[i])
    ensures |Escape(false, s)| == |s| ==> Escape(false, s) == s
  {
    if s != [] {
      EscapeAsIs(s[1..]);
      PlainBytes(false, s[0]);
      assert Plain(false, s[0]) <==> Bare(s[0]);
      assert s == [s[0]] + s[1..];
    }
  }

  /** A key stands without quotes exactly if it has only letters, digits, dashes and underscores. */
  lemma KeyAsIs(k: Text)
    ensures PrintKey(k) == k <==>
      k != [] && forall i :: 0 <= i < |k| ==>
        'a' <= k[i] <= 'z' || 'A' <= k[i] <= 'Z' || '0' <= k[i] <= '9' || k[i] == '-' || k[i] == '_'
  {
    EscapeAsIs(k);
    assert |Quoted(false, k)| > |k|;
  }

  // ---------- one element per line ----------

  function Join(parts: seq<Text>, separator: Text): Text {
    if parts == [] then []
    else if |parts| == 1 then parts[0]
    else parts[0] + separator + Join(parts[1..], separator)
  }

  /** The elements as they are printed, each with its indentation. */
  function Elements(f: Format, vs: seq<Value>, multi: bool, indent: nat): seq<Text> {
    seq(|vs|, i requires 0 <= i < |vs| =>
      if multi then Indent(f, indent + 1) + Print(f, vs[i], false, indent + 1) else Print(f, vs[i], false, indent))
  }

  /**
    An array of several lines has one element per line, one level deeper than its brackets; any other array is on
    one line with them.
  */
  lemma {:induction false} ArrayLines(f: Format, vs: seq<Value>, multiline: bool, indent: nat)
    requires vs != []
    ensures Print(f, List(vs), multiline, indent) ==
      if multiline || f.arraysMultiline
      then "[\n" + Join(Elements(f, vs, true, indent), ",\n") + "\n" + Indent(f, indent) + "]"
      else "[ " + Join(Elements(f, vs, false, indent), ", ") + " ]"
  {
    var multi := multiline || f.arraysMultiline;
    ElementLines(f, vs, multi, indent, true);
    var opening := if multi then "[\n" else "[ ";
    assert Print(f, List(vs), multiline, indent) == opening + PrintElements(f, vs, multi, indent, true);
    hide PrintElements, Elements, Join, Indent, Print;
    Brackets(opening, Join(Elements(f, vs, multi, indent), Separator(multi)), "\n", Indent(f, indent), "]", " ]");
  }

  lemma Brackets(a: Text, j: Text, b: Text, i: Text, c: Text, d: Text)
    ensures a + ([] + (j + (b + i + c))) == a + j + b + i + c
    ensures a + ([] + (j + d)) == a + j + d
  {
  }

  lemma Chain(a: Text, x: Text, s: Text, j: Text, c: Text)
    ensures a + (x + (s + (j + c))) == a + ((x + s + j) + c)
  {
  }

  function Closing(f: Format, multi: bool, indent: nat): Text {
    if multi then "\n" + Indent(f, indent) + "]" else " ]"
  }

  function Separator(multi: bool): Text {
    if multi then ",\n" else ", "
  }

  lemma FirstElement(f: Format, vs: seq<Value>, multi: bool, indent: nat, first: bool)
    requires vs != []
    ensures PrintElements(f, vs, multi, indent, first) ==
      (if first then [] else Separator(multi))
      + (Elements(f, vs, multi, indent)[0] + PrintElements(f, vs[1..], multi, indent, false))
  {
    hide Print, Indent;
  }

  lemma {:induction false} ElementLines(f: Format, vs: seq<Value>, multi: bool, indent: nat, first: bool)
    requires vs != []
    ensures PrintElements(f, vs, multi, indent, first) ==
      (if first then [] else Separator(multi))
      + (Join(Elements(f, vs, multi, indent), Separator(multi)) + Closing(f, multi, indent))
  {
    var e, separator := Elements(f, vs, multi, indent), Separator(multi);
    assert Elements(f, vs[1..], multi, indent) == e[1..];
    FirstElement(f, vs, multi, indent, first);
    if |vs| > 1 {
      ElementLines(f, vs[1..], multi, indent, false);
      Chain(if first then [] else separator, e[0], separator, Join(e[1..], separator), Closing(f, multi, indent));
    } else {
      LastElement(f, vs[1..], multi, indent);
    }
  }

  lemma LastElement(f: Format, vs: seq<Value>, multi: bool, indent: nat)
    requires vs == []
    ensures PrintElements(f, vs, multi, indent, false) == Closing(f, multi, indent)
  {
  }

  function Pairs(f: Format, es: seq<Entry>, indent: nat): seq<Text> {
    seq(|es|, i requires 0 <= i < |es| => PrintPair(f, es[i], indent))
  }

  /** An inline table separates its pairs by commas, on the line of its braces. */
  lemma {:induction false} InlineTableLine(f: Format, es: seq<Entry>, multiline: bool, indent: nat)
    ensures Print(f, Table(es), multiline, indent) == "{ " + Join(Pairs(f, es, indent), ", ") + " }"
  {
    if es != [] { PairsLine(f, es, indent, true); }
  }

  lemma {:induction false} PairsLine(f: Format, es: seq<Entry>, indent: nat, first: bool)
    requires es != []
    ensures PrintEntries(f, es, indent, first) ==
      (if first then [] else ", ") + (Join(Pairs(f, es, indent), ", ") + " }")
  {
    hide PrintPair;
    var e := Pairs(f, es, indent);
    assert Pairs(f, es[1..], indent) == e[1..];
    if |es| > 1 {
      PairsLine(f, es[1..], indent, false);
      assert Join(e, ", ") == e[0] + ", " + Join(e[1..], ", ");
    } else {
      assert Join(e, ", ") == e[0];
    }
  }

  // ---------- line breaks ----------

  /** Whether some part of the value asks for several lines, by its own option or by the encoder's. */
  predicate Breaks(f: Format, v: Value, multiline: bool)
    decreases v
  {
    match v
    case Str(_) => multiline
    case List(vs) =>
      vs != [] && (multiline || f.arraysMultiline || exists i :: 0 <= i < |vs| && Breaks(f, vs[i], false))
    case Table(es) => exists i :: 0 <= i < |es| && Breaks(f, es[i].value, es[i].multiline)
    case _ => false
  }

  lemma {:induction false} InJoin(c: char, parts: seq<Text>, separator: Text)
    requires c !in separator
    ensures c in Join(parts, separator) <==> exists i :: 0 <= i < |parts| && c in parts[i]
  {
    if |parts| > 1 {
      InJoin(c, parts[1..], separator);
      forall i | 0 <= i < |parts[1..]| ensures parts[1..][i] == parts[i + 1] {}
      forall i | 1 <= i < |parts| ensures parts[1..][i - 1] == parts[i] {}
    }
  }

  lemma {:induction false} EscapeOneLine(s: Text)
    ensures '\n' !in Escape(false, s)
  {
    if s != [] {
      assert '\n' !in EscapeByte(false, s[0]);
      EscapeOneLine(s[1..]);
      assert Escape(false, s) == EscapeByte(false, s[0]) + Escape(false, s[1..]);
    }
  }

  lemma KeyOneLine(k: Text)
    ensures '\n' !in PrintKey(k)
  {
    EscapeOneLine(k);
  }

  /** A value is printed on one line exactly if nothing in it asks for several. */
  lemma {:induction false} BreaksIff(f: Format, v: Value, multiline: bool, indent: nat)
    ensures '\n' in Print(f, v, multiline, indent) <==> Breaks(f, v, multiline)
    decreases v
  {
    match v
    case Str(s) =>
      EscapeOneLine(s);
      if multiline { QuotedLines(s); }
    case Int(i) =>
    case Boolean(_) =>
    case List(vs) =>
      if vs != [] {
        ArrayLines(f, vs, multiline, indent);
        if !multiline && !f.arraysMultiline { ArrayBreaks(f, vs, indent); }
      }
    case Table(es) => TableBreaks(f, es, multiline, indent);
  }

  lemma {:induction false} ArrayBreaks(f: Format, vs: seq<Value>, indent: nat)
    requires vs != []
    ensures '\n' in Join(Elements(f, vs, false, indent), ", ") <==> exists i :: 0 <= i < |vs| && Breaks(f, vs[i], false)
    decreases vs
  {
    hide Print, Breaks;
    var e := Elements(f, vs, false, indent);
    InJoin('\n', e, ", ");
    forall i | 0 <= i < |vs| ensures '\n' in e[i] <==> Breaks(f, vs[i], false) {
      BreaksIff(f, vs[i], false, indent);
    }
  }

  lemma {:induction false} TableBreaks(f: Format, es: seq<Entry>, multiline: bool, indent: nat)
    ensures '\n' in Print(f, Table(es), multiline, indent)
      <==> exists i :: 0 <= i < |es| && Breaks(f, es[i].value, es[i].multiline)
    decreases es
  {
    InlineTableLine(f, es, multiline, indent);
    hide Print, Breaks, PrintKey;
    var e := Pairs(f, es, indent);
    InJoin('\n', e, ", ");
    forall i | 0 <= i < |es| ensures '\n' in e[i] <==> Breaks(f, es[i].value, es[i].multiline) {
      BreaksIff(f, es[i].value, es[i].multiline, indent);
      KeyOneLine(es[i].key);
    }
  }

  // ---------- the rows of a document ----------

  /** The row above: the header of a table (the document's start is that of the table without a key), a pair or none. */
  datatype Above = Header(key: Key) | Pair | Gap

  function Depth(f: Format, level: nat): nat {
    if f.indentTables then level else 0
  }

  /**
    Rows below a row of the table `key`: pairs of a table follow its header, as deep as the key is long; each header
    stands one level higher, below an empty line or below the header of the table that it is in; and an empty line
    stands only above the other headers.
  */
  predicate Laid(f: Format, rows: seq<Row>, key: Key, above: Above) {
    if rows == [] then above != Gap
    else
      match rows[0]
      case Blank =>
        && above != Gap
        && |rows| > 1 && rows[1].HeaderRow? && rows[1].key != [] && above != Header(Outer(rows[1].key))
        && Laid(f, rows[1..], key, Gap)
      case HeaderRow(indent, k, _) =>
        && k != [] && indent == Depth(f, |k| - 1) && (above == Gap || above == Header(Outer(k)))
        && Laid(f, rows[1..], k, Header(k))
      case PairRow(indent, _) =>
        && above != Gap && (above.Header? ==> above.key == key) && indent == Depth(f, |key|)
        && Laid(f, rows[1..], key, Pair)
  }

  /** The key of the table that a table is in. */
  function Outer(k: Key): Key
    requires k != []
  {
    k[..|k| - 1]
  }

  function EndKey(rows: seq<Row>, key: Key): Key {
    if rows == [] then key else EndKey(rows[1..], if rows[0].HeaderRow? then rows[0].key else key)
  }

  function EndAbove(rows: seq<Row>, above: Above): Above {
    if rows == [] then above
    else EndAbove(rows[1..], match rows[0] case Blank => Gap case HeaderRow(_, k, _) => Header(k) case _ => Pair)
  }

  lemma {:induction false} LaidJoins(f: Format, a: seq<Row>, b: seq<Row>, key: Key, above: Above)
    requires Laid(f, a, key, above) && Laid(f, b, EndKey(a, key), EndAbove(a, above))
    ensures Laid(f, a + b, key, above)
  {
    if a == [] {
      assert a + b == b;
    } else {
      assert (a + b)[0] == a[0] && (a + b)[1..] == a[1..] + b;
      if a[0].Blank? { assert (a + b)[1] == a[1]; }
      var k := if a[0].HeaderRow? then a[0].key else key;
      LaidJoins(f, a[1..], b, k, match a[0] case Blank => Gap case HeaderRow(_, h, _) => Header(h) case _ => Pair);
    }
  }

  lemma {:induction false} EndsJoin(a: seq<Row>, b: seq<Row>, key: Key, above: Above)
    ensures EndKey(a + b, key) == EndKey(b, EndKey(a, key))
    ensures EndAbove(a + b, above) == EndAbove(b, EndAbove(a, above))
  {
    if a == [] {
      assert a + b == b;
    } else {
      assert (a + b)[0] == a[0] && (a + b)[1..] == a[1..] + b;
      EndsJoin(a[1..], b, if a[0].HeaderRow? then a[0].key else key,
        match a[0] case Blank => Gap case HeaderRow(_, h, _) => Header(h) case _ => Pair);
    }
  }

  /** A row of the table `at`, which is `key` or in it. */
  predicate Within(key: Key, at: Key, above: Above) {
    key <= at && above != Gap && (above.Header? ==> above.key == at)
  }

  /** Rows that stand well below a row of the table `at` and end within the table `key`. */
  predicate Good(f: Format, rows: seq<Row>, key: Key, at: Key, above: Above) {
    Laid(f, rows, at, above) && Within(key, EndKey(rows, at), EndAbove(rows, above))
  }

  lemma {:induction false} PairsGood(f: Format, es: seq<Entry>, key: Key, above: Above)
    requires above == Header(key) || above == Pair
    ensures var rows := PairRows(es, Depth(f, |key|));
      Laid(f, rows, key, above) && EndKey(rows, key) == key && EndAbove(rows, above) == if es == [] then above else Pair
  {
    if es != [] { PairsGood(f, es[1..], key, Pair); }
  }

  lemma {:induction false} GoodJoins(f: Format, a: seq<Row>, b: seq<Row>, key: Key, at: Key, above: Above)
    requires Laid(f, a, at, above) && Good(f, b, key, EndKey(a, at), EndAbove(a, above))
    ensures Good(f, a + b, key, at, above)
  {
    LaidJoins(f, a, b, at, above);
    EndsJoin(a, b, at, above);
  }

  lemma {:induction false} HeaderGood(f: Format, k: Key, isArray: bool, rows: seq<Row>, at: Key, top: Above)
    requires k != [] && (top == Gap || top == Header(Outer(k)))
    requires Good(f, rows, k, k, Header(k))
    ensures Good(f, [HeaderRow(Depth(f, |k| - 1), k, isArray)] + rows, k, at, top)
  {
    assert ([HeaderRow(Depth(f, |k| - 1), k, isArray)] + rows)[1..] == rows;
  }

  lemma {:induction false} GapGood(f: Format, rows: seq<Row>, key: Key, at: Key, above: Above)
    requires rows != [] && rows[0].HeaderRow? && rows[0].key != []
    requires above != Gap && above != Header(Outer(rows[0].key))
    requires Good(f, rows, key, at, Gap)
    ensures Good(f, [Blank] + rows, key, at, above)
  {
    assert ([Blank] + rows)[1..] == rows;
  }

  /** The rows of a table behind its header. */
  lemma {:induction false} BodyGood(f: Format, key: Key, b: Block)
    requires Proper(b)
    ensures var level := Depth(f, |key|);
      Good(f, PairRows(b.kvs, level) + SubRows(f, key, b.tables, level, b.kvs == []), key, key, Header(key))
    decreases b, 0
  {
    var level := Depth(f, |key|);
    PairsGood(f, b.kvs, key, Header(key));
    SubsGood(f, key, b.tables, b.kvs == [], key, if b.kvs == [] then Header(key) else Pair);
    GoodJoins(f, PairRows(b.kvs, level), SubRows(f, key, b.tables, level, b.kvs == []), key, key, Header(key));
  }

  /** The subtables of `key` from some one on. */
  lemma {:induction false} SubsGood(f: Format, key: Key, ts: seq<Sub>, first: bool, at: Key, above: Above)
    requires forall i :: 0 <= i < |ts| ==> ProperSub(ts[i])
    requires Within(key, at, above) && (first <==> above == Header(key))
    ensures Good(f, SubRows(f, key, ts, Depth(f, |key|), first), key, at, above)
    decreases ts, 0
  {
    if ts != [] {
      var level := Depth(f, |key|);
      var one, rest := OneSubRows(f, key, ts[0], level), SubRows(f, key, ts[1..], level, false);
      var top := if first then above else Gap;
      OneGood(f, key, ts[0], at, top);
      SubsGood(f, key, ts[1..], false, EndKey(one, at), EndAbove(one, top));
      GoodJoins(f, one, rest, key, at, top);
      if first { assert [] + (one + rest) == one + rest; } else { GapGood(f, one + rest, key, at, above); }
    }
  }

  /** One subtable or array of tables, below an empty line or below the header of its table. */
  lemma {:induction false} OneGood(f: Format, key: Key, t: Sub, at: Key, top: Above)
    requires ProperSub(t)
    requires top == Gap || top == Header(key)
    ensures var rows := OneSubRows(f, key, t, Depth(f, |key|));
      rows != [] && rows[0].HeaderRow? && rows[0].key == key + [t.key] && Good(f, rows, key + [t.key], at, top)
    decreases t, 0
  {
    var k := key + [t.key];
    match t
    case TableAt(_, b) =>
      BodyGood(f, k, b);
      var level := Depth(f, |k|);
      HeaderGood(f, k, false, PairRows(b.kvs, level) + SubRows(f, k, b.tables, level, b.kvs == []), at, top);
    case ArrayAt(_, bs) => ArrayGood(f, k, bs, true, at, top);
  }

  /** The elements of an array of tables from some one on. */
  lemma {:induction false} ArrayGood(f: Format, k: Key, bs: seq<Block>, first: bool, at: Key, above: Above)
    requires k != [] && forall i :: 0 <= i < |bs| ==> Proper(bs[i])
    requires if first then bs != [] && (above == Gap || above == Header(Outer(k))) else Within(k, at, above)
    ensures var rows := ArrayRows(f, k, bs, Depth(f, |k| - 1), first);
      (first ==> rows != [] && rows[0].HeaderRow? && rows[0].key == k) && Good(f, rows, k, at, above)
    decreases bs, 0
  {
    if bs != [] {
      var indent, level := Depth(f, |k| - 1), Depth(f, |k|);
      var body := PairRows(bs[0].kvs, level) + SubRows(f, k, bs[0].tables, level, bs[0].kvs == []);
      var rest := ArrayRows(f, k, bs[1..], indent, false);
      BodyGood(f, k, bs[0]);
      ArrayGood(f, k, bs[1..], false, EndKey(body, k), EndAbove(body, Header(k)));
      GoodJoins(f, body, rest, k, k, Header(k));
      var rows := [HeaderRow(indent, k, true)] + (body + rest);
      HeaderGood(f, k, true, body + rest, at, if first then above else Gap);
      ArrayStep(f, k, bs, first);
      if first { assert [] + rows == rows; } else { GapGood(f, rows, k, at, above); }
    }
  }

  lemma ArrayStep(f: Format, k: Key, bs: seq<Block>, first: bool)
    requires k != [] && bs != []
    ensures var indent, level := Depth(f, |k| - 1), Depth(f, |k|);
      ArrayRows(f, k, bs, indent, first) ==
        (if first then [] else [Blank])
        + ([HeaderRow(indent, k, true)]
           + (PairRows(bs[0].kvs, level) + SubRows(f, k, bs[0].tables, level, bs[0].kvs == [])
              + ArrayRows(f, k, bs[1..], indent, false)))
  {
    var level := Depth(f, |k|);
    var body := PairRows(bs[0].kvs, level) + SubRows(f, k, bs[0].tables, level, bs[0].kvs == []);
    assert BlockRows(f, k, bs[0], level, true) == [] + body == body;
  }

  /** How the rows of every document are laid out. */
  lemma DocumentLaid(f: Format, b: Block)
    requires Proper(b)
    ensures Laid(f, BlockRows(f, [], b, 0, false), [], Header([]))
  {
    BodyGood(f, [], b);
    var body := PairRows(b.kvs, 0) + SubRows(f, [], b.tables, 0, b.kvs == []);
    assert BlockRows(f, [], b, 0, false) == [] + body == body;
  }
}
