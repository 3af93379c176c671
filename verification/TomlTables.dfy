/**
  Documents with tables: `encodeTable`, `encodeTableHeader` and `encodeSliceAsArrayTable` of
  utoml/marshaler.go print a block row by row. The printed text parses to the headers and pairs of the
  block, and these determine the block.
*/
module TomlTables {
  import opened TomlText
  import opened TomlStrings
  import opened TomlGrammar
  import opened TomlPrinter
  import opened TomlRoundTrip
  import opened TomlNumbers

  /** What is encoded as a table of its own: key-value pairs, then subtables. */
  datatype Block = Block(kvs: seq<Entry>, tables: seq<Sub>)

  datatype Sub = TableAt(key: Text, block: Block) | ArrayAt(key: Text, blocks: seq<Block>)

  type Key = seq<Text>

  /** A printed line. */
  datatype Row = Blank | HeaderRow(indent: nat, key: Key, isArray: bool) | PairRow(indent: nat, e: Entry)

  function PrintKeys(ks: Key): Text {
    if ks == [] then [] else PrintKey(ks[0]) + if |ks| == 1 then [] else "." + PrintKeys(ks[1..])
  }

  function RowText(f: Format, r: Row): Text {
    match r
    case Blank => []
    case HeaderRow(indent, key, isArray) =>
      Indent(f, indent) + ((if isArray then "[[" else "[") + (PrintKeys(key) + if isArray then "]]" else "]"))
    case PairRow(indent, e) => Indent(f, indent) + PrintPair(f, e, indent)
  }

  function RowsText(f: Format, rows: seq<Row>): Text {
    if rows == [] then [] else RowText(f, rows[0]) + "\n" + RowsText(f, rows[1..])
  }

  function PairRows(es: seq<Entry>, indent: nat): seq<Row> {
    if es == [] then [] else [PairRow(indent, es[0])] + PairRows(es[1..], indent)
  }

  /** `encodeTable` */
  function BlockRows(f: Format, key: Key, b: Block, indent: nat, skipHeader: bool): seq<Row>
    decreases b
  {
    var header := !skipHeader && key != [];
    var level := if header && f.indentTables then indent + 1 else indent;
    (if header then [HeaderRow(indent, key, false)] else [])
    + (PairRows(b.kvs, level) + SubRows(f, key, b.tables, level, b.kvs == []))
  }

  /** The subtables from some one on, with an empty line before each, unless nothing stands before it. */
  function SubRows(f: Format, key: Key, ts: seq<Sub>, level: nat, first: bool): seq<Row>
    decreases ts
  {
    if ts == [] then []
    else (if first then [] else [Blank]) + (OneSubRows(f, key, ts[0], level) + SubRows(f, key, ts[1..], level, false))
  }

  function OneSubRows(f: Format, key: Key, t: Sub, level: nat): seq<Row>
    decreases t
  {
    match t
    case TableAt(k, b) => BlockRows(f, key + [k], b, level, false)
    case ArrayAt(k, bs) => ArrayRows(f, key + [k], bs, level, true)
  }

  /** `encodeSliceAsArrayTable`, from some element on. */
  function ArrayRows(f: Format, key: Key, bs: seq<Block>, indent: nat, first: bool): seq<Row>
    decreases bs
  {
    if bs == [] then []
    else
      (if first then [] else [Blank])
      + ([HeaderRow(if f.indentTables then indent else 0, key, true)]
         + (BlockRows(f, key, bs[0], if f.indentTables then indent + 1 else indent, true)
            + ArrayRows(f, key, bs[1..], indent, false)))
  }

  function PrintBlock(f: Format, b: Block): Text {
    RowsText(f, BlockRows(f, [], b, 0, false))
  }

  // ---------- what a block means ----------

  function PairExpressions(es: seq<Entry>): seq<Expression> {
    if es == [] then [] else [KeyValue(PairOf(es[0]))] + PairExpressions(es[1..])
  }

  /** What a table says behind its header: its pairs, then each subtable under its full key. */
  function BlockExpressions(key: Key, b: Block): seq<Expression>
    decreases b
  {
    PairExpressions(b.kvs) + SubExpressions(key, b.tables)
  }

  function SubExpressions(key: Key, ts: seq<Sub>): seq<Expression>
    decreases ts
  {
    if ts == [] then [] else OneSubExpressions(key, ts[0]) + SubExpressions(key, ts[1..])
  }

  function OneSubExpressions(key: Key, t: Sub): seq<Expression>
    decreases t
  {
    match t
    case TableAt(k, b) => [TableHeader(key + [k])] + BlockExpressions(key + [k], b)
    case ArrayAt(k, bs) => ArrayExpressions(key + [k], bs)
  }

  function ArrayExpressions(key: Key, bs: seq<Block>): seq<Expression>
    decreases bs
  {
    if bs == [] then []
    else [ArrayTableHeader(key)] + (BlockExpressions(key, bs[0]) + ArrayExpressions(key, bs[1..]))
  }

  function RowExpressions(rows: seq<Row>): seq<Expression> {
    if rows == [] then [] else RowExpression(rows[0]) + RowExpressions(rows[1..])
  }

  function RowExpression(r: Row): seq<Expression> {
    match r
    case Blank => []
    case HeaderRow(_, key, isArray) => [if isArray then ArrayTableHeader(key) else TableHeader(key)]
    case PairRow(_, e) => [KeyValue(PairOf(e))]
  }

  lemma {:induction false} RowsConcat(a: seq<Row>, b: seq<Row>)
    ensures RowExpressions(a + b) == RowExpressions(a) + RowExpressions(b)
  {
    hide RowExpression;
    if a == [] {
      assert a + b == b;
    } else {
      assert (a + b)[1..] == a[1..] + b;
      RowsConcat(a[1..], b);
    }
  }

  lemma OneRow(r: Row)
    ensures RowExpressions([r]) == RowExpression(r)
  {
    assert [r][1..] == [];
  }

  lemma NoRows()
    ensures RowExpressions([]) == []
  {
  }

  lemma {:induction false} PairRowsMean(es: seq<Entry>, indent: nat)
    ensures RowExpressions(PairRows(es, indent)) == PairExpressions(es)
  {
    if es != [] {
      PairRowsMean(es[1..], indent);
      RowsConcat([PairRow(indent, es[0])], PairRows(es[1..], indent));
      OneRow(PairRow(indent, es[0]));
    }
  }

  /** The rows of a block say what the block says. */
  lemma {:induction false} BlockRowsMean(f: Format, key: Key, b: Block, indent: nat, skipHeader: bool)
    ensures RowExpressions(BlockRows(f, key, b, indent, skipHeader))
         == (if skipHeader || key == [] then [] else [TableHeader(key)]) + BlockExpressions(key, b)
    decreases b
  {
    hide RowExpressions, PairRows, SubRows, SubExpressions, PairExpressions;
    var header := !skipHeader && key != [];
    var level := if header && f.indentTables then indent + 1 else indent;
    var h := if header then [HeaderRow(indent, key, false)] else [];
    var subs := SubRows(f, key, b.tables, level, b.kvs == []);
    RowsConcat(h, PairRows(b.kvs, level) + subs);
    RowsConcat(PairRows(b.kvs, level), subs);
    PairRowsMean(b.kvs, level);
    SubRowsMean(f, key, b.tables, level, b.kvs == []);
    OneRow(HeaderRow(indent, key, false));
    NoRows();
  }

  lemma {:induction false} SubRowsMean(f: Format, key: Key, ts: seq<Sub>, level: nat, first: bool)
    ensures RowExpressions(SubRows(f, key, ts, level, first)) == SubExpressions(key, ts)
    decreases ts
  {
    hide RowExpressions, OneSubRows, OneSubExpressions;
    NoRows();
    if ts != [] {
      var gap := if first then [] else [Blank];
      RowsConcat(gap, OneSubRows(f, key, ts[0], level) + SubRows(f, key, ts[1..], level, false));
      RowsConcat(OneSubRows(f, key, ts[0], level), SubRows(f, key, ts[1..], level, false));
      OneRow(Blank);
      OneSubMeans(f, key, ts[0], level);
      SubRowsMean(f, key, ts[1..], level, false);
    }
  }

  lemma {:induction false} OneSubMeans(f: Format, key: Key, t: Sub, level: nat)
    ensures RowExpressions(OneSubRows(f, key, t, level)) == OneSubExpressions(key, t)
    decreases t
  {
    hide RowExpressions, BlockRows, BlockExpressions, ArrayRows, ArrayExpressions;
    match t
    case TableAt(k, b) => BlockRowsMean(f, key + [k], b, level, false);
    case ArrayAt(k, bs) => ArrayRowsMean(f, key + [k], bs, level, true);
  }

  lemma NoArrayRows(f: Format, key: Key, indent: nat, first: bool)
    ensures RowExpressions(ArrayRows(f, key, [], indent, first)) == ArrayExpressions(key, [])
  {
  }

  lemma {:induction false} FirstArrayRows(f: Format, key: Key, bs: seq<Block>, indent: nat, first: bool)
    requires bs != []
    ensures ArrayRows(f, key, bs, indent, first) ==
      (if first then [] else [Blank])
      + ([HeaderRow(if f.indentTables then indent else 0, key, true)]
         + (BlockRows(f, key, bs[0], if f.indentTables then indent + 1 else indent, true)
            + ArrayRows(f, key, bs[1..], indent, false)))
  {
    hide BlockRows;
  }

  lemma {:induction false} ArrayRowsMean(f: Format, key: Key, bs: seq<Block>, indent: nat, first: bool)
    ensures RowExpressions(ArrayRows(f, key, bs, indent, first)) == ArrayExpressions(key, bs)
    decreases bs
  {
    hide RowExpressions, BlockRows, BlockExpressions, ArrayRows, ArrayExpressions;
    if bs == [] {
      NoArrayRows(f, key, indent, first);
    } else {
      FirstArrayRows(f, key, bs, indent, first);
      var gap := if first then [] else [Blank];
      var h := HeaderRow(if f.indentTables then indent else 0, key, true);
      var own := BlockRows(f, key, bs[0], if f.indentTables then indent + 1 else indent, true);
      var more := ArrayRows(f, key, bs[1..], indent, false);
      ArrayRowParts(gap, h, own, more);
      NoGap(first);
      BlockRowsMean(f, key, bs[0], if f.indentTables then indent + 1 else indent, true);
      ArrayRowsMean(f, key, bs[1..], indent, false);
      NothingBefore(BlockExpressions(key, bs[0]));
      NothingBefore([ArrayTableHeader(key)] + (BlockExpressions(key, bs[0]) + ArrayExpressions(key, bs[1..])));
      FirstArrayExpressions(key, bs);
    }
  }

  lemma NothingBefore(a: seq<Expression>)
    ensures [] + a == a
  {
  }

  lemma NoGap(first: bool)
    ensures RowExpressions(if first then [] else [Blank]) == []
  {
  }

  lemma {:induction false} FirstArrayExpressions(key: Key, bs: seq<Block>)
    ensures bs != [] ==>
      ArrayExpressions(key, bs) == [ArrayTableHeader(key)]
          + (BlockExpressions(key, bs[0]) + ArrayExpressions(key, bs[1..]))
  {
    hide BlockExpressions;
  }

  lemma ArrayRowParts(gap: seq<Row>, h: Row, own: seq<Row>, more: seq<Row>)
    ensures RowExpressions(gap + ([h] + (own + more)))
         == RowExpressions(gap) + (RowExpression(h) + (RowExpressions(own) + RowExpressions(more)))
  {
    hide RowExpressions;
    RowsConcat(gap, [h] + (own + more));
    RowsConcat([h], own + more);
    RowsConcat(own, more);
    OneRow(h);
  }

  // ---------- reading a printed document ----------

  predicate ValidKey(ks: Key) {
    ks != [] && forall i :: 0 <= i < |ks| ==> ValidUtf8(ks[i])
  }

  predicate RowOk(r: Row) {
    match r
    case Blank => true
    case HeaderRow(_, key, _) => ValidKey(key)
    case PairRow(_, e) => ValidUtf8(e.key) && Encodable(e.value)
  }

  predicate RowsOk(rows: seq<Row>) {
    forall i :: 0 <= i < |rows| ==> RowOk(rows[i])
  }

  lemma PrintKeyStart(k: Text)
    ensures PrintKey(k) != [] && PrintKey(k)[0] != '[' && PrintKey(k)[0] != '.' && !IsWs(PrintKey(k)[0])
  {
    hide Quoted;
    QuotedStart(false, k);
  }

  /** A dotted key is read back up to the closing bracket. */
  lemma {:induction false} KeysRoundTrip(ks: Key, x: Text)
    requires ValidKey(ks)
    ensures ParseKey(PrintKeys(ks) + ("]" + x)) == Ok((ks, "]" + x))
    decreases |ks|
  {
    hide ParseSimpleKey, PrintKey, ParseKeyRest, PrintKeys, SkipWs;
    var y := "]" + x;
    var rest := ks[1..];
    var tail := (if rest == [] then [] else "." + PrintKeys(rest)) + y;
    assert PrintKeys(ks) + y == PrintKey(ks[0]) + tail by { KeysSplit(ks, y); }
    SimpleKeyRoundTrip(ks[0], tail);
    KeyRestRoundTrip(rest, x);
    assert [ks[0]] + rest == ks;
  }

  lemma KeysSplit(ks: Key, y: Text)
    requires ks != []
    ensures PrintKeys(ks) + y == PrintKey(ks[0]) + ((if ks[1..] == [] then [] else "." + PrintKeys(ks[1..])) + y)
  {
    hide PrintKey;
  }

  lemma {:induction false} KeyRestRoundTrip(ks: Key, x: Text)
    requires forall i :: 0 <= i < |ks| ==> ValidUtf8(ks[i])
    ensures ParseKeyRest((if ks == [] then [] else "." + PrintKeys(ks)) + ("]" + x)) == Ok((ks, "]" + x))
    decreases |ks|
  {
    hide ParseSimpleKey, PrintKey, PrintKeys, SkipWs;
    var y := "]" + x;
    if ks == [] {
      assert [] + y == y;
      WsEndRun("", y);
      assert "" + y == y;
    } else {
      var b := "." + PrintKeys(ks) + y;
      var tail := (if ks[1..] == [] then [] else "." + PrintKeys(ks[1..])) + y;
      KeysSplit(ks, y);
      assert b == "." + (PrintKey(ks[0]) + tail);
      WsEndRun("", b);
      assert "" + b == b;
      assert b[1..] == PrintKey(ks[0]) + tail;
      PrintKeyStart(ks[0]);
      WsEndRun("", b[1..]);
      assert "" + b[1..] == b[1..];
      SimpleKeyRoundTrip(ks[0], tail);
      KeyRestRoundTrip(ks[1..], x);
      assert [ks[0]] + ks[1..] == ks;
    }
  }

  lemma HeaderRoundTrip(key: Key, isArray: bool, x: Text)
    requires ValidKey(key)
    ensures var b := ((if isArray then "[[" else "[") + (PrintKeys(key) + if isArray then "]]" else "]")) + x;
      ParseHeader(b) == Ok((if isArray then ArrayTableHeader(key) else TableHeader(key), x))
  {
    hide ParseKey, PrintKey, PrintKeys, SkipWs;
    var close := if isArray then "]]" else "]";
    var y := (if isArray then "]" else "") + x;
    var b := ((if isArray then "[[" else "[") + (PrintKeys(key) + close)) + x;
    var k := PrintKeys(key) + ("]" + y);
    assert k == PrintKeys(key) + close + x;
    KeysSplit(key, []);
    PrintKeyStart(key[0]);
    assert PrintKeys(key) + [] == PrintKeys(key);
    assert PrintKeys(key) != [] && PrintKeys(key)[0] == PrintKey(key[0])[0];
    assert b[if isArray then 2 else 1..] == k;
    WsEndRun("", k);
    assert "" + k == k;
    KeysRoundTrip(key, y);
    WsEndRun("", "]" + y);
    assert "" + ("]" + y) == "]" + y && ("]" + y)[1..] == y;
    if isArray { assert y == "]" + x && y[1..] == x; } else { assert y == x; }
  }

  /** What a line holds behind its blanks, up to its newline. */
  predicate Reads(c: Text, e: Expression, x: Text) {
    c != [] && c[0] !in {' ', '\t', '\n', '\r', '#'} &&
    if c[0] == '[' then ParseHeader(c) == Ok((e, x)) else e.KeyValue? && ParsePair(c) == Ok((e.pair, x))
  }

  lemma LineRoundTrip(w: Text, c: Text, e: Expression, x: Text)
    requires (forall i :: 0 <= i < |w| ==> IsWs(w[i])) && Reads(c, e, x) && x != [] && x[0] == '\n'
    ensures ParseLine(w + c) == Ok((Just(e), x))
  {
    hide ParsePair, SkipWs, ParseHeader;
    WsEndRun(w, c);
    WsEndRun("", x);
    assert "" + x == x;
  }

  lemma RowReads(f: Format, r: Row, x: Text)
    requires BlankIndent(f) && RowOk(r) && !r.Blank? && x != [] && x[0] == '\n'
    ensures exists c :: RowText(f, r) + x == Indent(f, r.indent) + c && Reads(c, RowExpression(r)[0], x)
  {
    hide PrintPair, ParsePair, ParseHeader, PrintKeys, Indent, Encodable, ValidKey;
    if r.PairRow? {
      var body := PrintPair(f, r.e, r.indent);
      PairStart(f, r.e, r.indent);
      PairRoundTrip(f, r.e, r.indent, x);
      assert (body + x)[0] == body[0];
      assert Indent(f, r.indent) + body + x == Indent(f, r.indent) + (body + x);
      assert Reads(body + x, RowExpression(r)[0], x);
    } else {
      var body := (if r.isArray then "[[" else "[") + (PrintKeys(r.key) + if r.isArray then "]]" else "]");
      HeaderRoundTrip(r.key, r.isArray, x);
      assert (body + x)[0] == '[';
      assert Indent(f, r.indent) + body + x == Indent(f, r.indent) + (body + x);
      assert Reads(body + x, RowExpression(r)[0], x);
    }
  }

  /** One row that is not empty: the parser reads it and stops before its newline. */
  lemma RowRoundTrip(f: Format, r: Row, rest: Text, first: bool)
    requires BlankIndent(f) && RowOk(r) && !r.Blank?
    ensures var b := RowText(f, r) + ("\n" + rest);
      NextExpression(if first then b else "\n" + b, first) == Ok((Just(RowExpression(r)[0]), "\n" + rest))
  {
    hide RowText, RowOk, Indent, ParseLine, Reads;
    var x := "\n" + rest;
    var b := RowText(f, r) + x;
    RowReads(f, r, x);
    var c :| b == Indent(f, r.indent) + c && Reads(c, RowExpression(r)[0], x);
    IndentIsBlank(f, r.indent);
    LineRoundTrip(Indent(f, r.indent), c, RowExpression(r)[0], x);
    assert ("\n" + b)[1..] == b;
  }

  /** Rows parse to what they say, in order, without error. */
  lemma {:induction false} RowsRoundTrip(f: Format, rows: seq<Row>, first: bool)
    requires BlankIndent(f) && RowsOk(rows)
    ensures ParseDocument((if first then "" else "\n") + RowsText(f, rows), first) == Ok(RowExpressions(rows))
    decreases |rows|
  {
    hide RowText, NextExpression, RowOk, ParseDocument;
    if rows == [] {
      NoText();
    } else {
      var rest := RowsText(f, rows[1..]);
      var b := RowText(f, rows[0]) + ("\n" + rest);
      assert RowsText(f, rows) == b && "" + b == b;
      RowsRoundTrip(f, rows[1..], false);
      if rows[0].Blank? {
        BlankRow(f, rest, first);
        SameNext((if first then "" else "\n") + b, first, "\n" + rest, false);
        assert [] + RowExpressions(rows[1..]) == RowExpressions(rows[1..]);
      } else {
        RowRoundTrip(f, rows[0], rest, first);
        NextThen((if first then "" else "\n") + b, first, RowExpression(rows[0])[0], "\n" + rest);
      }
    }
  }

  lemma NoText()
    ensures ParseDocument("" + [], true) == Ok([]) && ParseDocument("\n" + [], false) == Ok([])
  {
    assert ("\n" + [])[1..] == [];
  }

  lemma NextThen(a: Text, first: bool, e: Expression, b: Text)
    requires NextExpression(a, first) == Ok((Just(e), b)) && ParseDocument(b, false).Ok?
    ensures ParseDocument(a, first) == Ok([e] + ParseDocument(b, false).value)
  {
    hide NextExpression;
  }

  lemma SameNext(a: Text, first: bool, b: Text, second: bool)
    requires NextExpression(a, first) == NextExpression(b, second)
    ensures ParseDocument(a, first) == ParseDocument(b, second)
  {
    hide NextExpression;
  }

  /** An empty line is passed over. */
  lemma BlankRow(f: Format, rest: Text, first: bool)
    ensures var b := RowText(f, Blank) + ("\n" + rest);
      NextExpression(if first then b else "\n" + b, first) == NextExpression("\n" + rest, false)
  {
    hide SkipWs;
    var x := "\n" + rest;
    assert RowText(f, Blank) + x == x;
    WsEndRun("", x);
    assert "" + x == x;
    assert ("\n" + x)[1..] == x;
  }

  predicate EncodableBlock(b: Block)
    decreases b
  {
    EncodableEntries(b.kvs) && forall i :: 0 <= i < |b.tables| ==> EncodableSub(b.tables[i])
  }

  predicate EncodableSub(t: Sub)
    decreases t
  {
    ValidUtf8(t.key) &&
    match t
    case TableAt(_, b) => EncodableBlock(b)
    case ArrayAt(_, bs) => forall i :: 0 <= i < |bs| ==> EncodableBlock(bs[i])
  }

  lemma {:induction false} PairRowsOk(es: seq<Entry>, indent: nat)
    requires EncodableEntries(es)
    ensures RowsOk(PairRows(es, indent))
  {
    if es != [] { PairRowsOk(es[1..], indent); }
  }

  lemma {:induction false} BlockRowsOk(f: Format, key: Key, b: Block, indent: nat, skipHeader: bool)
    requires EncodableBlock(b) && (key == [] || ValidKey(key))
    ensures RowsOk(BlockRows(f, key, b, indent, skipHeader))
    decreases b
  {
    hide ValidKey, PairRows, SubRows, EncodableEntries, EncodableSub;
    var level := if !skipHeader && key != [] && f.indentTables then indent + 1 else indent;
    PairRowsOk(b.kvs, level);
    SubRowsOk(f, key, b.tables, level, b.kvs == []);
  }

  lemma {:induction false} SubRowsOk(f: Format, key: Key, ts: seq<Sub>, level: nat, first: bool)
    requires (forall i :: 0 <= i < |ts| ==> EncodableSub(ts[i])) && (key == [] || ValidKey(key))
    ensures RowsOk(SubRows(f, key, ts, level, first))
    decreases ts
  {
    hide OneSubRows, EncodableSub, ValidKey;
    if ts != [] {
      OneSubOk(f, key, ts[0], level);
      SubRowsOk(f, key, ts[1..], level, false);
    }
  }

  lemma {:induction false} OneSubOk(f: Format, key: Key, t: Sub, level: nat)
    requires EncodableSub(t) && (key == [] || ValidKey(key))
    ensures RowsOk(OneSubRows(f, key, t, level))
    decreases t
  {
    hide BlockRows, ArrayRows, EncodableBlock, RowsOk;
    assert ValidKey(key + [t.key]);
    match t
    case TableAt(k, b) => BlockRowsOk(f, key + [k], b, level, false);
    case ArrayAt(k, bs) => ArrayRowsOk(f, key + [k], bs, level, true);
  }

  lemma {:induction false} ArrayRowsOk(f: Format, key: Key, bs: seq<Block>, indent: nat, first: bool)
    requires (forall i :: 0 <= i < |bs| ==> EncodableBlock(bs[i])) && ValidKey(key)
    ensures RowsOk(ArrayRows(f, key, bs, indent, first))
    decreases bs
  {
    hide BlockRows, EncodableBlock, ValidKey;
    if bs != [] {
      BlockRowsOk(f, key, bs[0], if f.indentTables then indent + 1 else indent, true);
      ArrayRowsOk(f, key, bs[1..], indent, false);
    }
  }

  /** A printed document parses without error to the pairs and headers of its block, in order. */
  lemma DocumentRoundTrip(f: Format, b: Block)
    requires BlankIndent(f) && EncodableBlock(b)
    ensures ParseDocument(PrintBlock(f, b), true) == Ok(BlockExpressions([], b))
  {
    hide RowsText, BlockRows, BlockExpressions, EncodableBlock, ParseDocument;
    BlockRowsOk(f, [], b, 0, false);
    RowsRoundTrip(f, BlockRows(f, [], b, 0, false), true);
    BlockRowsMean(f, [], b, 0, false);
    assert "" + PrintBlock(f, b) == PrintBlock(f, b);
    assert [] + BlockExpressions([], b) == BlockExpressions([], b);
  }

  // ---------- nothing is lost ----------

  /** Keys of a table are distinct, as keys of a map are, and arrays of tables are not empty. */
  predicate Proper(b: Block)
    decreases b
  {
    ProperSubs(b.tables)
  }

  predicate ProperSubs(ts: seq<Sub>)
    decreases ts
  {
    (forall i :: 0 <= i < |ts| ==> ProperSub(ts[i])) && forall i, j :: 0 <= i < j < |ts| ==> ts[i].key != ts[j].key
  }

  predicate ProperSub(t: Sub)
    decreases t
  {
    match t
    case TableAt(_, b) => Proper(b)
    case ArrayAt(_, bs) => bs != [] && forall i :: 0 <= i < |bs| ==> Proper(bs[i])
  }

  /** A block without the `multiline` options, which the text does not carry. */
  function StripBlock(b: Block): Block
    decreases b
  {
    Block(StripEntries(b.kvs), StripSubs(b.tables))
  }

  function StripSubs(ts: seq<Sub>): seq<Sub>
    decreases ts
  {
    if ts == [] then [] else [StripSub(ts[0])] + StripSubs(ts[1..])
  }

  function StripSub(t: Sub): Sub
    decreases t
  {
    match t
    case TableAt(k, b) => TableAt(k, StripBlock(b))
    case ArrayAt(k, bs) => ArrayAt(k, StripBlocks(bs))
  }

  function StripBlocks(bs: seq<Block>): seq<Block>
    decreases bs
  {
    if bs == [] then [] else [StripBlock(bs[0])] + StripBlocks(bs[1..])
  }

  /** Expressions that cannot belong to a table of n key parts any more: a header of at most n parts comes first. */
  predicate Leaves(r: seq<Expression>, n: nat) {
    r == [] || (!r[0].KeyValue? && |r[0].key| <= n)
  }

  predicate NoPairFirst(r: seq<Expression>) {
    r == [] || !r[0].KeyValue?
  }

  lemma {:induction false} PairsSplit(es: seq<Entry>, fs: seq<Entry>, r: seq<Expression>, s: seq<Expression>)
    requires PairExpressions(es) + r == PairExpressions(fs) + s && NoPairFirst(r) && NoPairFirst(s)
    ensures StripEntries(es) == StripEntries(fs) && r == s
  {
    hide PairOf, Strip, PairExpressions;
    FirstPair(es, r);
    FirstPair(fs, s);
    if es != [] && fs != [] {
      PairsSplit(es[1..], fs[1..], r, s);
      SamePair(es[0], fs[0]);
    }
  }

  lemma {:induction false} FirstPair(es: seq<Entry>, r: seq<Expression>)
    ensures var a := PairExpressions(es) + r;
      if es == [] then a == r else a != [] && a[0] == KeyValue(PairOf(es[0])) && a[1..] == PairExpressions(es[1..]) + r
  {
    hide PairOf;
    if es != [] { Unfold(KeyValue(PairOf(es[0])), PairExpressions(es[1..]), r); }
  }

  lemma Unfold(e: Expression, a: seq<Expression>, r: seq<Expression>)
    ensures var s := [e] + a + r; s != [] && s[0] == e && s[1..] == a + r
  {
  }

  lemma Associate(a: seq<Expression>, b: seq<Expression>, c: seq<Expression>)
    ensures a + b + c == a + (b + c)
  {
  }

  lemma SamePair(e: Entry, g: Entry)
    requires PairOf(e) == PairOf(g)
    ensures e.key == g.key && Strip(e.value) == Strip(g.value)
  {
    assert [e.key][0] == [g.key][0];
    TreeDetermines(e.value, g.value);
  }

  function HeadOf(key: Key, t: Sub): Expression {
    if t.TableAt? then TableHeader(key + [t.key]) else ArrayTableHeader(key + [t.key])
  }

  lemma {:induction false} OneSubHead(key: Key, t: Sub)
    requires ProperSub(t)
    ensures OneSubExpressions(key, t) != [] && OneSubExpressions(key, t)[0] == HeadOf(key, t)
  {
    hide BlockExpressions, Proper;
    match t
    case TableAt(k, b) =>
    case ArrayAt(k, bs) => assert ArrayExpressions(key + [k], bs)[0] == ArrayTableHeader(key + [k]);
  }

  lemma {:induction false} SubsFrom(key: Key, ts: seq<Sub>, r: seq<Expression>)
    requires ProperSubs(ts)
    ensures if ts == [] then SubExpressions(key, ts) + r == r
            else
              && ProperSub(ts[0]) && ProperSubs(ts[1..])
              && SubExpressions(key, ts) + r == OneSubExpressions(key, ts[0]) + (SubExpressions(key, ts[1..]) + r)
              && SubExpressions(key, ts) + r != [] && (SubExpressions(key, ts) + r)[0] == HeadOf(key, ts[0])
  {
    hide OneSubExpressions, ProperSub, HeadOf;
    if ts == [] {
      assert [] + r == r;
    } else {
      OneSubHead(key, ts[0]);
      Associate(OneSubExpressions(key, ts[0]), SubExpressions(key, ts[1..]), r);
    }
  }

  /** The expressions of subtables, and what follows them, do not belong to a table with one key part more. */
  lemma {:induction false} SubsLeave(key: Key, ts: seq<Sub>, r: seq<Expression>)
    requires ProperSubs(ts) && Leaves(r, |key|)
    ensures Leaves(SubExpressions(key, ts) + r, |key| + 1)
  {
    hide SubExpressions, ProperSubs, OneSubExpressions, ProperSub;
    SubsFrom(key, ts, r);
  }

  predicate NoMore(r: seq<Expression>, key: Key) {
    Leaves(r, |key|) && (r != [] ==> r[0] != ArrayTableHeader(key))
  }

  /** Behind a subtable come other subtables, with other keys. */
  lemma {:induction false} NextSubs(key: Key, ts: seq<Sub>, r: seq<Expression>)
    requires ts != [] && ProperSubs(ts) && Leaves(r, |key|)
    ensures ProperSubs(ts[1..]) && NoMore(SubExpressions(key, ts[1..]) + r, key + [ts[0].key])
  {
    hide SubExpressions, OneSubExpressions, ProperSub;
    SubsLeave(key, ts[1..], r);
    SubsFrom(key, ts[1..], r);
    if |ts| > 1 {
      assert (key + [ts[0].key])[|key|] != (key + [ts[1].key])[|key|];
    }
  }

  /** A block can be told from its expressions, whatever follows that is not part of it. */
  lemma {:induction false} BlockDetermined(key: Key, b: Block, c: Block, r: seq<Expression>, s: seq<Expression>)
    requires BlockExpressions(key, b) + r == BlockExpressions(key, c) + s
    requires Proper(b) && Proper(c) && Leaves(r, |key|) && Leaves(s, |key|)
    ensures StripBlock(b) == StripBlock(c) && r == s
    decreases b
  {
    hide PairExpressions, SubExpressions, ProperSubs, StripEntries, StripSubs;
    Associate(PairExpressions(b.kvs), SubExpressions(key, b.tables), r);
    Associate(PairExpressions(c.kvs), SubExpressions(key, c.tables), s);
    SubsLeave(key, b.tables, r);
    SubsLeave(key, c.tables, s);
    PairsSplit(b.kvs, c.kvs, SubExpressions(key, b.tables) + r, SubExpressions(key, c.tables) + s);
    SubsDetermined(key, b.tables, c.tables, r, s);
  }

  lemma {:induction false} SubsDetermined(key: Key, ts: seq<Sub>, us: seq<Sub>, r: seq<Expression>, s: seq<Expression>)
    requires SubExpressions(key, ts) + r == SubExpressions(key, us) + s
    requires ProperSubs(ts) && ProperSubs(us) && Leaves(r, |key|) && Leaves(s, |key|)
    ensures StripSubs(ts) == StripSubs(us) && r == s
    decreases ts
  {
    hide SubExpressions, ProperSubs, ProperSub, OneSubExpressions, NoMore, StripSub;
    SubsFrom(key, ts, r);
    SubsFrom(key, us, s);
    if ts != [] && us != [] {
      var t, u := ts[0], us[0];
      assert (key + [t.key])[|key|] == t.key && (key + [u.key])[|key|] == u.key;
      NextSubs(key, ts, r);
      NextSubs(key, us, s);
      SubDetermined(key, t, u, SubExpressions(key, ts[1..]) + r, SubExpressions(key, us[1..]) + s);
      SubsDetermined(key, ts[1..], us[1..], r, s);
    }
  }

  lemma {:induction false} SubDetermined(key: Key, t: Sub, u: Sub, r: seq<Expression>, s: seq<Expression>)
    requires t.key == u.key && t.TableAt? == u.TableAt? &&
        OneSubExpressions(key, t) + r == OneSubExpressions(key, u) + s
    requires ProperSub(t) && ProperSub(u) && NoMore(r, key + [t.key]) && NoMore(s, key + [t.key])
    ensures StripSub(t) == StripSub(u) && r == s
    decreases t
  {
    hide BlockExpressions, ArrayExpressions, Proper, StripBlock, StripBlocks;
    match t
    case TableAt(k, b) =>
      Unfold(TableHeader(key + [k]), BlockExpressions(key + [k], b), r);
      Unfold(TableHeader(key + [k]), BlockExpressions(key + [k], u.block), s);
      BlockDetermined(key + [k], b, u.block, r, s);
    case ArrayAt(k, bs) => ArrayDetermined(key + [k], bs, u.blocks, r, s);
  }

  lemma {:induction false} ArrayFrom(key: Key, bs: seq<Block>, r: seq<Expression>)
    ensures var a := ArrayExpressions(key, bs) + r;
      if bs == [] then a == r
      else
        && a != [] && a[0] == ArrayTableHeader(key)
        && a[1..] == BlockExpressions(key, bs[0]) + (ArrayExpressions(key, bs[1..]) + r)
  {
    hide BlockExpressions;
    if bs == [] {
      assert [] + r == r;
    } else {
      var b, more := BlockExpressions(key, bs[0]), ArrayExpressions(key, bs[1..]);
      Unfold(ArrayTableHeader(key), b + more, r);
      Associate(b, more, r);
    }
  }

  lemma {:induction false} ArrayDetermined(key: Key, bs: seq<Block>, cs: seq<Block>, r: seq<Expression>,
      s: seq<Expression>)
    requires ArrayExpressions(key, bs) + r == ArrayExpressions(key, cs) + s
    requires (forall i :: 0 <= i < |bs| ==> Proper(bs[i])) && (forall i :: 0 <= i < |cs| ==> Proper(cs[i]))
    requires NoMore(r, key) && NoMore(s, key)
    ensures StripBlocks(bs) == StripBlocks(cs) && r == s
    decreases bs
  {
    hide BlockExpressions, ArrayExpressions, Proper, StripBlock;
    ArrayFrom(key, bs, r);
    ArrayFrom(key, cs, s);
    if bs != [] && cs != [] {
      var a, c := ArrayExpressions(key, bs[1..]) + r, ArrayExpressions(key, cs[1..]) + s;
      ArrayFrom(key, bs[1..], r);
      ArrayFrom(key, cs[1..], s);
      BlockDetermined(key, bs[0], cs[0], a, c);
      ArrayDetermined(key, bs[1..], cs[1..], r, s);
    }
  }

  /**
    Printing loses nothing: documents that print as the same text are the same, whatever the settings of the encoder.
  */
  lemma SameTextSameDocument(f: Format, g: Format, b: Block, c: Block)
    requires BlankIndent(f) && BlankIndent(g) && EncodableBlock(b) && EncodableBlock(c) && Proper(b) && Proper(c)
    requires PrintBlock(f, b) == PrintBlock(g, c)
    ensures StripBlock(b) == StripBlock(c)
  {
    hide PrintBlock, EncodableBlock, Proper, BlockExpressions, StripBlock, ParseDocument;
    DocumentRoundTrip(f, b);
    DocumentRoundTrip(g, c);
    BlockDetermined([], b, c, [], []);
  }
}
