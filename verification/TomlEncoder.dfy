/**
  The encoder of utoml/marshaler.go, appending to a buffer in loops, proved to append what the
  printer functions say.
*/
module TomlEncoder {
  import opened TomlText
  import opened TomlStrings
  import opened TomlPrinter
  import opened TomlTables

  lemma EscapeMore(multiline: bool, v: Text, i: nat)
    requires i < |v|
    ensures Escape(multiline, v[..i + 1]) == Escape(multiline, v[..i]) + EscapeByte(multiline, v[i])
  {
    hide EscapeByte;
    assert v[..i + 1] == v[..i] + [v[i]];
    EscapeAppend(multiline, v[..i], v[i]);
  }

  lemma {:induction false} EscapeAppend(multiline: bool, a: Text, c: char)
    ensures Escape(multiline, a + [c]) == Escape(multiline, a) + EscapeByte(multiline, c)
  {
    hide EscapeByte;
    if a == [] {
      assert [c][1..] == [];
    } else {
      assert (a + [c])[1..] == a[1..] + [c];
      EscapeAppend(multiline, a[1..], c);
    }
  }

  /** The body of the loop of `encodeQuotedString`. */
  method AppendEscaped(multiline: bool, b: Text, c: char) returns (r: Text)
    ensures r == b + EscapeByte(multiline, c)
  {
    match c
    case '\\' => r := b + "\\\\";
    case '"' => r := b + "\\\"";
    case '\U{8}' => r := b + "\\b";
    case '\U{c}' => r := b + "\\f";
    case '\n' => r := b + if multiline then "\n" else "\\n";
    case '\r' => r := b + "\\r";
    case '\t' => r := b + "\\t";
    case _ =>
      if c <= '\U{8}' || '\n' <= c <= '\U{1f}' || c == '\U{7f}' {
        r := b + "\\u00";
        r := r + [HexDigit(c as int / 16)];
        r := r + [HexDigit(c as int % 16)];
      } else {
        r := b + [c];
      }
  }

  /** `encodeQuotedString` */
  method EncodeQuotedString(multiline: bool, b: Text, v: Text) returns (r: Text)
    ensures r == b + Quoted(multiline, v)
  {
    hide Escape, EscapeByte;
    var quote := if multiline then "\"\"\"" else "\"";
    r := b + quote;
    if multiline { r := r + "\n"; }
    ghost var start := r;
    NothingToEscape(multiline, v);
    for i := 0 to |v|
      invariant r == start + Escape(multiline, v[..i])
    {
      EscapeMore(multiline, v, i);
      r := AppendEscaped(multiline, r, v[i]);
    }
    assert v[..|v|] == v;
    r := r + quote;
  }

  lemma NothingToEscape(multiline: bool, v: Text)
    ensures Escape(multiline, v[..0]) == []
  {
  }

  /** `encodeKey` */
  method EncodeKey(b: Text, k: Text) returns (r: Text)
    ensures r == b + PrintKey(k)
  {
    hide Quoted;
    if k == [] { return b + "''"; }
    for i := 0 to |k|
      invariant forall j :: 0 <= j < i ==> IsKeyChar(k[j])
    {
      if !IsKeyChar(k[i]) {
        r := EncodeQuotedString(false, b, k);
        return;
      }
    }
    return b + k;
  }

  method AppendIndent(f: Format, level: nat, b: Text) returns (r: Text)
    ensures r == b + Indent(f, level)
  {
    r := b;
    for i := 0 to level
      invariant r == b + Indent(f, i)
    {
      r := r + f.indentSymbol;
    }
  }

  /** `encode` inside a key-value pair. */
  method Encode(f: Format, b: Text, v: Value, multiline: bool, indent: nat) returns (r: Text)
    ensures r == b + Print(f, v, multiline, indent)
    decreases Size(v), 1
  {
    hide Quoted, Decimal, PrintElements, PrintEntries;
    match v
    case Str(s) => r := EncodeQuotedString(multiline, b, s);
    case Int(i) => r := b + Decimal(i);
    case Boolean(t) => r := b + if t then "true" else "false";
    case List(vs) => r := EncodeArray(f, b, vs, multiline, indent);
    case Table(es) => r := EncodeInlineTable(f, b, es, indent);
  }

  /** `encodeSliceAsArray`, and the empty slice. */
  method EncodeArray(f: Format, b: Text, vs: seq<Value>, multiline: bool, indent: nat) returns (r: Text)
    ensures r == b + Print(f, List(vs), multiline, indent)
    decreases SizeAll(vs)
  {
    hide Print, PrintElements, Indent, OneElement;
    ListText(f, vs, multiline, indent);
    if vs == [] { return b + "[]"; }
    var multi := multiline || f.arraysMultiline;
    r := b + (if multi then "[\n" else "[ ");
    ghost var start := r;
    var first := true;
    assert vs[0..] == vs;
    for i := 0 to |vs|
      invariant first == (i == 0)
      invariant start + PrintElements(f, vs, multi, indent, true) == r + PrintElements(f, vs[i..], multi, indent, first)
    {
      Element(f, vs[i..], multi, indent, first);
      assert vs[i..][1..] == vs[i + 1..];
      SizeOfElement(vs, i);
      r := EncodeElement(f, r, vs[i], multi, indent, first);
      first := false;
    }
    NoElements(f, vs[|vs|..], multi, indent, first);
    r := CloseArray(f, r, multi, indent);
  }

  /** An element with what separates it from the one before. */
  function OneElement(f: Format, v: Value, multi: bool, indent: nat, first: bool): Text {
    (if first then "" else if multi then ",\n" else ", ")
    + (if multi then Indent(f, indent + 1) else "")
    + Print(f, v, false, if multi then indent + 1 else indent)
  }

  /** The body of the loop of `encodeSliceAsArray`. */
  method EncodeElement(f: Format, b: Text, v: Value, multi: bool, indent: nat, first: bool) returns (r: Text)
    ensures r == b + OneElement(f, v, multi, indent, first)
    decreases Size(v), 2
  {
    hide Print, Indent;
    var separator := if multi then ",\n" else ", ";
    var level := if multi then indent + 1 else indent;
    r := b;
    if !first { r := r + separator; }
    if multi { r := AppendIndent(f, level, r); }
    r := Encode(f, r, v, false, level);
  }

  method CloseArray(f: Format, b: Text, multi: bool, indent: nat) returns (r: Text)
    ensures r == b + ((if multi then "\n" + Indent(f, indent) else " ") + "]")
  {
    r := b;
    if multi {
      r := r + "\n";
      r := AppendIndent(f, indent, r);
    } else {
      r := r + " ";
    }
    r := r + "]";
  }

  lemma ListText(f: Format, vs: seq<Value>, multiline: bool, indent: nat)
    ensures Print(f, List(vs), multiline, indent) ==
      if vs == [] then "[]"
      else
        var multi := multiline || f.arraysMultiline;
        (if multi then "[\n" else "[ ") + PrintElements(f, vs, multi, indent, true)
  {
  }

  lemma Element(f: Format, vs: seq<Value>, multi: bool, indent: nat, first: bool)
    requires vs != []
    ensures PrintElements(f, vs, multi, indent, first)
         == OneElement(f, vs[0], multi, indent, first) + PrintElements(f, vs[1..], multi, indent, false)
  {
    hide Print, Indent;
  }

  lemma NoElements(f: Format, vs: seq<Value>, multi: bool, indent: nat, first: bool)
    requires vs == []
    ensures PrintElements(f, vs, multi, indent, first) == (if multi then "\n" + Indent(f, indent) else " ") + "]"
  {
  }

  lemma {:induction false} SizeOfElement(vs: seq<Value>, i: nat)
    requires i < |vs|
    ensures Size(vs[i]) < SizeAll(vs)
  {
    if i > 0 { SizeOfElement(vs[1..], i - 1); }
  }

  lemma {:induction false} SizeOfEntry(es: seq<Entry>, i: nat)
    requires i < |es|
    ensures Size(es[i].value) < SizeEntries(es)
  {
    if i > 0 { SizeOfEntry(es[1..], i - 1); }
  }

  /** `encodeKv` */
  method EncodePair(f: Format, b: Text, e: Entry, indent: nat) returns (r: Text)
    ensures r == b + PrintPair(f, e, indent)
    decreases Size(e.value), 2
  {
    hide Print, PrintKey;
    r := EncodeKey(b, e.key);
    r := r + " = ";
    r := Encode(f, r, e.value, e.multiline, indent);
  }

  /** `encodeTableInline` */
  method EncodeInlineTable(f: Format, b: Text, es: seq<Entry>, indent: nat) returns (r: Text)
    ensures r == b + Print(f, Table(es), false, indent)
    decreases SizeEntries(es)
  {
    hide PrintPair, PrintEntries;
    r := b + "{ ";
    ghost var start := r;
    var first := true;
    assert es[0..] == es;
    for i := 0 to |es|
      invariant first == (i == 0)
      invariant start + PrintEntries(f, es, indent, true) == r + PrintEntries(f, es[i..], indent, first)
    {
      NextEntry(f, es[i..], indent, first);
      if first { first := false; } else { r := r + ", "; }
      SizeOfEntry(es, i);
      r := EncodePair(f, r, es[i], indent);
      assert es[i..][1..] == es[i + 1..];
    }
    NoEntries(f, es[|es|..], indent, first);
    r := r + " }";
  }

  lemma NextEntry(f: Format, es: seq<Entry>, indent: nat, first: bool)
    requires es != []
    ensures PrintEntries(f, es, indent, first) ==
      (if first then "" else ", ") + PrintPair(f, es[0], indent) + PrintEntries(f, es[1..], indent, false)
  {
    hide PrintPair;
  }

  lemma NoEntries(f: Format, es: seq<Entry>, indent: nat, first: bool)
    requires es == []
    ensures PrintEntries(f, es, indent, first) == " }"
  {
  }

  // ---------- tables ----------

  /** The parts of a key from some one on, each behind a dot. */
  function Dotted(ks: Key): Text {
    if ks == [] then [] else "." + PrintKeys(ks)
  }

  lemma KeysStep(ks: Key)
    requires ks != []
    ensures PrintKeys(ks) == PrintKey(ks[0]) + Dotted(ks[1..])
  {
    hide PrintKey;
  }

  /** The key of a header. */
  method EncodeDottedKey(b: Text, key: Key) returns (r: Text)
    requires key != []
    ensures r == b + PrintKeys(key)
  {
    hide PrintKey, PrintKeys, Dotted;
    r := EncodeKey(b, key[0]);
    KeysStep(key);
    Nested(b, PrintKey(key[0]), Dotted(key[1..]), []);
    for i := 1 to |key|
      invariant b + PrintKeys(key) == r + Dotted(key[i..])
    {
      DottedStep(key, i);
      Nested(r, ".", PrintKey(key[i]), Dotted(key[i + 1..]));
      r := r + ".";
      r := EncodeKey(r, key[i]);
    }
    NothingDotted(key[|key|..]);
  }

  lemma DottedStep(key: Key, i: nat)
    requires i < |key|
    ensures Dotted(key[i..]) == "." + (PrintKey(key[i]) + Dotted(key[i + 1..]))
  {
    hide PrintKey, PrintKeys;
    KeysStep(key[i..]);
    assert key[i..][1..] == key[i + 1..];
  }

  lemma NothingDotted(ks: Key)
    ensures ks == [] ==> Dotted(ks) == []
  {
  }

  /** `encodeTableHeader` */
  method EncodeTableHeader(f: Format, b: Text, key: Key, indent: nat) returns (r: Text)
    ensures r == if key == [] then b else b + RowText(f, HeaderRow(indent, key, false)) + "\n"
  {
    hide PrintKeys, Indent;
    if key == [] { return b; }
    r := AppendIndent(f, indent, b);
    r := EncodeDottedKey(r + "[", key);
    r := r + "]" + "\n";
  }

  lemma {:induction false} RowsTextConcat(f: Format, a: seq<Row>, b: seq<Row>)
    ensures RowsText(f, a + b) == RowsText(f, a) + RowsText(f, b)
  {
    hide RowText;
    if a == [] {
      assert a + b == b;
    } else {
      assert (a + b)[1..] == a[1..] + b;
      RowsTextConcat(f, a[1..], b);
    }
  }

  lemma RowsTextOne(f: Format, r: Row)
    ensures RowsText(f, [r]) == RowText(f, r) + "\n"
  {
    hide RowText;
    assert [r][1..] == [];
    assert RowText(f, r) + "\n" + [] == RowText(f, r) + "\n";
  }

  lemma RowsTextNone(f: Format)
    ensures RowsText(f, []) == []
  {
  }

  lemma {:induction false} PairRowsStep(f: Format, es: seq<Entry>, level: nat)
    requires es != []
    ensures RowsText(f, PairRows(es, level)) == Indent(f, level) + PrintPair(f, es[0], level) + "\n"
        + RowsText(f, PairRows(es[1..], level))
  {
    hide Indent, PrintPair;
    var row := PairRow(level, es[0]);
    assert PairRows(es, level) == [row] + PairRows(es[1..], level);
    RowsTextConcat(f, [row], PairRows(es[1..], level));
    RowsTextOne(f, row);
  }

  /** The loop over the pairs of a table. */
  method EncodePairs(f: Format, b: Text, es: seq<Entry>, level: nat) returns (r: Text)
    ensures r == b + RowsText(f, PairRows(es, level))
  {
    hide RowsText, PrintPair, Indent;
    r := b;
    assert es[0..] == es;
    for i := 0 to |es|
      invariant b + RowsText(f, PairRows(es, level)) == r + RowsText(f, PairRows(es[i..], level))
    {
      PairRowsStep(f, es[i..], level);
      assert es[i..][1..] == es[i + 1..];
      r := AppendIndent(f, level, r);
      r := EncodePair(f, r, es[i], level);
      r := r + "\n";
    }
    assert es[|es|..] == [];
    RowsTextNone(f);
  }

  lemma {:induction false} SubRowsStep(f: Format, key: Key, ts: seq<Sub>, level: nat, first: bool)
    requires ts != []
    ensures RowsText(f, SubRows(f, key, ts, level, first))
         == (if first then [] else "\n") + RowsText(f, OneSubRows(f, key, ts[0], level))
             + RowsText(f, SubRows(f, key, ts[1..], level, false))
  {
    hide RowsText, OneSubRows;
    var gap := if first then [] else [Blank];
    var one, more := OneSubRows(f, key, ts[0], level), SubRows(f, key, ts[1..], level, false);
    RowsTextConcat(f, gap, one + more);
    RowsTextConcat(f, one, more);
    RowsTextOne(f, Blank);
    RowsTextNone(f);
    assert RowText(f, Blank) + "\n" == "\n";
  }

  lemma {:induction false} BlockText(f: Format, key: Key, b: Block, indent: nat, skipHeader: bool)
    ensures var header := !skipHeader && key != [];
      var level := if header && f.indentTables then indent + 1 else indent;
      RowsText(f, BlockRows(f, key, b, indent, skipHeader))
      == (if header then RowText(f, HeaderRow(indent, key, false)) + "\n" else [])
         + RowsText(f, PairRows(b.kvs, level)) + RowsText(f, SubRows(f, key, b.tables, level, b.kvs == []))
  {
    hide RowsText, PairRows, SubRows, RowText;
    var header := !skipHeader && key != [];
    var level := if header && f.indentTables then indent + 1 else indent;
    var pairs, subs := PairRows(b.kvs, level), SubRows(f, key, b.tables, level, b.kvs == []);
    var h := if header then [HeaderRow(indent, key, false)] else [];
    RowsTextConcat(f, h, pairs + subs);
    RowsTextConcat(f, pairs, subs);
    RowsTextOne(f, HeaderRow(indent, key, false));
    RowsTextNone(f);
  }

  /** `encodeTable` */
  method EncodeTable(f: Format, b: Text, key: Key, block: Block, indent: nat, skipHeader: bool) returns (r: Text)
    ensures r == b + RowsText(f, BlockRows(f, key, block, indent, skipHeader))
    decreases block
  {
    hide RowsText, BlockRows, SubRows, PairRows, RowText;
    BlockText(f, key, block, indent, skipHeader);
    r := b;
    var level := indent;
    if !skipHeader {
      r := EncodeTableHeader(f, r, key, indent);
      if f.indentTables && |key| > 0 { level := level + 1; }
    }
    ghost var header := if !skipHeader && key != [] then RowText(f, HeaderRow(indent, key, false)) + "\n" else [];
    assert r == b + header;
    r := EncodePairs(f, r, block.kvs, level);
    Joined(b, header, RowsText(f, PairRows(block.kvs, level)),
        RowsText(f, SubRows(f, key, block.tables, level, block.kvs == [])));
    r := EncodeSubs(f, r, key, block.tables, level, |block.kvs| > 0);
  }

  /** The loop over the subtables of a table. */
  method EncodeSubs(f: Format, b: Text, key: Key, ts: seq<Sub>, level: nat, hasNonEmptyKV: bool) returns (r: Text)
    ensures r == b + RowsText(f, SubRows(f, key, ts, level, !hasNonEmptyKV))
    decreases ts
  {
    hide RowsText, SubRows, OneSubRows;
    r := b;
    var first := true;
    assert ts[0..] == ts;
    for i := 0 to |ts|
      invariant first == (i == 0)
      invariant b + RowsText(f, SubRows(f, key, ts, level, !hasNonEmptyKV))
             == r + RowsText(f, SubRows(f, key, ts[i..], level, first && !hasNonEmptyKV))
    {
      SubRowsStep(f, key, ts[i..], level, first && !hasNonEmptyKV);
      assert ts[i..][1..] == ts[i + 1..];
      if first {
        first := false;
        if hasNonEmptyKV { r := r + "\n"; }
      } else {
        r := r + "\n";
      }
      r := EncodeSub(f, r, key, ts[i], level);
    }
    assert ts[|ts|..] == [];
    NoSubRows(f, key, level);
  }

  lemma Joined(a: Text, b: Text, c: Text, d: Text)
    ensures a + (b + c + d) == a + b + c + d
  {
  }

  lemma NoSubRows(f: Format, key: Key, level: nat)
    ensures forall first :: RowsText(f, SubRows(f, key, [], level, first)) == []
  {
  }

  /** `encode` of a value in table position. */
  method EncodeSub(f: Format, b: Text, key: Key, t: Sub, level: nat) returns (r: Text)
    ensures r == b + RowsText(f, OneSubRows(f, key, t, level))
    decreases t
  {
    hide RowsText, BlockRows, ArrayRows;
    match t
    case TableAt(k, block) => r := EncodeTable(f, b, key + [k], block, level, false);
    case ArrayAt(k, blocks) => r := EncodeArrayTable(f, b, key + [k], blocks, level);
  }

  lemma {:induction false} ArrayRowsStep(f: Format, key: Key, bs: seq<Block>, indent: nat, first: bool)
    requires bs != []
    ensures var at, level := if f.indentTables then indent else 0, if f.indentTables then indent + 1 else indent;
      RowsText(f, ArrayRows(f, key, bs, indent, first))
      == (if first then [] else "\n") + RowText(f, HeaderRow(at, key, true)) + "\n"
         + RowsText(f, BlockRows(f, key, bs[0], level, true)) + RowsText(f, ArrayRows(f, key, bs[1..], indent, false))
  {
    hide RowsText, BlockRows, ArrayRows, RowText;
    var gap := if first then [] else [Blank];
    var h := HeaderRow(if f.indentTables then indent else 0, key, true);
    var own := BlockRows(f, key, bs[0], if f.indentTables then indent + 1 else indent, true);
    var more := ArrayRows(f, key, bs[1..], indent, false);
    FirstArrayRows(f, key, bs, indent, first);
    RowsTextConcat(f, gap, [h] + (own + more));
    RowsTextConcat(f, [h], own + more);
    RowsTextConcat(f, own, more);
    RowsTextOne(f, h);
    RowsTextNone(f);
    BlankText(f);
    Nested(RowsText(f, gap), RowText(f, h) + "\n", RowsText(f, own), RowsText(f, more));
    Nested(RowsText(f, gap), RowText(f, h), "\n", []);
  }

  lemma BlankText(f: Format)
    ensures RowsText(f, [Blank]) == "\n"
  {
    RowsTextOne(f, Blank);
    assert RowText(f, Blank) + "\n" == "\n";
  }

  lemma Nested(a: Text, b: Text, c: Text, d: Text)
    ensures a + (b + (c + d)) == a + b + c + d && a + (b + c) == a + b + c
  {
  }

  /** `encodeSliceAsArrayTable` */
  method EncodeArrayTable(f: Format, b: Text, key: Key, blocks: seq<Block>, indent: nat) returns (r: Text)
    requires key != []
    ensures r == b + RowsText(f, ArrayRows(f, key, blocks, indent, true))
    decreases blocks
  {
    hide RowsText, BlockRows, ArrayRows, Indent, PrintKeys;
    var scratch := [];
    if f.indentTables { scratch := AppendIndent(f, indent, scratch); }
    scratch := EncodeDottedKey(scratch + "[[", key);
    scratch := scratch + "]]";
    ghost var at := if f.indentTables then indent else 0;
    assert Indent(f, 0) == [] by { NoIndent(f); }
    assert scratch == RowText(f, HeaderRow(at, key, true));
    var level := if f.indentTables then indent + 1 else indent;
    r := b;
    assert blocks[0..] == blocks;
    for i := 0 to |blocks|
      invariant b + RowsText(f, ArrayRows(f, key, blocks, indent, true)) == r
          + RowsText(f, ArrayRows(f, key, blocks[i..], indent, i == 0))
    {
      ArrayRowsStep(f, key, blocks[i..], indent, i == 0);
      assert blocks[i..][1..] == blocks[i + 1..];
      if i != 0 { r := r + "\n"; }
      r := r + scratch;
      r := r + "\n";
      r := EncodeTable(f, r, key, blocks[i], level, true);
    }
    assert blocks[|blocks|..] == [];
    NoArrayRows(f, key, indent);
  }

  lemma NoIndent(f: Format)
    ensures Indent(f, 0) == []
  {
  }

  lemma NoArrayRows(f: Format, key: Key, indent: nat)
    ensures forall first :: RowsText(f, ArrayRows(f, key, [], indent, first)) == []
  {
  }

  /** A whole document: `Encode` of what becomes a table. */
  method EncodeDocument(f: Format, block: Block) returns (r: Text)
    ensures r == PrintBlock(f, block)
  {
    hide RowsText, BlockRows;
    r := EncodeTable(f, [], [], block, 0, false);
  }
}
