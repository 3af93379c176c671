/**
  What the parser reads beyond what the encoder prints: values and documents in any layout that TOML 1.0.0 allows, with
  blanks, newlines, comments and trailing commas wherever they may stand.
*/
module TomlLayouts {
  import opened TomlText
  import opened TomlStrings
  import opened TomlGrammar
  import opened TomlDecoder
  import opened TomlRoundTrip

  // ---------- blanks and comments ----------

  predicate Ws(w: Text) {
    forall i :: 0 <= i < |w| ==> IsWs(w[i])
  }

  predicate IsNewline(t: Text) {
    t == "\n" || t == "\r\n"
  }

  /** What may stand behind the '#' of a comment. */
  predicate Remark(s: Text) {
    TomlValid(s) && forall i :: 0 <= i < |s| ==> s[i] != '\n' && s[i] != '\r'
  }

  predicate AtLineEnd(x: Text) {
    x == [] || x[0] == '\n' || Starts(x, "\r\n")
  }

  /** A comment ends where its line ends. */
  lemma {:induction false} RemarkEnds(s: Text, x: Text)
    requires Remark(s) && AtLineEnd(x)
    ensures CommentEnd(s + x) == Ok(|s| + if Starts(x, "\r\n") then 1 else 0)
    decreases |s|
  {
    if s == [] {
      assert s + x == x;
      if Starts(x, "\r\n") { assert x[0] == "\r\n"[0] && x[1] == "\r\n"[1]; }
    } else {
      var n := ValidNext(s);
      NextStays(s, x);
      assert (s + x)[n..] == s[n..] + x;
      RemarkEnds(s[n..], x);
    }
  }

  /** What a comment leaves: the line end, of which only the newline counts. */
  function Left(x: Text): Text {
    if Starts(x, "\r\n") then x[1..] else x
  }

  lemma CommentSkipped(s: Text, x: Text)
    requires Remark(s) && AtLineEnd(x)
    ensures SkipComment("#" + s + x) == Ok(Left(x))
  {
    hide CommentEnd;
    RemarkEnds(s, x);
    var b := "#" + s + x;
    assert b[1..] == s + x;
    assert b[1 + |s|..] == x;
  }

  lemma {:induction false} WsAdds(w: Text, x: Text)
    requires Ws(w)
    ensures SkipWs(w + x) == SkipWs(x)
  {
    if w == [] {
      assert w + x == x;
    } else {
      WsAdds(w[1..], x);
      assert (w + x)[1..] == w[1..] + x;
      var n := WsEnd(w[1..] + x);
      assert (w + x)[1 + n..] == (w[1..] + x)[n..];
    }
  }

  lemma SkipBlanks(w: Text, x: Text)
    requires Ws(w)
    ensures SkipLines(w + x) == SkipLines(x)
  {
    hide SkipWs, SkipComment, SkipNewlineOrErr;
    WsAdds(w, x);
  }

  lemma NoBlankFirst(x: Text)
    requires x == [] || !IsWs(x[0])
    ensures SkipWs(x) == x
  {
    WsEndRun("", x);
    assert "" + x == x;
  }

  lemma SkipBreak(nl: Text, x: Text)
    requires IsNewline(nl)
    ensures SkipLines(nl + x) == SkipLines(x)
  {
    hide SkipComment, SkipWs;
    NoBlankFirst(nl + x);
    assert (nl + x)[|nl|..] == x;
  }

  lemma SkipRemark(s: Text, nl: Text, x: Text)
    requires Remark(s) && IsNewline(nl)
    ensures SkipLines("#" + s + nl + x) == SkipLines(x)
  {
    hide SkipComment, SkipWs, Remark;
    var b := "#" + s + nl + x;
    NoBlankFirst(b);
    assert b == "#" + s + (nl + x);
    LineEnds(nl, x);
    CommentSkipped(s, nl + x);
    assert Left(nl + x) == "\n" + x;
    assert ("\n" + x)[1..] == x;
  }

  lemma LineEnds(nl: Text, x: Text)
    requires IsNewline(nl)
    ensures AtLineEnd(nl + x) && Left(nl + x) == "\n" + x
  {
    if nl == "\r\n" {
      assert (nl + x)[..2] == "\r\n" && (nl + x)[1..] == "\n" + x;
    }
  }

  /** What may stand between the elements of an array. */
  datatype Gap = Blank(w: Text) | Break(nl: Text) | Note(s: Text, nl: Text)

  predicate GapOk(g: Gap) {
    match g
    case Blank(w) => Ws(w)
    case Break(nl) => IsNewline(nl)
    case Note(s, nl) => Remark(s) && IsNewline(nl)
  }

  function GapText(g: Gap): Text {
    match g
    case Blank(w) => w
    case Break(nl) => nl
    case Note(s, nl) => "#" + s + nl
  }

  predicate FillerOk(f: seq<Gap>) {
    forall i :: 0 <= i < |f| ==> GapOk(f[i])
  }

  function FillerText(f: seq<Gap>): Text {
    if f == [] then [] else GapText(f[0]) + FillerText(f[1..])
  }

  lemma Regroup(a: Text, b: Text, c: Text)
    ensures a + b + c == a + (b + c)
  {
  }

  lemma {:induction false} FillerSkipped(f: seq<Gap>, x: Text)
    requires FillerOk(f)
    ensures SkipLines(FillerText(f) + x) == SkipLines(x)
  {
    hide SkipLines, GapText, Remark;
    if f == [] {
      assert FillerText(f) + x == x;
    } else {
      var y := FillerText(f[1..]) + x;
      Regroup(GapText(f[0]), FillerText(f[1..]), x);
      GapSkipped(f[0], y);
      FillerSkipped(f[1..], x);
    }
  }

  lemma GapSkipped(g: Gap, y: Text)
    requires GapOk(g)
    ensures SkipLines(GapText(g) + y) == SkipLines(y)
  {
    hide SkipLines, Remark;
    match g
    case Blank(w) => SkipBlanks(w, y);
    case Break(nl) => SkipBreak(nl, y);
    case Note(s, nl) => SkipRemark(s, nl, y);
  }

  /** Text that may follow a value: blanks, and then a line end, a comment, or the rest of an array or a table. */
  predicate Follows(rest: Text) {
    var r := SkipWs(rest);
    r == [] || r[0] == '\n' || r[0] == '\r' || r[0] == '#' || r[0] == ',' || r[0] == ']' || r[0] == '}'
  }

  lemma {:induction false} FillerFollows(f: seq<Gap>, x: Text)
    requires FillerOk(f) && Follows(x)
    ensures Follows(FillerText(f) + x)
  {
    hide SkipWs, Remark;
    if f == [] {
      assert FillerText(f) + x == x;
    } else {
      FillerFollows(f[1..], x);
      var y := FillerText(f[1..]) + x;
      Regroup(GapText(f[0]), FillerText(f[1..]), x);
      match f[0]
      case Blank(w) => WsAdds(w, y);
      case Break(nl) => NoBlankFirst(nl + y);
      case Note(s, nl) => NoBlankFirst("#" + s + nl + y);
    }
  }

  lemma FollowsAt(x: Text)
    requires x != [] && x[0] in {',', ']', '}', '\n', '\r', '#'}
    ensures Follows(x) && (x[0] in {',', ']', '}'} ==> Solid(x) && SkipLines(x) == Ok(x))
  {
    hide SkipLines, SkipWs;
    NoBlankFirst(x);
    if x[0] in {',', ']', '}'} { SkipNothing(x); }
  }

  // ---------- keys ----------

  predicate AfterPart(rest: Text) {
    rest == [] || IsWs(rest[0]) || rest[0] == '.' || rest[0] == '=' || rest[0] == ']'
  }

  /** A part of a key: what it is written as and the name it is read as. */
  ghost predicate PartReads(text: Text, name: Text) {
    && text != [] && (text[0] == '\'' || text[0] == '"' || IsKeyChar(text[0]))
    && forall rest :: AfterPart(rest) ==> ParseSimpleKey(text + rest) == Ok((name, rest))
  }

  /** A further part, with its dot and the blanks around it. */
  datatype Part = Part(before: Text, after: Text, text: Text, name: Text)

  datatype Key = Key(text: Text, name: Text, more: seq<Part>)

  ghost predicate PartsOk(ps: seq<Part>) {
    forall i :: 0 <= i < |ps| ==> Ws(ps[i].before) && Ws(ps[i].after) && PartReads(ps[i].text, ps[i].name)
  }

  ghost predicate KeyOk(k: Key) {
    PartReads(k.text, k.name) && PartsOk(k.more)
  }

  function PartsText(ps: seq<Part>): Text {
    if ps == [] then [] else ps[0].before + "." + ps[0].after + ps[0].text + PartsText(ps[1..])
  }

  function PartNames(ps: seq<Part>): seq<Text> {
    if ps == [] then [] else [ps[0].name] + PartNames(ps[1..])
  }

  function KeyText(k: Key): Text {
    k.text + PartsText(k.more)
  }

  function KeyNames(k: Key): seq<Text> {
    [k.name] + PartNames(k.more)
  }

  lemma PartFollows(ps: seq<Part>, w: Text, x: Text)
    requires PartsOk(ps) && Ws(w) && x != [] && (x[0] == '=' || x[0] == ']')
    ensures AfterPart(PartsText(ps) + (w + x))
  {
    if ps != [] {
      var t := PartsText(ps);
      assert ps[0].before == [] ==> t[0] == '.';
      assert ps[0].before != [] ==> t[0] == ps[0].before[0] && IsWs(t[0]);
    } else {
      assert PartsText(ps) + (w + x) == w + x;
      assert w != [] ==> IsWs(w[0]);
    }
  }

  lemma {:induction false} PartsRead(ps: seq<Part>, w: Text, x: Text)
    requires PartsOk(ps) && Ws(w) && x != [] && (x[0] == '=' || x[0] == ']')
    ensures ParseKeyRest(PartsText(ps) + (w + x)) == Ok((PartNames(ps), x))
    decreases |ps|
  {
    hide ParseSimpleKey, SkipWs;
    var b := PartsText(ps) + (w + x);
    if ps == [] {
      assert b == w + x;
      WsEndRun(w, x);
    } else {
      var p := ps[0];
      var y := PartsText(ps[1..]) + (w + x);
      assert b == p.before + ("." + (p.after + (p.text + y)));
      var d := "." + (p.after + (p.text + y));
      WsEndRun(p.before, d);
      assert d[1..] == p.after + (p.text + y);
      assert !IsWs((p.text + y)[0]);
      WsEndRun(p.after, p.text + y);
      PartFollows(ps[1..], w, x);
      assert ParseSimpleKey(p.text + y) == Ok((p.name, y));
      PartsRead(ps[1..], w, x);
    }
  }

  /** A key of any parts, with blanks around its dots and behind it. */
  lemma KeyReads(k: Key, w: Text, x: Text)
    requires KeyOk(k) && Ws(w) && x != [] && (x[0] == '=' || x[0] == ']')
    ensures ParseKey(KeyText(k) + (w + x)) == Ok((KeyNames(k), x))
  {
    hide ParseSimpleKey, ParseKeyRest, PartsText;
    var y := PartsText(k.more) + (w + x);
    Regroup(k.text, PartsText(k.more), w + x);
    PartFollows(k.more, w, x);
    PartsRead(k.more, w, x);
    assert ParseSimpleKey(k.text + y) == Ok((k.name, y));
  }

  // ---------- values ----------

  /** A value in some layout. */
  datatype Laid =
    | Token(text: Text, kind: Kind, data: Text)
    | Brackets(items: seq<Item>, comma: bool, last: seq<Gap>)
    | Braces(fields: seq<Field>, blank: Text)

  datatype Item = Item(before: seq<Gap>, value: Laid, after: seq<Gap>)

  datatype Field = Field(before: Text, key: Key, w1: Text, w2: Text, value: Laid, after: Text)

  /** A token is read as its leaf, whatever may follow a value. */
  ghost predicate TokenReads(text: Text, kind: Kind, data: Text) {
    && Solid(text) && text[0] !in {']', ',', '}'}
    && forall rest :: Follows(rest) ==> ParseVal(text + rest) == Ok((Leaf(kind, data), rest))
  }

  ghost predicate LaidOk(v: Laid)
    decreases v
  {
    match v
    case Token(text, kind, data) => TokenReads(text, kind, data)
    case Brackets(items, comma, last) => ItemsOk(items) && FillerOk(last) && (comma ==> items != [])
    case Braces(fields, blank) => FieldsOk(fields) && Ws(blank)
  }

  ghost predicate ItemsOk(items: seq<Item>)
    decreases items
  {
    items == [] ||
      (FillerOk(items[0].before) && LaidOk(items[0].value) && FillerOk(items[0].after) && ItemsOk(items[1..]))
  }

  ghost predicate FieldsOk(fields: seq<Field>)
    decreases fields
  {
    fields == [] || (FieldOk(fields[0]) && FieldsOk(fields[1..]))
  }

  ghost predicate FieldOk(f: Field)
    decreases f
  {
    Ws(f.before) && KeyOk(f.key) && Ws(f.w1) && Ws(f.w2) && LaidOk(f.value) && Ws(f.after)
  }

  function LaidText(v: Laid): Text
    decreases v
  {
    match v
    case Token(text, _, _) => text
    case Brackets(items, comma, last) =>
      "[" + (if items == [] then FillerText(last) + "]" else ItemsText(items, comma, last))
    case Braces(fields, blank) => "{" + (if fields == [] then blank + "}" else FieldsText(fields))
  }

  /** The items up to the closing bracket. */
  function ItemsText(items: seq<Item>, comma: bool, last: seq<Gap>): Text
    requires items != []
    decreases items
  {
    var i := items[0];
    FillerText(i.before) + (LaidText(i.value) + (FillerText(i.after) + ItemsTail(items, comma, last)))
  }

  function ItemsTail(items: seq<Item>, comma: bool, last: seq<Gap>): Text
    requires items != []
    decreases items, 0
  {
    if |items| > 1 then "," + ItemsText(items[1..], comma, last)
    else (if comma then "," else "") + (FillerText(last) + "]")
  }

  function FieldText(f: Field): Text
    decreases f
  {
    KeyText(f.key) + (f.w1 + ("=" + (f.w2 + LaidText(f.value))))
  }

  function FieldsText(fields: seq<Field>): Text
    requires fields != []
    decreases fields
  {
    fields[0].before + (FieldText(fields[0]) + (fields[0].after + FieldsTail(fields)))
  }

  function FieldsTail(fields: seq<Field>): Text
    requires fields != []
    decreases fields, 0
  {
    if |fields| > 1 then "," + FieldsText(fields[1..]) else "}"
  }

  function LaidTree(v: Laid): Tree
    decreases v
  {
    match v
    case Token(_, kind, data) => Leaf(kind, data)
    case Brackets(items, _, _) => Array(ItemTrees(items))
    case Braces(fields, _) => InlineTable(FieldPairs(fields))
  }

  function ItemTrees(items: seq<Item>): seq<Tree>
    decreases items
  {
    if items == [] then [] else [LaidTree(items[0].value)] + ItemTrees(items[1..])
  }

  function FieldPairs(fields: seq<Field>): seq<Pair>
    decreases fields
  {
    if fields == [] then [] else [Pair(KeyNames(fields[0].key), LaidTree(fields[0].value))] + FieldPairs(fields[1..])
  }

  // ---------- every layout is read ----------

  lemma LaidStarts(v: Laid)
    requires LaidOk(v)
    ensures Solid(LaidText(v)) && LaidText(v)[0] !in {']', ',', '}'}
  {
  }

  lemma StartStays(t: Text, x: Text)
    requires Solid(t) && t[0] !in {']', ',', '}'}
    ensures Solid(t + x) && (t + x)[0] !in {']', ',', '}'} && SkipLines(t + x) == Ok(t + x) && !IsWs((t + x)[0])
  {
    hide SkipLines;
    SkipNothing(t + x);
  }

  /** Up to the first element, or to the next one behind a comma. */
  lemma ToValue(f: seq<Gap>, t: Text, x: Text)
    requires FillerOk(f) && Solid(t) && t[0] !in {']', ',', '}'}
    ensures ToElement(FillerText(f) + (t + x), true) == Ok(t + x)
    ensures ToElement("," + (FillerText(f) + (t + x)), false) == Ok(t + x)
  {
    hide SkipLines;
    StartStays(t, x);
    FillerSkipped(f, t + x);
    var b := "," + (FillerText(f) + (t + x));
    FollowsAt(b);
    assert b[1..] == FillerText(f) + (t + x);
  }

  /** Up to the closing bracket, behind a comma or not. */
  lemma ToBracket(f: seq<Gap>, x: Text, first: bool)
    requires FillerOk(f)
    ensures ParseElements(FillerText(f) + ("]" + x), first) == Ok(([], x))
    ensures ParseElements("," + (FillerText(f) + ("]" + x)), false) == Ok(([], x))
    ensures SkipLines(FillerText(f) + ("]" + x)) == Ok("]" + x)
  {
    hide SkipLines, ParseVal;
    FollowsAt("]" + x);
    FillerSkipped(f, "]" + x);
    var b := "," + (FillerText(f) + ("]" + x));
    FollowsAt(b);
    assert b[1..] == FillerText(f) + ("]" + x) && ("]" + x)[1..] == x;
  }

  lemma TailFollows(items: seq<Item>, comma: bool, last: seq<Gap>, rest: Text)
    requires items != [] && FillerOk(items[0].after) && FillerOk(last)
    ensures Follows(FillerText(items[0].after) + (ItemsTail(items, comma, last) + rest))
  {
    hide ItemsText, Follows;
    var t := ItemsTail(items, comma, last) + rest;
    if |items| > 1 || comma {
      FollowsAt(t);
    } else {
      assert t == FillerText(last) + ("]" + rest);
      FollowsAt("]" + rest);
      FillerFollows(last, "]" + rest);
    }
    FillerFollows(items[0].after, t);
  }

  lemma {:induction false} ElementsStep(b: Text, first: bool, x: Text, t: Tree, y: Text, z: Text)
    requires ToElement(b, first) == Ok(x) && x != [] && x[0] != ']'
    requires ParseVal(x) == Ok((t, y)) && SkipLines(y) == Ok(z)
    ensures ParseElements(b, first) ==
      match ParseElements(z, false)
      case Err => Err
      case Ok((ts, rest)) => Ok(([t] + ts, rest))
  {
    hide ToElement, ParseVal, SkipLines;
  }

  /** One item and all behind it. */
  lemma {:induction false} ItemsRead(items: seq<Item>, comma: bool, last: seq<Gap>, b: Text, first: bool, rest: Text)
    requires items != [] && ItemsOk(items) && FillerOk(last)
    requires var tail := FillerText(items[0].after) + (ItemsTail(items, comma, last) + rest);
      ToElement(b, first) == Ok(LaidText(items[0].value) + tail)
    ensures ParseElements(b, first) == Ok((ItemTrees(items), rest))
    decreases items, 0
  {
    hide LaidText, LaidTree, ItemsText, ItemsTail, ToElement, SkipLines, ParseVal, Follows, ParseElements;
    var t := LaidText(items[0].value);
    var after := ItemsTail(items, comma, last) + rest;
    var tail := FillerText(items[0].after) + after;
    LaidStarts(items[0].value);
    StartStays(t, tail);
    TailFollows(items, comma, last, rest);
    LaidReads(items[0].value, tail);
    FillerSkipped(items[0].after, after);
    var z := TailRead(items, comma, last, rest);
    ElementsStep(b, first, t + tail, LaidTree(items[0].value), tail, z);
    assert ItemTrees(items) == [LaidTree(items[0].value)] + ItemTrees(items[1..]);
  }

  /** What stands behind an item. */
  lemma {:induction false} TailRead(items: seq<Item>, comma: bool, last: seq<Gap>, rest: Text) returns (z: Text)
    requires items != [] && ItemsOk(items) && FillerOk(last)
    ensures SkipLines(ItemsTail(items, comma, last) + rest) == Ok(z)
    ensures ParseElements(z, false) == Ok((ItemTrees(items[1..]), rest))
    decreases items[1..], 1
  {
    hide LaidText, ToElement, SkipLines, ParseElements;
    var b := ItemsTail(items, comma, last) + rest;
    if |items| > 1 {
      var more := items[1..];
      assert ItemsOk(more);
      var t := LaidText(more[0].value);
      var x := FillerText(more[0].after) + (ItemsTail(more, comma, last) + rest);
      assert b == "," + (FillerText(more[0].before) + (t + x)) by { TailText(items, comma, last, rest); }
      FollowsAt(b);
      z := b;
      LaidStarts(more[0].value);
      ToValue(more[0].before, t, x);
      ItemsRead(more, comma, last, b, false, rest);
    } else {
      assert ItemTrees(items[1..]) == [];
      ToBracket(last, rest, false);
      if comma {
        assert b == "," + (FillerText(last) + ("]" + rest));
        FollowsAt(b);
        z := b;
      } else {
        assert b == FillerText(last) + ("]" + rest);
        z := "]" + rest;
        ToBracket([], rest, false);
        assert FillerText([]) + ("]" + rest) == "]" + rest;
      }
    }
  }

  lemma Behind(front: Text, a: Text, b: Text, c: Text, d: Text, rest: Text)
    ensures front + (a + (b + (c + d))) + rest == front + (a + (b + (c + (d + rest))))
  {
    Regroup(front, a + (b + (c + d)), rest);
    Regroup(a, b + (c + d), rest);
    Regroup(b, c + d, rest);
    Regroup(c, d, rest);
  }

  lemma TailText(items: seq<Item>, comma: bool, last: seq<Gap>, rest: Text)
    requires |items| > 1
    ensures var more := items[1..];
      ItemsTail(items, comma, last) + rest == "," + (FillerText(more[0].before) + (LaidText(more[0].value) +
          (FillerText(more[0].after) + (ItemsTail(more, comma, last) + rest))))
  {
    hide LaidText, FillerText;
    var more := items[1..];
    var a, b, c, d := FillerText(more[0].before), LaidText(more[0].value), FillerText(more[0].after),
        ItemsTail(more, comma, last);
    assert ItemsTail(items, comma, last) == "," + (a + (b + (c + d)));
    Behind(",", a, b, c, d, rest);
  }

  // ---------- inline tables ----------

  /** A key, an equals sign and a value, with blanks around the sign. */
  lemma {:induction false} FieldReads(f: Field, rest: Text)
    requires FieldOk(f) && Follows(rest)
    ensures ParsePair(FieldText(f) + rest) == Ok((Pair(KeyNames(f.key), LaidTree(f.value)), rest))
    decreases f.value, 4
  {
    hide KeyText, KeyNames, LaidText, LaidTree, ParseKey, ParseVal, SkipWs, KeyOk, Follows;
    var t := LaidText(f.value) + rest;
    var e := "=" + (f.w2 + t);
    assert FieldText(f) + rest == KeyText(f.key) + (f.w1 + e);
    KeyReads(f.key, f.w1, e);
    NoBlankFirst(e);
    assert e[1..] == f.w2 + t;
    LaidStarts(f.value);
    StartStays(LaidText(f.value), rest);
    WsEndRun(f.w2, t);
    LaidReads(f.value, rest);
  }

  lemma FieldStarts(f: Field)
    requires FieldOk(f)
    ensures FieldText(f) != [] && FieldText(f)[0] == f.key.text[0]
    ensures var c := f.key.text[0]; c == '\'' || c == '"' || IsKeyChar(c)
  {
    hide LaidText;
  }

  lemma FieldsFollow(fields: seq<Field>, rest: Text)
    requires fields != [] && Ws(fields[0].after)
    ensures Follows(fields[0].after + (FieldsTail(fields) + rest))
  {
    hide FieldsText, SkipWs;
    var t := FieldsTail(fields) + rest;
    FollowsAt(t);
    WsAdds(fields[0].after, t);
  }

  lemma {:induction false} PairsStep(b: Text, first: bool, x: Text, p: Pair, y: Text)
    requires ToPair(b, first) == Ok((false, x)) && ParsePair(x) == Ok((p, y))
    ensures ParsePairs(b, first) ==
      match ParsePairs(y, false)
      case Err => Err
      case Ok((ps, rest)) => Ok(([p] + ps, rest))
  {
    hide ToPair, ParsePair;
  }

  /** One field and all behind it. */
  lemma {:induction false} FieldsRead(fields: seq<Field>, b: Text, first: bool, rest: Text)
    requires fields != [] && FieldsOk(fields)
    requires ToPair(b, first) == Ok((false, FieldText(fields[0]) + (fields[0].after + (FieldsTail(fields) + rest))))
    ensures ParsePairs(b, first) == Ok((FieldPairs(fields), rest))
    decreases fields, 0
  {
    hide FieldText, FieldsText, FieldsTail, LaidTree, ToPair, ParsePair, ParsePairs, Follows, KeyNames, FieldOk;
    var f := fields[0];
    var y := f.after + (FieldsTail(fields) + rest);
    assert Ws(f.after) by { FieldBlanks(f); }
    FieldsFollow(fields, rest);
    FieldReads(f, y);
    FieldsTailRead(fields, rest);
    PairsStep(b, first, FieldText(f) + y, Pair(KeyNames(f.key), LaidTree(f.value)), y);
    assert FieldPairs(fields) == [Pair(KeyNames(f.key), LaidTree(f.value))] + FieldPairs(fields[1..]);
  }

  lemma FieldBlanks(f: Field)
    requires FieldOk(f)
    ensures Ws(f.before) && Ws(f.after)
  {
  }

  lemma {:induction false} FieldsTailRead(fields: seq<Field>, rest: Text)
    requires fields != [] && FieldsOk(fields)
    ensures ParsePairs(fields[0].after + (FieldsTail(fields) + rest), false) == Ok((FieldPairs(fields[1..]), rest))
    decreases fields[1..], 1
  {
    hide FieldText, ToPair, ParsePair, FieldOk;
    var b := fields[0].after + (FieldsTail(fields) + rest);
    FieldBlanks(fields[0]);
    if |fields| > 1 {
      var more := fields[1..];
      assert FieldsOk(more);
      var x := FieldText(more[0]) + (more[0].after + (FieldsTail(more) + rest));
      assert b == fields[0].after + ("," + (more[0].before + x)) by { FieldsTailText(fields, rest); }
      FieldStarts(more[0]);
      ToField(fields[0].after, more[0], x);
      FieldsRead(more, b, false, rest);
    } else {
      assert FieldPairs(fields[1..]) == [];
      assert FieldsTail(fields) + rest == "}" + rest;
      ToBrace(fields[0].after, rest, false);
    }
  }

  lemma FieldsTailText(fields: seq<Field>, rest: Text)
    requires |fields| > 1
    ensures var more := fields[1..];
      FieldsTail(fields) + rest ==
        "," + (more[0].before + (FieldText(more[0]) + (more[0].after + (FieldsTail(more) + rest))))
  {
    hide FieldText, FieldPairs;
    var more := fields[1..];
    var a, b, c, d := more[0].before, FieldText(more[0]), more[0].after, FieldsTail(more);
    assert FieldsTail(fields) == "," + (a + (b + (c + d)));
    Behind(",", a, b, c, d, rest);
  }

  /** Up to a field: the first one, or the next one behind a comma. */
  lemma ToField(w: Text, f: Field, x: Text)
    requires Ws(w) && FieldOk(f) && x != [] && x[0] == FieldText(f)[0]
    ensures ToPair(f.before + x, true) == Ok((false, x))
    ensures ToPair(w + ("," + (f.before + x)), false) == Ok((false, x))
  {
    hide SkipWs, FieldText;
    FieldStarts(f);
    FieldBlanks(f);
    WsEndRun(f.before, x);
    var c := "," + (f.before + x);
    WsEndRun(w, c);
    assert c[1..] == f.before + x;
  }

  lemma ToBrace(w: Text, rest: Text, first: bool)
    requires Ws(w)
    ensures ParsePairs(w + ("}" + rest), first) == Ok(([], rest))
  {
    hide SkipWs;
    WsEndRun(w, "}" + rest);
    assert ("}" + rest)[1..] == rest;
  }

  // ---------- the theorem ----------

  /** A value is read as its tree in every layout, with exactly the text behind it left. */
  lemma {:induction false} LaidReads(v: Laid, rest: Text)
    requires LaidOk(v) && Follows(rest)
    ensures ParseVal(LaidText(v) + rest) == Ok((LaidTree(v), rest))
    decreases v, 3
  {
    match v
    case Token(text, kind, data) =>
    case Brackets(items, comma, last) => BracketsRead(items, comma, last, rest);
    case Braces(fields, blank) => BracesRead(fields, blank, rest);
  }

  lemma BracketValue(b: Text)
    requires b != []
    ensures b[0] == '[' ==>
      ParseVal(b) == match ParseElements(b[1..], true) case Ok((ts, rest)) => Ok((Array(ts), rest)) case Err => Err
    ensures b[0] == '{' ==>
      ParseVal(b) == match ParsePairs(b[1..], true) case Ok((ps, rest)) => Ok((InlineTable(ps), rest)) case Err => Err
  {
    hide ParseElements, ParsePairs, ParseString, ScanScalar;
  }

  lemma Drop1(front: Text, x: Text)
    requires |front| == 1
    ensures (front + x)[1..] == x
  {
  }

  lemma BracketsText(items: seq<Item>, comma: bool, last: seq<Gap>)
    requires items != []
    ensures LaidText(Brackets(items, comma, last)) ==
      "[" + (FillerText(items[0].before) + (LaidText(items[0].value) + (FillerText(items[0].after) +
          ItemsTail(items, comma, last))))
  {
    hide FillerText, ItemsTail;
    assert ItemsText(items, comma, last) == FillerText(items[0].before) + (LaidText(items[0].value) +
        (FillerText(items[0].after) + ItemsTail(items, comma, last)));
  }

  lemma BracesText(fields: seq<Field>, blank: Text)
    requires fields != []
    ensures LaidText(Braces(fields, blank)) ==
      "{" + (fields[0].before + (FieldText(fields[0]) + (fields[0].after + FieldsTail(fields))))
  {
    hide FieldText, FieldsTail;
    assert FieldsText(fields) == fields[0].before + (FieldText(fields[0]) + (fields[0].after + FieldsTail(fields)));
  }

  lemma {:induction false} BracketsRead(items: seq<Item>, comma: bool, last: seq<Gap>, rest: Text)
    requires ItemsOk(items) && FillerOk(last)
    ensures var v := Brackets(items, comma, last); ParseVal(LaidText(v) + rest) == Ok((LaidTree(v), rest))
    decreases items, 2
  {
    hide ParseVal, ParseElements, ToElement, FillerText;
    var b := LaidText(Brackets(items, comma, last)) + rest;
    BracketValue(b);
    if items == [] {
      assert b[1..] == FillerText(last) + ("]" + rest);
      ToBracket(last, rest, true);
    } else {
      var t := LaidText(items[0].value);
      var x := FillerText(items[0].after) + (ItemsTail(items, comma, last) + rest);
      BracketsText(items, comma, last);
      Behind("[", FillerText(items[0].before), t, FillerText(items[0].after), ItemsTail(items, comma, last), rest);
      Drop1("[", FillerText(items[0].before) + (t + x));
      assert b[1..] == FillerText(items[0].before) + (t + x);
      LaidStarts(items[0].value);
      ToValue(items[0].before, t, x);
      ItemsRead(items, comma, last, b[1..], true, rest);
    }
  }

  lemma {:induction false} BracesRead(fields: seq<Field>, blank: Text, rest: Text)
    requires FieldsOk(fields) && Ws(blank)
    ensures var v := Braces(fields, blank); ParseVal(LaidText(v) + rest) == Ok((LaidTree(v), rest))
    decreases fields, 2
  {
    hide ParseVal, ParsePairs, ToPair, FieldText, FieldOk;
    var b := LaidText(Braces(fields, blank)) + rest;
    BracketValue(b);
    if fields == [] {
      assert b[1..] == blank + ("}" + rest);
      ToBrace(blank, rest, true);
    } else {
      var x := FieldText(fields[0]) + (fields[0].after + (FieldsTail(fields) + rest));
      BracesText(fields, blank);
      Behind("{", fields[0].before, FieldText(fields[0]), fields[0].after, FieldsTail(fields), rest);
      Drop1("{", fields[0].before + x);
      assert b[1..] == fields[0].before + x;
      FieldStarts(fields[0]);
      ToField("", fields[0], x);
      FieldsRead(fields, b[1..], true, rest);
    }
  }

  // ---------- lines and documents ----------

  datatype Body =
    | Empty
    | Assign(key: Key, w1: Text, w2: Text, value: Laid)
    | Header(doubled: bool, w1: Text, key: Key, w2: Text)

  datatype Ending = Bare | Noted(s: Text)

  datatype LaidLine = LaidLine(indent: Text, body: Body, after: Text, ending: Ending)

  ghost predicate BodyOk(b: Body) {
    match b
    case Empty => true
    case Assign(key, w1, w2, value) => FieldOk(Field("", key, w1, w2, value, ""))
    case Header(_, w1, key, w2) => Ws(w1) && KeyOk(key) && Ws(w2)
  }

  ghost predicate LineOk(l: LaidLine) {
    Ws(l.indent) && BodyOk(l.body) && Ws(l.after) && (l.ending.Noted? ==> Remark(l.ending.s))
  }

  function BodyText(b: Body): Text {
    match b
    case Empty => ""
    case Assign(key, w1, w2, value) => FieldText(Field("", key, w1, w2, value, ""))
    case Header(doubled, w1, key, w2) =>
      (if doubled then "[[" else "[") + (w1 + (KeyText(key) + (w2 + if doubled then "]]" else "]")))
  }

  function EndText(l: LaidLine): Text {
    l.after + if l.ending.Noted? then "#" + l.ending.s else ""
  }

  function LineText(l: LaidLine): Text {
    l.indent + (BodyText(l.body) + EndText(l))
  }

  function BodyMeans(b: Body): Line {
    match b
    case Empty => Nothing
    case Assign(key, _, _, value) => Just(KeyValue(Pair(KeyNames(key), LaidTree(value))))
    case Header(doubled, _, key, _) =>
      Just(if doubled then ArrayTableHeader(KeyNames(key)) else TableHeader(KeyNames(key)))
  }

  /** What is left behind a line. */
  function LeftBy(l: LaidLine, x: Text): Text {
    if l.ending.Noted? then Left(x) else x
  }

  lemma EndFollows(l: LaidLine, x: Text)
    requires LineOk(l) && AtLineEnd(x)
    ensures Follows(EndText(l) + x)
    ensures var r := SkipWs(EndText(l) + x); if l.ending.Noted? then r == "#" + l.ending.s + x else r == x
  {
    hide SkipWs, BodyOk, Remark;
    assert x == [] || !IsWs(x[0]) by { LineEndIsNoBlank(x); }
    if l.ending.Noted? {
      var n := "#" + l.ending.s + x;
      assert EndText(l) + x == l.after + n;
      WsEndRun(l.after, n);
    } else {
      assert EndText(l) + x == l.after + x;
      WsEndRun(l.after, x);
      if x != [] { LineEndIsNoBlank(x); }
    }
  }

  lemma LineEndIsNoBlank(x: Text)
    requires AtLineEnd(x)
    ensures x != [] ==> x[0] == '\n' || x[0] == '\r'
  {
    if Starts(x, "\r\n") { assert x[0] == "\r\n"[0]; }
  }

  /** What the parser does behind an expression. */
  lemma EndIsRead(l: LaidLine, x: Text)
    requires LineOk(l) && AtLineEnd(x)
    ensures var r := SkipWs(EndText(l) + x);
      if r != [] && r[0] == '#' then l.ending.Noted? && SkipComment(r) == Ok(LeftBy(l, x)) else r == LeftBy(l, x)
    ensures var r := SkipWs(EndText(l) + x); r == [] || r[0] == '\n' || r[0] == '\r' || r[0] == '#'
  {
    hide SkipWs, SkipComment, BodyOk, Remark;
    EndFollows(l, x);
    LineEndIsNoBlank(x);
    if l.ending.Noted? { CommentSkipped(l.ending.s, x); }
  }

  lemma HeaderReads(doubled: bool, w1: Text, key: Key, w2: Text, rest: Text)
    requires Ws(w1) && KeyOk(key) && Ws(w2)
    ensures var b := BodyText(Header(doubled, w1, key, w2)) + rest;
      b != [] && b[0] == '[' &&
      ParseHeader(b) == Ok((if doubled then ArrayTableHeader(KeyNames(key)) else TableHeader(KeyNames(key)), rest))
  {
    hide KeyText, KeyNames, ParseKey, SkipWs;
    var t := BodyText(Header(doubled, w1, key, w2));
    var b := t + rest;
    var close := (if doubled then "]]" else "]") + rest;
    var n := if doubled then 2 else 1;
    assert b == (if doubled then "[[" else "[") + (w1 + (KeyText(key) + (w2 + close)));
    assert KeyText(key) != [] && KeyText(key)[0] != '[' && !IsWs(KeyText(key)[0]) by { KeyStarts(key); }
    assert b[n..] == w1 + (KeyText(key) + (w2 + close));
    assert !doubled ==> b[1] != '[' by {
      if !doubled { assert b[1] == if w1 != [] then w1[0] else KeyText(key)[0]; }
    }
    WsEndRun(w1, KeyText(key) + (w2 + close));
    KeyReads(key, w2, close);
    NoBlankFirst(close);
    assert doubled ==> close[1..] == "]" + rest && close[1..][1..] == rest;
    assert !doubled ==> close[1..] == rest;
  }

  lemma KeyStarts(key: Key)
    requires KeyOk(key)
    ensures var t := KeyText(key); t != [] && (t[0] == '\'' || t[0] == '"' || IsKeyChar(t[0]))
  {
  }

  lemma {:induction false} BodyReads(l: LaidLine, x: Text)
    requires LineOk(l) && AtLineEnd(x) && !l.body.Empty?
    ensures var b := BodyText(l.body) + (EndText(l) + x);
      && b != [] && !IsWs(b[0]) && b[0] !in {'\n', '\r', '#'}
      && (b[0] == '[' <==> l.body.Header?)
      && if l.body.Header? then ParseHeader(b) == Ok((BodyMeans(l.body).e, EndText(l) + x))
         else ParsePair(b) == Ok((BodyMeans(l.body).e.pair, EndText(l) + x))
  {
    hide ParseHeader, ParsePair, SkipWs, KeyNames, LaidTree, FieldText, Follows, EndText, FieldOk, KeyOk, Remark,
      AtLineEnd;
    var rest := EndText(l) + x;
    if l.body.Header? {
      HeaderReads(l.body.doubled, l.body.w1, l.body.key, l.body.w2, rest);
    } else {
      var f := Field("", l.body.key, l.body.w1, l.body.w2, l.body.value, "");
      EndFollows(l, x);
      FieldReads(f, rest);
      FieldStarts(f);
    }
  }

  /** A line is read as what it says, up to its end. */
  lemma LineReads(l: LaidLine, x: Text)
    requires LineOk(l) && AtLineEnd(x)
    ensures ParseLine(LineText(l) + x) == Ok((BodyMeans(l.body), LeftBy(l, x)))
  {
    hide ParseHeader, ParsePair, SkipWs, SkipComment, BodyText, BodyOk, BodyMeans, EndText, Left, Remark, AtLineEnd;
    var b := LineText(l) + x;
    var y := BodyText(l.body) + (EndText(l) + x);
    assert b == l.indent + y;
    WsAdds(l.indent, y);
    EndIsRead(l, x);
    if l.body.Empty? {
      EmptyBody(l.body, EndText(l) + x);
    } else {
      BodyReads(l, x);
      NoBlankFirst(y);
      BodyIsJust(l.body);
    }
  }

  lemma EmptyBody(b: Body, rest: Text)
    requires b.Empty?
    ensures BodyText(b) + rest == rest && BodyMeans(b) == Nothing
  {
  }

  lemma BodyIsJust(b: Body)
    requires !b.Empty?
    ensures BodyMeans(b).Just? && (b.Assign? ==> BodyMeans(b).e.KeyValue?)
  {
  }

  /** A document: its lines, each with the newline behind it; there is none behind the last. */
  datatype Row = Row(line: LaidLine, nl: Text)

  ghost predicate RowsOk(rows: seq<Row>) {
    forall i :: 0 <= i < |rows| ==> LineOk(rows[i].line) && IsNewline(rows[i].nl)
  }

  function DocText(rows: seq<Row>): Text
    requires rows != []
  {
    if |rows| == 1 then LineText(rows[0].line) else LineText(rows[0].line) + (rows[0].nl + DocText(rows[1..]))
  }

  function DocMeans(rows: seq<Row>): seq<Expression> {
    if rows == [] then []
    else
      (match BodyMeans(rows[0].line.body)
       case Nothing => []
       case Just(e) => [e]) + DocMeans(rows[1..])
  }

  lemma {:induction false} LineStep(b: Text, first: bool, y: Text, line: Line, rest: Text)
    requires b != [] && y != [] && (if first then y == b else SkipNewlineOrErr(b) == Ok(y))
    requires ParseLine(y) == Ok((line, rest))
    ensures ParseDocument(b, first) ==
      match line
      case Nothing => ParseDocument(rest, false)
      case Just(e) =>
        match ParseDocument(rest, false)
        case Err => Err
        case Ok(es) => Ok([e] + es)
  {
    hide ParseLine, SkipNewlineOrErr;
    assert line.Just? ==> NextExpression(b, first) == Ok((line, rest));
    assert line.Nothing? ==> NextExpression(b, first) == NextExpression(rest, false);
  }

  lemma NoDocument()
    ensures ParseDocument([], false) == Ok([]) && ParseDocument([], true) == Ok([])
    ensures forall nl :: IsNewline(nl) ==> ParseDocument(nl, false) == Ok([])
  {
    hide ParseLine;
    forall nl | IsNewline(nl) ensures ParseDocument(nl, false) == Ok([]) {
      assert nl[|nl|..] == [];
      assert NextExpression(nl, false) == Ok((Nothing, []));
    }
  }

  lemma NewlineRead(nl: Text, x: Text)
    requires IsNewline(nl)
    ensures SkipNewlineOrErr(nl + x) == Ok(x) && nl + x != []
  {
    assert (nl + x)[|nl|..] == x;
  }

  /** In front of y at the beginning of a document, or of a newline and y. */
  ghost predicate Before(b: Text, first: bool, y: Text) {
    if first then b == y else b != [] && SkipNewlineOrErr(b) == Ok(y)
  }

  lemma NothingBefore(b: Text, first: bool)
    requires Before(b, first, [])
    ensures ParseDocument(b, first) == Ok([])
  {
    hide ParseLine, SkipNewlineOrErr;
    assert NextExpression(b, first) == Ok((Nothing, []));
  }

  lemma MeansStep(rows: seq<Row>)
    requires rows != []
    ensures DocMeans(rows) ==
      match BodyMeans(rows[0].line.body)
      case Nothing => DocMeans(rows[1..])
      case Just(e) => [e] + DocMeans(rows[1..])
  {
    hide BodyMeans;
  }

  /** The rows from some line on. */
  lemma {:induction false} RowsRead(rows: seq<Row>, b: Text, first: bool)
    requires rows != [] && RowsOk(rows) && Before(b, first, DocText(rows))
    ensures ParseDocument(b, first) == Ok(DocMeans(rows))
    decreases |rows|, 1
  {
    hide LineText, BodyMeans, ParseDocument, LineOk, IsNewline, LeftBy, AtLineEnd, SkipNewlineOrErr, DocMeans;
    var y, line := DocText(rows), rows[0].line;
    var x := if |rows| == 1 then [] else rows[0].nl + DocText(rows[1..]);
    assert y == LineText(line) + x;
    assert AtLineEnd(x) by { RowEnds(rows); }
    LineReads(line, x);
    MeansStep(rows);
    RestRead(rows, x);
    if y == [] {
      EmptyLine(line);
      assert |rows| == 1 by { RowEnds(rows); }
      assert rows[1..] == [] && DocMeans([]) == [] by { NothingLeft(); }
      NothingBefore(b, first);
    } else {
      LineStep(b, first, y, BodyMeans(line.body), LeftBy(line, x));
    }
  }

  lemma RowEnds(rows: seq<Row>)
    requires rows != [] && RowsOk(rows)
    ensures var x := if |rows| == 1 then [] else rows[0].nl + DocText(rows[1..]);
      AtLineEnd(x) && (|rows| > 1 ==> x != [])
  {
    hide LineOk, DocText;
    if |rows| > 1 { LineEnds(rows[0].nl, DocText(rows[1..])); }
  }

  lemma {:induction false} RestRead(rows: seq<Row>, x: Text)
    requires rows != [] && RowsOk(rows) && x == if |rows| == 1 then [] else rows[0].nl + DocText(rows[1..])
    ensures ParseDocument(LeftBy(rows[0].line, x), false) == Ok(DocMeans(rows[1..]))
    decreases |rows|, 0
  {
    hide LineText, ParseDocument, LineOk, IsNewline, Left, SkipNewlineOrErr, DocMeans;
    NothingLeft();
    if |rows| == 1 {
      NoDocument();
      assert rows[1..] == [];
    } else {
      var more := DocText(rows[1..]);
      LineEnds(rows[0].nl, more);
      NewlineRead(rows[0].nl, more);
      NewlineRead("\n", more);
      RowsRead(rows[1..], LeftBy(rows[0].line, x), false);
    }
  }

  lemma NothingLeft()
    ensures Left([]) == [] && IsNewline("\n") && DocMeans([]) == []
  {
  }

  lemma EmptyLine(l: LaidLine)
    requires LineOk(l)
    ensures LineText(l) == [] ==> BodyMeans(l.body) == Nothing
  {
    if !l.body.Empty? { BodyReads(l, []); }
  }

  /** A document in any layout is read as its expressions, in their order. */
  lemma DocumentReads(rows: seq<Row>)
    requires rows != [] && RowsOk(rows)
    ensures ParseDocument(DocText(rows), true) == Ok(DocMeans(rows))
  {
    RowsRead(rows, DocText(rows), true);
  }
}
