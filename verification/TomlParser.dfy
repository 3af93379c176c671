/**
  The parser of unstable/parser.go with comments dropped. Each parse function is proved to read
  what the grammar says and to append exactly the node layout of its tree.
*/
module TomlParser {
  import opened TomlText
  import opened TomlStrings
  import opened TomlGrammar
  import opened TomlScanner
  import opened TomlDecoder
  import opened TomlNodes

  class Builder {
    var nodes: seq<Node>
    var lastIdx: int

    constructor ()
      ensures nodes == [] && lastIdx == 0
    {
      nodes, lastIdx := [], 0;
    }

    method Reset()
      modifies this
      ensures nodes == [] && lastIdx == 0
    {
      nodes, lastIdx := [], 0;
    }

    method Push(n: Node) returns (ref: nat)
      modifies this
      ensures nodes == old(nodes) + [n] && ref == |old(nodes)| && lastIdx == ref
    {
      lastIdx := |nodes|;
      nodes := nodes + [n];
      ref := lastIdx;
    }

    /** Push, and let the node pushed last point at the new one. */
    method PushAndChain(n: Node) returns (ref: nat)
      requires lastIdx <= |nodes|
      modifies this
      ensures ref == |old(nodes)| && lastIdx == ref
      ensures old(lastIdx) < 0 ==> nodes == old(nodes) + [n]
      ensures 0 <= old(lastIdx) < ref ==> nodes == SetNext(old(nodes), old(lastIdx), ref - old(lastIdx)) + [n]
      ensures old(lastIdx) == ref ==> nodes == old(nodes) + [n.(next := 0)]
    {
      var newIdx := |nodes|;
      nodes := nodes + [n];
      if lastIdx >= 0 {
        nodes := SetNext(nodes, lastIdx, newIdx - lastIdx);
      }
      lastIdx := newIdx;
      ref := lastIdx;
    }

    method AttachChild(parent: nat, child: nat)
      requires parent < |nodes|
      modifies this
      ensures nodes == SetChild(old(nodes), parent, child - parent)
      ensures lastIdx == old(lastIdx)
    {
      nodes := SetChild(nodes, parent, child - parent);
    }

    method Chain(from: nat, to: nat)
      requires from < |nodes|
      modifies this
      ensures nodes == SetNext(old(nodes), from, to - from)
      ensures lastIdx == old(lastIdx)
    {
      nodes := SetNext(nodes, from, to - from);
    }
  }

  /** A reference to the root of what was read, and the text behind it. */
  type Read = Result<(nat, Text)>

  /** A parse function appended the layout of what the grammar reads, or failed with it. */
  predicate Appended(r: Read, rest: Result<Text>, before: seq<Node>, now: seq<Node>, block: seq<Node>) {
    match rest
    case Err => r.Err?
    case Ok(x) => r == Ok((|before|, x)) && now == before + block
  }

  method ParseNewline(b: Text) returns (r: Result<Text>)
    requires b != []
    ensures r == SkipNewlineOrErr(b)
  {
    if b[0] == '\n' { return Ok(b[1..]); }
    if b[0] == '\r' {
      if |b| < 2 || b[1] != '\n' { return Err; }
      return Ok(b[2..]);
    }
    return Err;
  }

  /** `parseOptionalWhitespaceCommentNewline` */
  method SkipBetween(b: Text) returns (r: Result<Text>)
    ensures r == SkipLines(b)
  {
    hide SkipComment, SkipWs, SkipNewlineOrErr;
    var x := b;
    while x != []
      invariant SkipLines(b) == SkipLines(x)
      decreases |x|
    {
      var y := ScanWhitespace(x);
      if y != [] && y[0] == '#' {
        var c := ScanComment(y);
        match c
        case Err => return Err;
        case Ok(z) => y := z;
      }
      if y == [] || (y[0] != '\n' && y[0] != '\r') { return Ok(y); }
      var n := ParseNewline(y);
      match n
      case Err => return Err;
      case Ok(z) => x := z;
    }
    NoLines(x);
    return Ok(x);
  }

  lemma NoLines(x: Text)
    requires x == []
    ensures SkipLines(x) == Ok(x)
  {
  }

  method ParseLiteralString(b: Text) returns (r: Parsed)
    requires b != []
    ensures r == ParseLiteral(b)
  {
    hide LiteralEnd;
    var scanned := ScanLiteralString(b);
    match scanned
    case Err => return Err;
    case Ok((v, rest)) =>
      assert v[1..|v| - 1] == b[1..|v| - 1];
      return Ok((v[1..|v| - 1], rest));
  }

  method ParseSimpleKeyToken(b: Text) returns (r: Parsed)
    ensures r == ParseSimpleKey(b)
  {
    hide ParseLiteral, ParseBasic, KeyEnd;
    if b == [] { return Err; }
    if b[0] == '\'' {
      r := ParseLiteralString(b);
    } else if b[0] == '"' {
      r := ParseBasicString(b);
    } else if IsKeyChar(b[0]) {
      var key, rest := ScanUnquotedKey(b);
      r := Ok((key, rest));
    } else {
      r := Err;
    }
  }

  class Parser {
    const builder: Builder
    var left: Text
    var first: bool
    var failed: bool
    var ref: int

    /** `Reset` on a document. */
    constructor (b: Text)
      ensures left == b && first && !failed && ref == -1 && fresh(builder) && builder.nodes == []
    {
      builder := new Builder();
      left, first, failed, ref := b, true, false, -1;
    }

    method ParseDottedKey(b: Text) returns (r: Read)
      modifies builder
      ensures Appended(r, Behind(ParseKey(b)), old(builder.nodes), builder.nodes,
        if ParseKey(b).Ok? then KeyNodes(ParseKey(b).value.0) else [])
    {
      hide ParseSimpleKey, SkipWs, KeyNodes, ParseKeyRest;
      ghost var before := builder.nodes;
      var simple := ParseSimpleKeyToken(b);
      match simple
      case Err => return Err;
      case Ok((key, rest)) =>
        var ref := builder.Push(Node(KeyNode, key, 0, 0));
        ghost var ks := [key];
        OneKeyNode(key);
        var x := rest;
        while true
          invariant ks != [] && builder.nodes == before + KeyNodes(ks) && builder.lastIdx == |before| + |ks| - 1
          invariant ParseKey(b) == WithParts(ks, ParseKeyRest(x))
          decreases |x|
        {
          KeyRestStep(x);
          var y := ScanWhitespace(x);
          if y == [] || y[0] != '.' {
            assert ks + [] == ks;
            return Ok((ref, y));
          }
          y := ScanWhitespace(y[1..]);
          simple := ParseSimpleKeyToken(y);
          match simple
          case Err => return Err;
          case Ok((k, z)) =>
            var _ := builder.PushAndChain(Node(KeyNode, k, 0, 0));
            KeyMore(ks, k);
            Reassociate(ks, k, ParseKeyRest(z));
            ks, x := ks + [k], z;
        }
    }

    /** `addChild`: hang a block that was just pushed under its parent, behind the last child. */
    method AddChild(parent: nat, last: int, child: nat, ghost before: seq<Node>, ghost kind: NodeKind,
        ghost bs: seq<Block>,
                    ghost b: Block)
      requires builder.nodes == before + Family(kind, bs) + b
      requires parent == |before| && child == |before| + |Family(kind, bs)|
      requires last == LastChild(before, bs)
      modifies builder
      ensures builder.nodes == before + Family(kind, bs + [b]) && child == LastChild(before, bs + [b])
    {
      hide Family, LastAt, Chained;
      ChildAdded(before, kind, bs, b);
      if last == -1 {
        builder.AttachChild(parent, child);
      } else {
        builder.Chain(last, child);
      }
    }

    /** `parseVal` */
    method ParseValue(b: Text) returns (r: Read)
      modifies builder
      ensures Appended(r, Behind(ParseVal(b)), old(builder.nodes), builder.nodes,
        if ParseVal(b).Ok? then Flatten(ParseVal(b).value.0) else [])
      decreases |b|, 2
    {
      hide ParseString, ParseLiteral, ParseMultilineLiteral, ScanScalar, ParseElements, ParsePairs, TreeBlocks,
          PairBlocks, Family;
      if b == [] { return Err; }
      if b[0] == '[' {
        r := ParseArray(b);
      } else if b[0] == '{' {
        r := ParseInlineTable(b);
      } else {
        var leaf := ScanLeaf(b);
        match leaf
        case Err => return Err;
        case Ok((kind, data, rest)) =>
          var ref := builder.Push(Node(Scalar(kind), data, 0, 0));
          return Ok((ref, rest));
      }
    }

    /** `parseValArray` */
    method ParseArray(b: Text) returns (r: Read)
      requires b != []
      modifies builder
      ensures var e := ParseElements(b[1..], true);
        Appended(r, Behind(e), old(builder.nodes), builder.nodes, if e.Ok? then Family(ArrayNode, TreeBlocks(e.value.0))
            else [])
      decreases |b|, 1
    {
      hide ParseElements, ToElement, SkipLines, ParseVal, Family, Flatten, LastAt, Chained;
      ghost var before := builder.nodes;
      var x := b[1..];
      var parent := builder.Push(Node(ArrayNode, [], 0, 0));
      var first, last := true, -1;
      ghost var ts: seq<Tree> := [];
      EmptyFamily(ArrayNode);
      NoTreesBefore(ParseElements(x, true));
      while true
        invariant |x| < |b|
        invariant builder.nodes == before + Family(ArrayNode, TreeBlocks(ts)) &&
            last == LastChild(before, TreeBlocks(ts))
        invariant ParseElements(b[1..], true) == WithTrees(ts, ParseElements(x, first))
        decreases |x|
      {
        ElementsStep(x, first);
        var at := NextElement(x, first);
        match at
        case Err => return Err;
        case Ok(y) =>
          if y != [] && y[0] == ']' {
            assert ts + [] == ts;
            return Ok((parent, y[1..]));
          }
          ghost var t := if ParseVal(y).Ok? then ParseVal(y).value.0 else Leaf(String, []);
          var value := ParseValue(y);
          match value
          case Err => return Err;
          case Ok((child, z)) =>
            AddChild(parent, last, child, before, ArrayNode, TreeBlocks(ts), Flatten(t));
            TreeBlocksMore(ts, t);
            var end := SkipBetween(z);
            match end
            case Err => return Err;
            case Ok(rest) =>
              TreesFurther(ts, t, ParseElements(rest, false));
              ts, x, first, last := ts + [t], rest, false, child;
      }
    }

    /** `parseInlineTable` */
    method ParseInlineTable(b: Text) returns (r: Read)
      requires b != []
      modifies builder
      ensures var e := ParsePairs(b[1..], true);
        Appended(r, Behind(e), old(builder.nodes), builder.nodes,
            if e.Ok? then Family(InlineTableNode, PairBlocks(e.value.0)) else [])
      decreases |b|, 1
    {
      hide ParsePairs, ToPair, ParsePair, Family, FlattenPair, LastAt, Chained;
      ghost var before := builder.nodes;
      var x := b[1..];
      var parent := builder.Push(Node(InlineTableNode, [], 0, 0));
      var first, last := true, -1;
      ghost var ps: seq<Pair> := [];
      EmptyFamily(InlineTableNode);
      NoPairsBefore(ParsePairs(x, true));
      while true
        invariant |x| < |b|
        invariant builder.nodes == before + Family(InlineTableNode, PairBlocks(ps)) &&
            last == LastChild(before, PairBlocks(ps))
        invariant ParsePairs(b[1..], true) == WithPairs(ps, ParsePairs(x, first))
        decreases |x|
      {
        PairsStep(x, first);
        var at := NextPair(x, first);
        match at
        case Err => return Err;
        case Ok((closed, y)) =>
          if closed {
            assert ps + [] == ps;
            return Ok((parent, y[1..]));
          }
          ghost var p := if ParsePair(y).Ok? then ParsePair(y).value.0 else Pair([], Leaf(String, []));
          var pair := ParseKeyval(y);
          match pair
          case Err => return Err;
          case Ok((child, rest)) =>
            AddChild(parent, last, child, before, InlineTableNode, PairBlocks(ps), FlattenPair(p));
            PairBlocksMore(ps, p);
            PairsFurther(ps, p, ParsePairs(rest, false));
            ps, x, first, last := ps + [p], rest, false, child;
      }
    }

    /** `parseKeyval` */
    method ParseKeyval(b: Text) returns (r: Read)
      modifies builder
      ensures Appended(r, Behind(ParsePair(b)), old(builder.nodes), builder.nodes,
        if ParsePair(b).Ok? then FlattenPair(ParsePair(b).value.0) else [])
      decreases |b|, 3
    {
      hide ParseKey, SkipWs, ParseVal, KeyNodes, Flatten, FlattenPair;
      ghost var before := builder.nodes;
      var ref := builder.Push(Node(KeyValueNode, [], 0, 0));
      var key := ParseDottedKey(b);
      match key
      case Err => return Err;
      case Ok((k, b1)) =>
        ghost var ks := ParseKey(b).value.0;
        var b2 := ScanWhitespace(b1);
        if b2 == [] || b2[0] != '=' { return Err; }
        var b3 := ScanWhitespace(b2[1..]);
        var value := ParseValue(b3);
        match value
        case Err => return Err;
        case Ok((v, rest)) =>
          PairLinked(before, ks, Flatten(ParseVal(b3).value.0));
          PairIsLinked(Pair(ks, ParseVal(b3).value.0));
          builder.Chain(v, k);
          builder.AttachChild(ref, v);
          return Ok((ref, rest));
    }

    /** `parseTable`, for both kinds of header. */
    method ParseTable(b: Text) returns (r: Read)
      requires b != []
      modifies builder
      ensures Appended(r, Behind(ParseHeader(b)), old(builder.nodes), builder.nodes,
        if ParseHeader(b).Ok? then FlattenExpression(ParseHeader(b).value.0) else [])
    {
      hide ParseKey, SkipWs, KeyNodes;
      ghost var before := builder.nodes;
      var isArray := |b| > 1 && b[1] == '[';
      var kind := if isArray then ArrayTableNode else TableNode;
      var ref := builder.Push(Node(kind, [], 0, 0));
      var x := ScanWhitespace(b[if isArray then 2 else 1..]);
      ghost var ks := if ParseKey(x).Ok? then KeyNodes(ParseKey(x).value.0) else [];
      var key := ParseDottedKey(x);
      match key
      case Err => return Err;
      case Ok((k, y)) =>
        ChildOfRoot(before, Node(kind, [], 0, 0), ks, 1);
        builder.AttachChild(ref, k);
        assert before + [Node(kind, [], 0, 1)] + ks == before + ([Node(kind, [], 0, 1)] + ks);
        var z := ScanWhitespace(y);
        if z == [] || z[0] != ']' { return Err; }
        z := z[1..];
        if isArray {
          if z == [] || z[0] != ']' { return Err; }
          z := z[1..];
        }
        return Ok((ref, z));
    }

    /** `parseExpression`: no reference for a line without an expression, which leaves no node. */
    method ParseExpression(b: Text) returns (r: Result<(int, Text)>)
      modifies builder
      ensures match ParseLine(b)
        case Err => r.Err?
        case Ok((Nothing, rest)) => r == Ok((-1, rest)) && builder.nodes == old(builder.nodes)
        case Ok((Just(e), rest)) =>
          r == Ok((|old(builder.nodes)|, rest)) && builder.nodes == old(builder.nodes) + FlattenExpression(e)
    {
      hide SkipWs, SkipComment, ParseHeader, ParsePair, FlattenExpression;
      var x := ScanWhitespace(b);
      if x == [] { return Ok((-1, x)); }
      if x[0] == '#' {
        var c := ScanComment(x);
        match c
        case Err => return Err;
        case Ok(rest) => return Ok((-1, rest));
      }
      if x[0] == '\n' || x[0] == '\r' { return Ok((-1, x)); }
      var e: Read;
      if x[0] == '[' {
        e := ParseTable(x);
      } else {
        e := ParseKeyval(x);
        assert forall p :: FlattenExpression(KeyValue(p)) == FlattenPair(p) by { KeyValueLayout(); }
      }
      match e
      case Err => return Err;
      case Ok((ref, y)) =>
        y := ScanWhitespace(y);
        if y != [] && y[0] == '#' {
          var c := ScanComment(y);
          match c
          case Err => return Err;
          case Ok(rest) => return Ok((ref, rest));
        }
        return Ok((ref, y));
    }

    /** `NextExpression` */
    method Next() returns (more: bool)
      modifies this, builder
      ensures old(failed) ==> !more && failed && left == old(left)
      ensures !old(failed) ==>
        match NextExpression(old(left), old(first))
        case Err => !more && failed
        case Ok((Nothing, rest)) => !more && !failed && left == rest
        case Ok((Just(e), rest)) =>
          more && !failed && left == rest && !first && ref == 0 && builder.nodes == FlattenExpression(e)
    {
      hide ParseLine, SkipNewlineOrErr, FlattenExpression;
      if left == [] || failed { return false; }
      builder.Reset();
      ref := -1;
      while true
        invariant !failed && builder.nodes == []
        invariant NextExpression(old(left), old(first)) == NextExpression(left, first)
        decreases |left|, first
      {
        ExpressionStep(left, first);
        if left == [] { return false; }
        if !first {
          var n := ParseNewline(left);
          match n
          case Err =>
            failed := true;
            return false;
          case Ok(rest) => left := rest;
        }
        if left == [] { return false; }
        var e := ParseExpression(left);
        match e
        case Err =>
          failed := true;
          return false;
        case Ok((at, rest)) =>
          ref, left, first := at, rest, false;
          if ref != -1 { return true; }
      }
    }
  }

  function Blocks(es: seq<Expression>): (bs: seq<Block>)
    ensures |bs| == |es| && forall i :: 0 <= i < |es| ==> bs[i] == FlattenExpression(es[i])
  {
    if es == [] then [] else [FlattenExpression(es[0])] + Blocks(es[1..])
  }

  lemma {:induction false} BlocksMore(es: seq<Expression>, e: Expression)
    ensures Blocks(es + [e]) == Blocks(es) + [FlattenExpression(e)]
  {
    hide FlattenExpression;
    if es != [] {
      assert (es + [e])[1..] == es[1..] + [e];
      BlocksMore(es[1..], e);
    }
  }

  function WithExpressions(es: seq<Expression>, r: Result<seq<Expression>>): Result<seq<Expression>> {
    match r
    case Err => Err
    case Ok(more) => Ok(es + more)
  }

  lemma DocumentStep(es: seq<Expression>, b: Text, first: bool)
    ensures WithExpressions([], ParseDocument(b, first)) == ParseDocument(b, first)
    ensures match NextExpression(b, first)
      case Err => WithExpressions(es, ParseDocument(b, first)) == Err
      case Ok((Nothing, _)) => WithExpressions(es, ParseDocument(b, first)) == Ok(es)
      case Ok((Just(e), rest)) =>
        WithExpressions(es, ParseDocument(b, first)) == WithExpressions(es + [e], ParseDocument(rest, false))
  {
    hide NextExpression;
    assert es + [] == es;
    if ParseDocument(b, first).Ok? { assert [] + ParseDocument(b, first).value == ParseDocument(b, first).value; }
    match NextExpression(b, first)
    case Ok((Just(e), rest)) =>
      if ParseDocument(rest, false).Ok? {
        var more := ParseDocument(rest, false).value;
        assert es + ([e] + more) == es + [e] + more;
      }
    case _ =>
  }

  /** Calling NextExpression until it says no: the node arrays of all expressions of a document, or its error. */
  method ReadDocument(b: Text) returns (r: Result<seq<Block>>)
    ensures match ParseDocument(b, true)
      case Err => r == Err
      case Ok(es) => r == Ok(Blocks(es))
  {
    hide ParseDocument, NextExpression, FlattenExpression, Blocks;
    var p := new Parser(b);
    var blocks: seq<Block> := [];
    ghost var es: seq<Expression> := [];
    DocumentStep([], b, true);
    assert Blocks([]) == [];
    while true
      invariant !p.failed && blocks == Blocks(es) && fresh(p) && fresh(p.builder)
      invariant ParseDocument(b, true) == WithExpressions(es, ParseDocument(p.left, p.first))
      decreases |p.left|
    {
      DocumentStep(es, p.left, p.first);
      ghost var next := NextExpression(p.left, p.first);
      var more := p.Next();
      if !more { return if p.failed then Err else Ok(blocks); }
      BlocksMore(es, next.value.0.e);
      blocks := blocks + [p.builder.nodes];
      es := es + [next.value.0.e];
    }
  }

  function Behind<T>(r: Result<(T, Text)>): Result<Text> {
    match r
    case Ok((_, rest)) => Ok(rest)
    case Err => Err
  }

  lemma OneKeyNode(key: Text)
    ensures KeyNodes([key]) == [Node(KeyNode, key, 0, 0)]
  {
  }

  function WithParts(ks: seq<Text>, r: Result<(seq<Text>, Text)>): Result<(seq<Text>, Text)> {
    match r
    case Ok((more, rest)) => Ok((ks + more, rest))
    case Err => Err
  }

  lemma KeyRestStep(b: Text)
    ensures ParseKeyRest(b) ==
      var b1 := SkipWs(b);
      if b1 != [] && b1[0] == '.' then
        match ParseSimpleKey(SkipWs(b1[1..]))
        case Err => Err
        case Ok((k, b2)) => WithParts([k], ParseKeyRest(b2))
      else Ok(([], b1))
  {
  }

  lemma Reassociate(ks: seq<Text>, k: Text, r: Result<(seq<Text>, Text)>)
    ensures WithParts(ks, WithParts([k], r)) == WithParts(ks + [k], r)
  {
    if r.Ok? { assert ks + ([k] + r.value.0) == (ks + [k]) + r.value.0; }
  }

  lemma KeyValueLayout()
    ensures forall p :: FlattenExpression(KeyValue(p)) == FlattenPair(p)
  {
  }

  lemma ExpressionStep(b: Text, first: bool)
    ensures NextExpression(b, first) ==
      if b == [] then Ok((Nothing, []))
      else
        match if first then Ok(b) else SkipNewlineOrErr(b)
        case Err => Err
        case Ok(b2) =>
          if b2 == [] then Ok((Nothing, []))
          else
            match ParseLine(b2)
            case Err => Err
            case Ok((Just(e), rest)) => Ok((Just(e), rest))
            case Ok((Nothing, rest)) => NextExpression(rest, false)
  {
    hide ParseLine, SkipNewlineOrErr;
  }

  // ---------- leaves and separators ----------

  /** The values that take one node. */
  function LeafAt(b: Text): Result<(Kind, Text, Text)>
    requires b != [] && b[0] != '[' && b[0] != '{'
  {
    match ParseVal(b)
    case Ok((t, rest)) => Ok((t.kind, t.data, rest))
    case Err => Err
  }

  method ScanLeaf(b: Text) returns (r: Result<(Kind, Text, Text)>)
    requires b != [] && b[0] != '[' && b[0] != '{'
    ensures r == LeafAt(b)
  {
    hide ParseBasic, ParseMultiline, ParseLiteral, ParseMultilineLiteral, ScanScalar;
    var text: Parsed;
    if b[0] == '"' {
      if Starts(b, "\"\"\"") { text := ParseMultilineBasicString(b); } else { text := ParseBasicString(b); }
      match text
      case Err => return Err;
      case Ok((v, rest)) => return Ok((String, v, rest));
    }
    if b[0] == '\'' {
      if Starts(b, "'''") { text := ParseMultilineLiteralString(b); } else { text := ParseLiteralString(b); }
      match text
      case Err => return Err;
      case Ok((v, rest)) => return Ok((String, v, rest));
    }
    if b[0] == 't' {
      if !Starts(b, "true") { return Err; }
      return Ok((Bool, b[..4], b[4..]));
    }
    if b[0] == 'f' {
      if !Starts(b, "false") { return Err; }
      return Ok((Bool, b[..5], b[5..]));
    }
    var scalar := ScanScalarValue(b);
    match scalar
    case Err => return Err;
    case Ok((kind, n)) => return Ok((kind, b[..n], b[n..]));
  }

  /** The part of the array loop before a value. */
  method NextElement(b: Text, first: bool) returns (r: Result<Text>)
    ensures r == ToElement(b, first)
  {
    hide SkipLines;
    var at := SkipBetween(b);
    match at
    case Err => return Err;
    case Ok(b1) =>
      if b1 == [] { return Err; }
      if b1[0] == ']' { return Ok(b1); }
      if b1[0] == ',' {
        if first { return Err; }
        r := SkipBetween(b1[1..]);
      } else {
        r := if first then Ok(b1) else Err;
      }
  }

  /** The part of the inline table loop before a pair. */
  method NextPair(b: Text, first: bool) returns (r: Result<(bool, Text)>)
    ensures r == ToPair(b, first)
  {
    hide SkipWs;
    var b1 := ScanWhitespace(b);
    if b1 == [] { return Err; }
    if b1[0] == '}' { return Ok((true, b1)); }
    if first { return Ok((false, b1)); }
    if b1[0] != ',' { return Err; }
    var b2 := ScanWhitespace(b1[1..]);
    return Ok((false, b2));
  }

  // ---------- what the updates do to a layout ----------

  /** The index of the last child of a parent at the end of `before`, or -1. */
  ghost function LastChild(before: seq<Node>, bs: seq<Block>): int {
    if bs == [] then -1 else |before| + 1 + LastAt(bs)
  }

  lemma EmptyFamily(kind: NodeKind)
    ensures Family(kind, []) == [Node(kind, [], 0, 0)]
  {
  }

  lemma ChildAdded(before: seq<Node>, kind: NodeKind, bs: seq<Block>, b: Block)
    ensures var now := before + Family(kind, bs) + b;
      var child := |before| + |Family(kind, bs)|;
      && LastChild(before, bs + [b]) == child
      && (bs == [] ==>
            && child == |before| + 1
            && SetChild(now, |before|, 1) == before + Family(kind, bs + [b]))
      && (bs != [] ==>
            && |before| <= LastChild(before, bs) < child
            && SetNext(now, LastChild(before, bs), child - LastChild(before, bs)) == before + Family(kind, bs + [b]))
  {
    if bs != [] { ChainMore(bs, b); }
  }

  lemma ChildOfRoot(x: seq<Node>, n: Node, y: seq<Node>, child: int)
    ensures SetChild(x + [n] + y, |x|, child) == x + [n.(child := child)] + y
  {
  }

  lemma Associate(x: seq<Node>, y: seq<Node>, z: seq<Node>)
    ensures x + y + z == x + (y + z)
  {
  }

  lemma NextOfBlock(x: seq<Node>, v: Block, next: int)
    ensures SetNext(x + v, |x|, next) == x + WithNext(v, next)
  {
  }

  /** The nodes of a key-value before its links are set, and after. */
  lemma PairLinked(before: seq<Node>, ks: seq<Text>, v: Block)
    ensures var now := before + [Node(KeyValueNode, [], 0, 0)] + KeyNodes(ks) + v;
      var at := |before| + 1 + |ks|;
      var chained := SetNext(now, at, -|ks|);
      SetChild(chained, |before|, 1 + |ks|) == before + Linked(ks, v)
  {
    hide KeyNodes, SetNext, SetChild, WithNext, Linked;
    var kv, keys, value := Node(KeyValueNode, [], 0, 0), KeyNodes(ks), WithNext(v, -|ks|);
    var root := Node(KeyValueNode, [], 0, 1 + |ks|);
    LinkedParts(ks, v);
    NextOfBlock(before + [kv] + keys, v, -|ks|);
    Associate(before + [kv], keys, value);
    ChildOfRoot(before, kv, keys + value, 1 + |ks|);
    Associate(before, [root], keys + value);
    Associate([root], keys, value);
  }

  lemma LinkedParts(ks: seq<Text>, v: Block)
    ensures Linked(ks, v) == [Node(KeyValueNode, [], 0, 1 + |ks|)] + KeyNodes(ks) + WithNext(v, -|ks|)
  {
  }

  function Linked(ks: seq<Text>, v: Block): Block {
    [Node(KeyValueNode, [], 0, 1 + |ks|)] + KeyNodes(ks) + WithNext(v, -|ks|)
  }

  lemma PairIsLinked(p: Pair)
    ensures FlattenPair(p) == Linked(p.key, Flatten(p.value))
  {
  }

  // ---------- what the loops have read ----------

  function WithTrees(ts: seq<Tree>, r: Result<(seq<Tree>, Text)>): Result<(seq<Tree>, Text)> {
    match r
    case Ok((more, rest)) => Ok((ts + more, rest))
    case Err => Err
  }

  lemma NoTreesBefore(r: Result<(seq<Tree>, Text)>)
    ensures WithTrees([], r) == r
  {
    if r.Ok? { assert [] + r.value.0 == r.value.0; }
  }

  lemma TreesFurther(ts: seq<Tree>, t: Tree, r: Result<(seq<Tree>, Text)>)
    ensures WithTrees(ts, WithTrees([t], r)) == WithTrees(ts + [t], r)
  {
    if r.Ok? { assert ts + ([t] + r.value.0) == (ts + [t]) + r.value.0; }
  }

  lemma ElementsStep(b: Text, first: bool)
    ensures ParseElements(b, first) ==
      match ToElement(b, first)
      case Err => Err
      case Ok(b1) =>
        if b1 != [] && b1[0] == ']' then Ok(([], b1[1..]))
        else
          match ParseVal(b1)
          case Err => Err
          case Ok((t, b2)) =>
            match SkipLines(b2)
            case Err => Err
            case Ok(b3) => WithTrees([t], ParseElements(b3, false))
  {
    hide ToElement, ParseVal, SkipLines;
  }

  function WithPairs(ps: seq<Pair>, r: Result<(seq<Pair>, Text)>): Result<(seq<Pair>, Text)> {
    match r
    case Ok((more, rest)) => Ok((ps + more, rest))
    case Err => Err
  }

  lemma NoPairsBefore(r: Result<(seq<Pair>, Text)>)
    ensures WithPairs([], r) == r
  {
    if r.Ok? { assert [] + r.value.0 == r.value.0; }
  }

  lemma PairsFurther(ps: seq<Pair>, p: Pair, r: Result<(seq<Pair>, Text)>)
    ensures WithPairs(ps, WithPairs([p], r)) == WithPairs(ps + [p], r)
  {
    if r.Ok? { assert ps + ([p] + r.value.0) == (ps + [p]) + r.value.0; }
  }

  lemma PairsStep(b: Text, first: bool)
    ensures ParsePairs(b, first) ==
      match ToPair(b, first)
      case Err => Err
      case Ok((closed, b1)) =>
        if closed then Ok(([], b1[1..]))
        else
          match ParsePair(b1)
          case Err => Err
          case Ok((p, b2)) => WithPairs([p], ParsePairs(b2, false))
  {
    hide ToPair, ParsePair;
  }
}
