/**
  The flat node array of unstable/builder.go and unstable/ast.go: a syntax tree is laid out as nodes
  that point at each other by relative offsets, and walking the offsets gives the tree back.
*/
module TomlNodes {
  import opened TomlText
  import opened TomlGrammar
  import opened TomlNumbers

  datatype NodeKind = Scalar(kind: Kind) | ArrayNode | InlineTableNode | KeyValueNode | KeyNode | TableNode
      | ArrayTableNode

  /** Offsets are relative to the node itself; 0 means none. */
  datatype Node = Node(kind: NodeKind, data: Text, next: int, child: int)

  type Block = ns: seq<Node> | ns != [] witness [Node(ArrayNode, [], 0, 0)]

  function WithNext(ns: Block, next: int): Block {
    ns[0 := ns[0].(next := next)]
  }

  // ---------- what a parser may produce ----------

  /** Every key has at least one part, and no integer makes `parseInteger` panic. */
  predicate WellFormed(t: Tree)
    decreases t
  {
    match t
    case Leaf(kind, data) => kind.Integer? ==> data != [] && !Panics(data)
    case Array(ts) => WellFormedAll(ts)
    case InlineTable(ps) => WellFormedPairs(ps)
  }

  predicate WellFormedAll(ts: seq<Tree>)
    decreases ts
  {
    ts == [] || (WellFormed(ts[0]) && WellFormedAll(ts[1..]))
  }

  predicate WellFormedPair(p: Pair)
    decreases p
  {
    p.key != [] && WellFormed(p.value)
  }

  predicate WellFormedPairs(ps: seq<Pair>)
    decreases ps
  {
    ps == [] || (WellFormedPair(ps[0]) && WellFormedPairs(ps[1..]))
  }

  predicate WellFormedExpression(e: Expression) {
    match e
    case KeyValue(p) => WellFormedPair(p)
    case TableHeader(key) => key != []
    case ArrayTableHeader(key) => key != []
  }

  // ---------- layout ----------

  /** Blocks in a row, the root of each pointing at the root of the next. */
  function Chained(bs: seq<Block>): seq<Node> {
    if bs == [] then [] else if |bs| == 1 then bs[0] else WithNext(bs[0], |bs[0]|) + Chained(bs[1..])
  }

  /** A parent, pointing at its first child if it has one, and its children. */
  function Family(kind: NodeKind, bs: seq<Block>): Block {
    [Node(kind, [], 0, if bs == [] then 0 else 1)] + Chained(bs)
  }

  /** The key parts of a key-value, table or array table. */
  function KeyNodes(ks: seq<Text>): (ns: seq<Node>)
    ensures |ns| == |ks|
  {
    if ks == [] then [] else [Node(KeyNode, ks[0], if |ks| == 1 then 0 else 1, 0)] + KeyNodes(ks[1..])
  }

  function Flatten(t: Tree): Block
    decreases t
  {
    match t
    case Leaf(kind, data) => [Node(Scalar(kind), data, 0, 0)]
    case Array(ts) => Family(ArrayNode, TreeBlocks(ts))
    case InlineTable(ps) => Family(InlineTableNode, PairBlocks(ps))
  }

  function TreeBlocks(ts: seq<Tree>): (bs: seq<Block>)
    ensures |bs| == |ts|
    decreases ts
  {
    if ts == [] then [] else [Flatten(ts[0])] + TreeBlocks(ts[1..])
  }

  /** The value follows the key parts in the array, but comes first among the children. */
  function FlattenPair(p: Pair): Block
    decreases p
  {
    [Node(KeyValueNode, [], 0, 1 + |p.key|)] + KeyNodes(p.key) + WithNext(Flatten(p.value), -|p.key|)
  }

  function PairBlocks(ps: seq<Pair>): (bs: seq<Block>)
    ensures |bs| == |ps|
    decreases ps
  {
    if ps == [] then [] else [FlattenPair(ps[0])] + PairBlocks(ps[1..])
  }

  function FlattenExpression(e: Expression): Block {
    match e
    case KeyValue(p) => FlattenPair(p)
    case TableHeader(key) => [Node(TableNode, [], 0, 1)] + KeyNodes(key)
    case ArrayTableHeader(key) => [Node(ArrayTableNode, [], 0, 1)] + KeyNodes(key)
  }

  // ---------- appending to a layout ----------

  /** Where the last block of a row starts. */
  function LastAt(bs: seq<Block>): (n: nat)
    requires bs != []
    ensures n + |bs[|bs| - 1]| == |Chained(bs)|
  {
    if |bs| == 1 then 0 else |bs[0]| + LastAt(bs[1..])
  }

  function SetNext(ns: seq<Node>, i: nat, next: int): seq<Node>
    requires i < |ns|
  {
    ns[i := ns[i].(next := next)]
  }

  function SetChild(ns: seq<Node>, i: nat, child: int): seq<Node>
    requires i < |ns|
  {
    ns[i := ns[i].(child := child)]
  }

  /** What `Chain` does to the array when a further block has been pushed. */
  lemma {:induction false} ChainMore(bs: seq<Block>, b: Block)
    requires bs != []
    ensures Chained(bs + [b]) == SetNext(Chained(bs), LastAt(bs), |Chained(bs)| - LastAt(bs)) + b
    ensures LastAt(bs + [b]) == |Chained(bs)|
  {
    var tail := bs[1..];
    assert (bs + [b])[0] == bs[0] && (bs + [b])[1..] == tail + [b];
    if |bs| > 1 {
      ChainMore(tail, b);
      assert SetNext(Chained(bs), LastAt(bs), |Chained(bs)| - LastAt(bs))
          == WithNext(bs[0], |bs[0]|) + SetNext(Chained(tail), LastAt(tail), |Chained(tail)| - LastAt(tail));
    }
  }

  /** What `PushAndChain` does to the nodes of a key. */
  lemma {:induction false} KeyMore(ks: seq<Text>, k: Text)
    requires ks != []
    ensures KeyNodes(ks + [k]) == SetNext(KeyNodes(ks), |ks| - 1, 1) + [Node(KeyNode, k, 0, 0)]
  {
    var tail := ks[1..];
    assert (ks + [k])[0] == ks[0] && (ks + [k])[1..] == tail + [k];
    if |ks| > 1 { KeyMore(tail, k); }
  }

  lemma {:induction false} TreeBlocksMore(ts: seq<Tree>, t: Tree)
    ensures TreeBlocks(ts + [t]) == TreeBlocks(ts) + [Flatten(t)]
  {
    if ts != [] {
      assert (ts + [t])[1..] == ts[1..] + [t];
      TreeBlocksMore(ts[1..], t);
    }
  }

  lemma {:induction false} PairBlocksMore(ps: seq<Pair>, p: Pair)
    ensures PairBlocks(ps + [p]) == PairBlocks(ps) + [FlattenPair(p)]
  {
    if ps != [] {
      assert (ps + [p])[1..] == ps[1..] + [p];
      PairBlocksMore(ps[1..], p);
    }
  }

  // ---------- walking the offsets ----------

  /** The tree found at index r by following `Child` and `Next`. */
  predicate Shows(ns: seq<Node>, r: int, t: Tree)
    decreases t
  {
    0 <= r < |ns| &&
    match t
    case Leaf(kind, data) => ns[r].kind == Scalar(kind) && ns[r].data == data && ns[r].child == 0
    case Array(ts) => ns[r].kind == ArrayNode &&
        if ns[r].child == 0 then ts == [] else ShowsAll(ns, r + ns[r].child, ts)
    case InlineTable(ps) =>
      ns[r].kind == InlineTableNode && if ns[r].child == 0 then ps == [] else ShowsPairs(ns, r + ns[r].child, ps)
  }

  predicate ShowsAll(ns: seq<Node>, r: int, ts: seq<Tree>)
    decreases ts
  {
    ts != [] && Shows(ns, r, ts[0]) && if ns[r].next == 0 then |ts| == 1 else ShowsAll(ns, r + ns[r].next, ts[1..])
  }

  /** The value is the first child of a key-value, its key parts are the siblings behind it. */
  predicate ShowsPair(ns: seq<Node>, r: int, p: Pair)
    decreases p
  {
    && 0 <= r < |ns| && ns[r].kind == KeyValueNode && ns[r].child != 0
    && var v := r + ns[r].child;
       Shows(ns, v, p.value) && ns[v].next != 0 && ShowsKey(ns, v + ns[v].next, p.key)
  }

  predicate ShowsPairs(ns: seq<Node>, r: int, ps: seq<Pair>)
    decreases ps
  {
    ps != [] && ShowsPair(ns, r, ps[0]) &&
        if ns[r].next == 0 then |ps| == 1 else ShowsPairs(ns, r + ns[r].next, ps[1..])
  }

  predicate ShowsKey(ns: seq<Node>, r: int, ks: seq<Text>)
    decreases ks
  {
    && ks != [] && 0 <= r < |ns| && ns[r].kind == KeyNode && ns[r].data == ks[0] && ns[r].child == 0
    && if ns[r].next == 0 then |ks| == 1 else ShowsKey(ns, r + ns[r].next, ks[1..])
  }

  predicate ShowsExpression(ns: seq<Node>, r: int, e: Expression) {
    match e
    case KeyValue(p) => ShowsPair(ns, r, p)
    case TableHeader(key) => 0 <= r < |ns| && ns[r].kind == TableNode && ns[r].child != 0 &&
        ShowsKey(ns, r + ns[r].child, key)
    case ArrayTableHeader(key) =>
      0 <= r < |ns| && ns[r].kind == ArrayTableNode && ns[r].child != 0 && ShowsKey(ns, r + ns[r].child, key)
  }

  // ---------- layouts show their trees ----------

  predicate At(ns: seq<Node>, r: nat, b: seq<Node>) {
    r + |b| <= |ns| && ns[r..r + |b|] == b
  }

  lemma AtParts(ns: seq<Node>, r: nat, a: seq<Node>, b: seq<Node>)
    requires At(ns, r, a + b)
    ensures At(ns, r, a) && At(ns, r + |a|, b)
  {
    assert ns[r..r + |a|] == (a + b)[..|a|];
    assert ns[r + |a|..r + |a| + |b|] == (a + b)[|a|..];
  }

  lemma AtRoot(ns: seq<Node>, r: nat, b: Block)
    requires At(ns, r, b)
    ensures ns[r] == b[0]
  {
    assert ns[r..r + |b|][0] == ns[r];
  }

  /** A key part by part: every part points at the one behind it. */
  lemma {:induction false} KeyShown(ns: seq<Node>, r: nat, ks: seq<Text>)
    requires ks != [] && At(ns, r, KeyNodes(ks))
    ensures ShowsKey(ns, r, ks)
    decreases ks
  {
    var head := [KeyNodes(ks)[0]];
    AtParts(ns, r, head, KeyNodes(ks[1..]));
    AtRoot(ns, r, head);
    if |ks| > 1 { KeyShown(ns, r + 1, ks[1..]); }
  }

  lemma {:induction false} TreeShown(ns: seq<Node>, r: nat, t: Tree, next: int)
    requires At(ns, r, WithNext(Flatten(t), next))
    requires WellFormed(t)
    ensures Shows(ns, r, t) && ns[r].next == next
    decreases t, 1
  {
    AtRoot(ns, r, WithNext(Flatten(t), next));
    match t
    case Leaf(_, _) =>
    case Array(ts) =>
      if ts != [] {
        AtFamily(ns, r, ArrayNode, TreeBlocks(ts), next);
        TreesShown(ns, r + 1, ts);
      }
    case InlineTable(ps) =>
      if ps != [] {
        AtFamily(ns, r, InlineTableNode, PairBlocks(ps), next);
        PairsShown(ns, r + 1, ps);
      }
  }

  lemma AtFamily(ns: seq<Node>, r: nat, kind: NodeKind, bs: seq<Block>, next: int)
    requires At(ns, r, WithNext(Family(kind, bs), next))
    ensures At(ns, r + 1, Chained(bs))
  {
    var parent := Node(kind, [], next, if bs == [] then 0 else 1);
    assert WithNext(Family(kind, bs), next) == [parent] + Chained(bs);
    AtParts(ns, r, [parent], Chained(bs));
  }

  lemma {:induction false} TreesShown(ns: seq<Node>, r: nat, ts: seq<Tree>)
    requires ts != [] && At(ns, r, Chained(TreeBlocks(ts))) && WellFormedAll(ts)
    ensures ShowsAll(ns, r, ts)
    decreases ts, 0
  {
    var bs := TreeBlocks(ts);
    if |ts| == 1 {
      assert WithNext(bs[0], 0) == bs[0] by { RootHasNoNext(ts[0]); }
      TreeShown(ns, r, ts[0], 0);
    } else {
      AtParts(ns, r, WithNext(bs[0], |bs[0]|), Chained(bs[1..]));
      TreeShown(ns, r, ts[0], |bs[0]|);
      assert bs[1..] == TreeBlocks(ts[1..]);
      TreesShown(ns, r + |bs[0]|, ts[1..]);
    }
  }

  lemma RootHasNoNext(t: Tree)
    ensures Flatten(t)[0].next == 0
  {
  }

  lemma PairLayout(p: Pair, next: int)
    ensures FlattenPair(p)[0].next == 0
    ensures WithNext(FlattenPair(p), next) ==
      [Node(KeyValueNode, [], next, 1 + |p.key|)] + (KeyNodes(p.key) + WithNext(Flatten(p.value), -|p.key|))
  {
    hide Flatten, KeyNodes;
  }

  lemma {:induction false} PairShown(ns: seq<Node>, r: nat, p: Pair, next: int)
    requires At(ns, r, WithNext(FlattenPair(p), next)) && WellFormedPair(p)
    ensures ShowsPair(ns, r, p) && ns[r].next == next
    decreases p, 1
  {
    hide Flatten, FlattenPair, KeyNodes, At, Shows, ShowsKey;
    PairLayout(p, next);
    var root := Node(KeyValueNode, [], next, 1 + |p.key|);
    var value := WithNext(Flatten(p.value), -|p.key|);
    AtParts(ns, r, [root], KeyNodes(p.key) + value);
    AtRoot(ns, r, [root]);
    AtParts(ns, r + 1, KeyNodes(p.key), value);
    KeyShown(ns, r + 1, p.key);
    TreeShown(ns, r + 1 + |p.key|, p.value, -|p.key|);
  }

  lemma {:induction false} PairsShown(ns: seq<Node>, r: nat, ps: seq<Pair>)
    requires ps != [] && At(ns, r, Chained(PairBlocks(ps))) && WellFormedPairs(ps)
    ensures ShowsPairs(ns, r, ps)
    decreases ps, 0
  {
    hide FlattenPair, At, ShowsPair, WellFormedPair;
    var bs := PairBlocks(ps);
    if |ps| == 1 {
      PairLayout(ps[0], 0);
      assert WithNext(bs[0], 0) == bs[0];
      PairShown(ns, r, ps[0], 0);
    } else {
      AtParts(ns, r, WithNext(bs[0], |bs[0]|), Chained(bs[1..]));
      PairShown(ns, r, ps[0], |bs[0]|);
      assert bs[1..] == PairBlocks(ps[1..]);
      PairsShown(ns, r + |bs[0]|, ps[1..]);
    }
  }

  /** The node array of an expression shows that expression at its root. */
  lemma ExpressionShown(e: Expression)
    requires WellFormedExpression(e)
    ensures ShowsExpression(FlattenExpression(e), 0, e)
  {
    var ns := FlattenExpression(e);
    match e
    case KeyValue(p) =>
      assert WithNext(ns, 0) == ns;
      PairShown(ns, 0, p, 0);
    case TableHeader(key) =>
      AtParts(ns, 0, [ns[0]], KeyNodes(key));
      KeyShown(ns, 1, key);
    case ArrayTableHeader(key) =>
      AtParts(ns, 0, [ns[0]], KeyNodes(key));
      KeyShown(ns, 1, key);
  }

  // ---------- iterators ----------

  /** The node behind r, or -1. */
  function NextOf(ns: seq<Node>, r: int): int
    requires 0 <= r < |ns|
  {
    if ns[r].next == 0 then -1 else r + ns[r].next
  }

  /** The nodes an iterator visits from r on, where -1 stands for none. */
  predicate Path(ns: seq<Node>, r: int, path: seq<int>)
    decreases path
  {
    if r == -1 then path == []
    else 0 <= r < |ns| && path != [] && path[0] == r && Path(ns, NextOf(ns, r), path[1..])
  }

  class Iterator {
    const nodes: seq<Node>
    var started: bool
    var node: int

    constructor (nodes: seq<Node>, node: int)
      ensures this.nodes == nodes && this.node == node && !started
    {
      this.nodes := nodes;
      this.node := node;
      started := false;
    }

    method Next() returns (more: bool)
      requires started && node != -1 ==> 0 <= node < |nodes|
      modifies this
      ensures started && more == (node != -1)
      ensures node == if old(started && node != -1) then NextOf(nodes, old(node)) else old(node)
    {
      if !started {
        started := true;
      } else if node != -1 {
        node := if nodes[node].next == 0 then -1 else node + nodes[node].next;
      }
      more := node != -1;
    }
  }

  /** Running an iterator visits its path, and stops. */
  method Visit(ns: seq<Node>, first: int, ghost path: seq<int>) returns (visited: seq<int>)
    requires Path(ns, first, path)
    ensures visited == path
  {
    var it := new Iterator(ns, first);
    visited := [];
    ghost var left := path;
    var more := it.Next();
    while more
      invariant it.nodes == ns && it.started && more == (it.node != -1)
      invariant Path(ns, it.node, left) && visited + left == path
      decreases |left|
    {
      visited := visited + [it.node];
      left := left[1..];
      more := it.Next();
    }
  }

  /** The roots of the blocks of a row. */
  lemma {:induction false} RowPath(ns: seq<Node>, r: int, ts: seq<Tree>) returns (path: seq<int>)
    requires ShowsAll(ns, r, ts)
    ensures Path(ns, r, path) && |path| == |ts| && forall i :: 0 <= i < |ts| ==> Shows(ns, path[i], ts[i])
    decreases ts
  {
    var rest: seq<int> := [];
    if |ts| > 1 { rest := RowPath(ns, r + ns[r].next, ts[1..]); }
    path := [r] + rest;
    assert path[1..] == rest;
    assert forall i :: 1 <= i < |ts| ==> path[i] == rest[i - 1] && ts[i] == ts[1..][i - 1];
  }

  lemma {:induction false} PairPath(ns: seq<Node>, r: int, ps: seq<Pair>) returns (path: seq<int>)
    requires ShowsPairs(ns, r, ps)
    ensures Path(ns, r, path) && |path| == |ps| && forall i :: 0 <= i < |ps| ==> ShowsPair(ns, path[i], ps[i])
    decreases ps
  {
    var rest: seq<int> := [];
    if |ps| > 1 { rest := PairPath(ns, r + ns[r].next, ps[1..]); }
    path := [r] + rest;
    assert path[1..] == rest;
    assert forall i :: 1 <= i < |ps| ==> path[i] == rest[i - 1] && ps[i] == ps[1..][i - 1];
  }

  lemma {:induction false} KeyPath(ns: seq<Node>, r: int, ks: seq<Text>) returns (path: seq<int>)
    requires ShowsKey(ns, r, ks)
    ensures Path(ns, r, path) && |path| == |ks|
    ensures forall i :: 0 <= i < |ks| ==> 0 <= path[i] < |ns| && ns[path[i]].data == ks[i]
    decreases ks
  {
    var rest: seq<int> := [];
    if |ks| > 1 { rest := KeyPath(ns, r + ns[r].next, ks[1..]); }
    path := [r] + rest;
    assert path[1..] == rest;
    assert forall i :: 1 <= i < |ks| ==> path[i] == rest[i - 1] && ks[i] == ks[1..][i - 1];
  }

  /** `Children`: one node for each element or pair, in the order of the source. */
  method Children(ns: seq<Node>, r: int, ghost t: Tree) returns (refs: seq<int>)
    requires Shows(ns, r, t)
    ensures t.Leaf? ==> refs == []
    ensures t.Array? ==> |refs| == |t.elements| && forall i :: 0 <= i < |refs| ==> Shows(ns, refs[i], t.elements[i])
    ensures t.InlineTable? ==> |refs| == |t.pairs| && forall i :: 0 <= i < |refs| ==> ShowsPair(ns, refs[i], t.pairs[i])
  {
    var first := if ns[r].child == 0 then -1 else r + ns[r].child;
    ghost var path := [];
    if ns[r].child != 0 && t.Array? {
      assert Shows(ns, first, t.elements[0]);
      path := RowPath(ns, first, t.elements);
    }
    if ns[r].child != 0 && t.InlineTable? {
      assert ShowsPair(ns, first, t.pairs[0]);
      path := PairPath(ns, first, t.pairs);
    }
    refs := Visit(ns, first, path);
  }

  function KeyOf(e: Expression): seq<Text> {
    if e.KeyValue? then e.pair.key else e.key
  }

  /** `Key`: the parts of the key of an expression, in the order of the source. */
  method Key(ns: seq<Node>, r: int, ghost e: Expression) returns (parts: seq<Text>)
    requires ShowsExpression(ns, r, e)
    ensures parts == KeyOf(e)
  {
    var first := r + ns[r].child;
    if ns[r].kind == KeyValueNode {
      assert Shows(ns, first, e.pair.value);
      first := first + ns[first].next;
    }
    ghost var path := KeyPath(ns, first, KeyOf(e));
    var refs := Visit(ns, first, path);
    parts := seq(|refs|, i requires 0 <= i < |refs| => ns[refs[i]].data);
  }

  // ---------- a node array shows one tree only ----------

  lemma {:induction false} OneTree(ns: seq<Node>, r: int, t: Tree, u: Tree)
    requires Shows(ns, r, t) && Shows(ns, r, u)
    ensures t == u
    decreases t, 1
  {
    match t
    case Leaf(_, _) =>
    case Array(ts) =>
      if ts != [] { OneRow(ns, r + ns[r].child, ts, u.elements); }
    case InlineTable(ps) =>
      if ps != [] { OnePairRow(ns, r + ns[r].child, ps, u.pairs); }
  }

  lemma {:induction false} OneRow(ns: seq<Node>, r: int, ts: seq<Tree>, us: seq<Tree>)
    requires ShowsAll(ns, r, ts) && ShowsAll(ns, r, us)
    ensures ts == us
    decreases ts, 0
  {
    OneTree(ns, r, ts[0], us[0]);
    if |ts| > 1 { OneRow(ns, r + ns[r].next, ts[1..], us[1..]); }
    assert ts == [ts[0]] + ts[1..] && us == [us[0]] + us[1..];
  }

  lemma {:induction false} OneKey(ns: seq<Node>, r: int, ks: seq<Text>, ls: seq<Text>)
    requires ShowsKey(ns, r, ks) && ShowsKey(ns, r, ls)
    ensures ks == ls
    decreases ks
  {
    if |ks| > 1 { OneKey(ns, r + ns[r].next, ks[1..], ls[1..]); }
    assert ks == [ks[0]] + ks[1..] && ls == [ls[0]] + ls[1..];
  }

  lemma {:induction false} OnePair(ns: seq<Node>, r: int, p: Pair, q: Pair)
    requires ShowsPair(ns, r, p) && ShowsPair(ns, r, q)
    ensures p == q
    decreases p, 1
  {
    var v := r + ns[r].child;
    OneTree(ns, v, p.value, q.value);
    OneKey(ns, v + ns[v].next, p.key, q.key);
  }

  lemma {:induction false} OnePairRow(ns: seq<Node>, r: int, ps: seq<Pair>, qs: seq<Pair>)
    requires ShowsPairs(ns, r, ps) && ShowsPairs(ns, r, qs)
    ensures ps == qs
    decreases ps, 0
  {
    OnePair(ns, r, ps[0], qs[0]);
    if |ps| > 1 { OnePairRow(ns, r + ns[r].next, ps[1..], qs[1..]); }
    assert ps == [ps[0]] + ps[1..] && qs == [qs[0]] + qs[1..];
  }

  lemma OneExpression(ns: seq<Node>, r: int, e: Expression, f: Expression)
    requires ShowsExpression(ns, r, e) && ShowsExpression(ns, r, f)
    ensures e == f
  {
    match e
    case KeyValue(p) => OnePair(ns, r, p, f.pair);
    case TableHeader(key) => OneKey(ns, r + ns[r].child, key, f.key);
    case ArrayTableHeader(key) => OneKey(ns, r + ns[r].child, key, f.key);
  }
}
