/**
  The encoder of utoml/marshaler.go in key-value position, where tables are inline:
  strings, integers, booleans, arrays and inline tables.
*/
module TomlPrinter {
  import opened TomlText
  import opened TomlStrings
  import opened TomlGrammar

  datatype Value =
    | Str(s: Text)
    | Int(i: int)
    | Boolean(b: bool)
    | List(elements: seq<Value>)
    | Table(entries: seq<Entry>)

  /** A key with its value; `multiline` is the option of the same name. */
  datatype Entry = Entry(key: Text, multiline: bool, value: Value)

  /** The settings of the encoder. */
  datatype Format = Format(arraysMultiline: bool, indentSymbol: Text, indentTables: bool)

  // ---------- measures ----------

  function Size(v: Value): nat {
    match v
    case List(vs) => 1 + SizeAll(vs)
    case Table(es) => 1 + SizeEntries(es)
    case _ => 1
  }

  function SizeAll(vs: seq<Value>): nat {
    if vs == [] then 0 else Size(vs[0]) + SizeAll(vs[1..]) + 1
  }

  function SizeEntries(es: seq<Entry>): nat {
    if es == [] then 0 else Size(es[0].value) + SizeEntries(es[1..]) + 1
  }

  // ---------- printing ----------

  /** `strconv.AppendInt` in base 10. */
  function Decimal(i: int): Text {
    if i < 0 then "-" + Digits(-i) else Digits(i)
  }

  function Digits(n: nat): (d: Text)
    ensures d != [] && forall k :: 0 <= k < |d| ==> IsDigit(d[k])
  {
    if n < 10 then [(n + '0' as int) as char] else Digits(n / 10) + [(n % 10 + '0' as int) as char]
  }

  /** `indent` */
  function Indent(f: Format, level: nat): Text {
    if level == 0 then [] else Indent(f, level - 1) + f.indentSymbol
  }

  predicate BareKey(k: Text) {
    forall i :: 0 <= i < |k| ==> IsKeyChar(k[i])
  }

  /** `encodeKey` */
  function PrintKey(k: Text): Text {
    if k == [] then "''" else if BareKey(k) then k else Quoted(false, k)
  }

  /** `encode` of a value inside a key-value pair. */
  function Print(f: Format, v: Value, multiline: bool, indent: nat): Text
    decreases Size(v), 1
  {
    match v
    case Str(s) => Quoted(multiline, s)
    case Int(i) => Decimal(i)
    case Boolean(b) => if b then "true" else "false"
    case List(vs) =>
      if vs == [] then "[]"
      else
        var multi := multiline || f.arraysMultiline;
        (if multi then "[\n" else "[ ") + PrintElements(f, vs, multi, indent, true)
    case Table(es) => "{ " + PrintEntries(f, es, indent, true)
  }

  /** The loop of `encodeSliceAsArray` from some element on, and the closing bracket. */
  function PrintElements(f: Format, vs: seq<Value>, multi: bool, indent: nat, first: bool): Text
    decreases SizeAll(vs), 0
  {
    if vs == [] then (if multi then "\n" + Indent(f, indent) else " ") + "]"
    else
      (if first then "" else if multi then ",\n" else ", ")
      + (if multi then Indent(f, indent + 1) else "")
      + Print(f, vs[0], false, if multi then indent + 1 else indent)
      + PrintElements(f, vs[1..], multi, indent, false)
  }

  /** `encodeKv` */
  function PrintPair(f: Format, e: Entry, indent: nat): Text
    decreases Size(e.value), 2
  {
    PrintKey(e.key) + " = " + Print(f, e.value, e.multiline, indent)
  }

  /** The loop of `encodeTableInline` from some entry on, and the closing brace. */
  function PrintEntries(f: Format, es: seq<Entry>, indent: nat, first: bool): Text
    decreases SizeEntries(es), 0
  {
    if es == [] then " }"
    else (if first then "" else ", ") + PrintPair(f, es[0], indent) + PrintEntries(f, es[1..], indent, false)
  }

  // ---------- what a value should parse to ----------

  function TreeOf(v: Value): Tree
    decreases Size(v), 0
  {
    match v
    case Str(s) => Leaf(String, s)
    case Int(i) => Leaf(Integer, Decimal(i))
    case Boolean(b) => Leaf(Bool, if b then "true" else "false")
    case List(vs) => Array(TreesOf(vs))
    case Table(es) => InlineTable(PairsOf(es))
  }

  function TreesOf(vs: seq<Value>): seq<Tree>
    decreases SizeAll(vs)
  {
    if vs == [] then [] else [TreeOf(vs[0])] + TreesOf(vs[1..])
  }

  function PairOf(e: Entry): Pair
    decreases Size(e.value), 1
  {
    Pair([e.key], TreeOf(e.value))
  }

  function PairsOf(es: seq<Entry>): seq<Pair>
    decreases SizeEntries(es)
  {
    if es == [] then [] else [PairOf(es[0])] + PairsOf(es[1..])
  }
}
