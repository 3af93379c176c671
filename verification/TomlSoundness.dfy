/**
  What every successful parse function returns, on every byte string: a suffix of its input, and a
  tree whose keys have parts and whose integers `parseInteger` accepts without panicking.
*/
module TomlSoundness {
  import opened TomlText
  import opened TomlStrings
  import opened TomlGrammar
  import opened TomlNumbers
  import opened TomlNodes

  predicate Suffix(r: Text, b: Text) {
    |r| <= |b| && b[|b| - |r|..] == r
  }

  lemma SuffixOf(b: Text, n: nat)
    requires n <= |b|
    ensures Suffix(b[n..], b)
  {
  }

  lemma Transitive(a: Text, b: Text, c: Text)
    requires Suffix(a, b) && Suffix(b, c)
    ensures Suffix(a, c)
  {
    var k := |c| - |b|;
    assert b == c[k..];
    assert a == c[k..][|b| - |a|..] == c[|c| - |a|..];
  }

  lemma NewlineSuffix(b: Text)
    requires b != []
    ensures SkipNewlineOrErr(b).Ok? ==> Suffix(SkipNewlineOrErr(b).value, b)
    ensures SkipComment(b).Ok? ==> Suffix(SkipComment(b).value, b)
  {
  }

  lemma WsSuffix(b: Text)
    ensures Suffix(SkipWs(b), b)
  {
  }

  lemma {:induction false} LinesSuffix(b: Text)
    ensures SkipLines(b).Ok? ==> Suffix(SkipLines(b).value, b)
    decreases |b|
  {
    hide Suffix, SkipWs, SkipComment, SkipNewlineOrErr;
    var b1 := SkipWs(b);
    WsSuffix(b);
    if b1 != [] { NewlineSuffix(b1); }
    assert Suffix(b1, b1) by { SuffixOf(b1, 0); assert b1[0..] == b1; }
    var b2 := if b1 != [] && b1[0] == '#' then SkipComment(b1) else Ok(b1);
    if b2.Ok? {
      Transitive(b2.value, b1, b);
      if b2.value != [] && (b2.value[0] == '\n' || b2.value[0] == '\r') {
        NewlineSuffix(b2.value);
        var b4 := SkipNewlineOrErr(b2.value);
        if b4.Ok? {
          Transitive(b4.value, b2.value, b);
          LinesSuffix(b4.value);
          if SkipLines(b4.value).Ok? { Transitive(SkipLines(b4.value).value, b4.value, b); }
        }
      }
    }
  }

  lemma SimpleKeySuffix(b: Text)
    ensures ParseSimpleKey(b).Ok? ==> Suffix(ParseSimpleKey(b).value.1, b)
  {
    hide BasicEnd, LiteralEnd, DecodeBasic, TomlValid, HasBackslash, KeyEnd;
  }

  lemma {:induction false} KeyRestSuffix(b: Text)
    ensures ParseKeyRest(b).Ok? ==> Suffix(ParseKeyRest(b).value.1, b)
    decreases |b|
  {
    hide Suffix, SkipWs, ParseSimpleKey;
    var b1 := SkipWs(b);
    WsSuffix(b);
    if b1 != [] && b1[0] == '.' {
      SuffixOf(b1, 1);
      Transitive(b1[1..], b1, b);
      var b2 := SkipWs(b1[1..]);
      WsSuffix(b1[1..]);
      Transitive(b2, b1[1..], b);
      SimpleKeySuffix(b2);
      if ParseSimpleKey(b2).Ok? {
        var b3 := ParseSimpleKey(b2).value.1;
        Transitive(b3, b2, b);
        KeyRestSuffix(b3);
        if ParseKeyRest(b3).Ok? { Transitive(ParseKeyRest(b3).value.1, b3, b); }
      }
    }
  }

  lemma KeySuffix(b: Text)
    ensures ParseKey(b).Ok? ==> Suffix(ParseKey(b).value.1, b)
  {
    hide Suffix, ParseSimpleKey, ParseKeyRest;
    SimpleKeySuffix(b);
    if ParseSimpleKey(b).Ok? {
      var b1 := ParseSimpleKey(b).value.1;
      KeyRestSuffix(b1);
      if ParseKeyRest(b1).Ok? { Transitive(ParseKeyRest(b1).value.1, b1, b); }
    }
  }

  /** No Integer token makes `parseInteger` panic. */
  lemma NumberIsSafe(b: Text)
    requires b != []
    ensures ScanNumber(b).Ok? && ScanNumber(b).value.0.Integer? ==> !Panics(b[..ScanNumber(b).value.1])
  {
    if b[0] == '0' && |b| > 2 && (b[1] == '.' || b[1] == 'e' || b[1] == 'E') {
      FloatStays(b[2..]);
      assert b[1..][1..] == b[2..];
      assert NumberEnd(b[1..], false) == PlusOne(NumberEnd(b[2..], true));
    }
  }

  /** Once a number has a fraction or an exponent, it is a float. */
  lemma {:induction false} FloatStays(b: Text)
    ensures NumberEnd(b, true).Ok? ==> NumberEnd(b, true).value.1
  {
    if b != [] { FloatStays(b[1..]); }
  }

  lemma ScalarIsSafe(b: Text)
    requires b != []
    ensures ScanScalar(b).Ok? && ScanScalar(b).value.0.Integer? ==> !Panics(b[..ScanScalar(b).value.1])
  {
    hide ScanNumber, DateTimeEnd;
    NumberIsSafe(b);
  }

  lemma StringSuffix(b: Text)
    requires b != []
    ensures ParseString(b).Ok? ==> Suffix(ParseString(b).value.1, b)
    ensures ParseLiteral(b).Ok? ==> Suffix(ParseLiteral(b).value.1, b)
    ensures Starts(b, "'''") && ParseMultilineLiteral(b).Ok? ==> Suffix(ParseMultilineLiteral(b).value.1, b)
  {
    hide BasicEnd, MultilineEnd, LiteralEnd, MultilineLiteralEnd, DecodeBasic, DecodeMultiline, TomlValid, HasBackslash,
        SkipNewline;
  }

  /** The main statement, by the mutual recursion of the parser. */
  lemma {:induction false} ValueSound(b: Text)
    ensures ParseVal(b).Ok? ==> WellFormed(ParseVal(b).value.0) && Suffix(ParseVal(b).value.1, b)
    decreases |b|, 2
  {
    hide Suffix, ParseString, ParseLiteral, ParseMultilineLiteral, ScanScalar, ParseElements, ParsePairs, Panics;
    if b != [] {
      StringSuffix(b);
      SuffixOf(b, 1);
      if b[0] == '[' {
        ElementsSound(b[1..], true);
        if ParseElements(b[1..], true).Ok? { Transitive(ParseElements(b[1..], true).value.1, b[1..], b); }
      } else if b[0] == '{' {
        PairsSound(b[1..], true);
        if ParsePairs(b[1..], true).Ok? { Transitive(ParsePairs(b[1..], true).value.1, b[1..], b); }
      } else if |b| >= 4 && b[0] == 't' {
        SuffixOf(b, 4);
      } else if |b| >= 5 && b[0] == 'f' {
        SuffixOf(b, 5);
      } else if b[0] != '"' && b[0] != '\'' && ScanScalar(b).Ok? {
        ScalarIsSafe(b);
        SuffixOf(b, ScanScalar(b).value.1);
      }
    }
  }

  lemma ToElementSuffix(b: Text, first: bool)
    ensures ToElement(b, first).Ok? ==> Suffix(ToElement(b, first).value, b)
  {
    hide Suffix, SkipLines;
    LinesSuffix(b);
    if SkipLines(b).Ok? && SkipLines(b).value != [] {
      var b1 := SkipLines(b).value;
      SuffixOf(b1, 1);
      LinesSuffix(b1[1..]);
      Transitive(b1[1..], b1, b);
      if SkipLines(b1[1..]).Ok? { Transitive(SkipLines(b1[1..]).value, b1[1..], b); }
    }
  }

  lemma {:induction false} ElementsSound(b: Text, first: bool)
    ensures var r := ParseElements(b, first); r.Ok? ==> WellFormedAll(r.value.0) && Suffix(r.value.1, b)
    decreases |b|, 3
  {
    hide Suffix, ToElement, SkipLines, ParseVal, WellFormed;
    ToElementSuffix(b, first);
    if ToElement(b, first).Ok? {
      var b1 := ToElement(b, first).value;
      if b1 != [] && b1[0] == ']' {
        SuffixOf(b1, 1);
        Transitive(b1[1..], b1, b);
      } else {
        ValueSound(b1);
        if ParseVal(b1).Ok? {
          var b2 := ParseVal(b1).value.1;
          Transitive(b2, b1, b);
          LinesSuffix(b2);
          if SkipLines(b2).Ok? {
            var b3 := SkipLines(b2).value;
            Transitive(b3, b2, b);
            ElementsSound(b3, false);
            if ParseElements(b3, false).Ok? { Transitive(ParseElements(b3, false).value.1, b3, b); }
          }
        }
      }
    }
  }

  lemma {:induction false} PairSound(b: Text)
    ensures ParsePair(b).Ok? ==> WellFormedPair(ParsePair(b).value.0) && Suffix(ParsePair(b).value.1, b)
    decreases |b|, 0
  {
    hide Suffix, ParseKey, SkipWs, ParseVal, WellFormed;
    KeySuffix(b);
    if ParseKey(b).Ok? {
      var b1 := ParseKey(b).value.1;
      WsSuffix(b1);
      var b2 := SkipWs(b1);
      Transitive(b2, b1, b);
      if b2 != [] {
        SuffixOf(b2, 1);
        Transitive(b2[1..], b2, b);
        WsSuffix(b2[1..]);
        var b3 := SkipWs(b2[1..]);
        Transitive(b3, b2[1..], b);
        ValueSound(b3);
        if ParseVal(b3).Ok? { Transitive(ParseVal(b3).value.1, b3, b); }
      }
    }
  }

  lemma ToPairSuffix(b: Text, first: bool)
    ensures ToPair(b, first).Ok? ==> Suffix(ToPair(b, first).value.1, b)
  {
    hide Suffix, SkipWs;
    var b1 := SkipWs(b);
    WsSuffix(b);
    if b1 != [] {
      SuffixOf(b1, 1);
      WsSuffix(b1[1..]);
      Transitive(b1[1..], b1, b);
      Transitive(SkipWs(b1[1..]), b1[1..], b);
    }
  }

  lemma {:induction false} PairsSound(b: Text, first: bool)
    ensures var r := ParsePairs(b, first); r.Ok? ==> WellFormedPairs(r.value.0) && Suffix(r.value.1, b)
    decreases |b|, 1
  {
    hide Suffix, ToPair, ParsePair, WellFormedPair;
    ToPairSuffix(b, first);
    if ToPair(b, first).Ok? {
      var (closed, b1) := ToPair(b, first).value;
      if closed {
        SuffixOf(b1, 1);
        Transitive(b1[1..], b1, b);
      } else {
        PairSound(b1);
        if ParsePair(b1).Ok? {
          var b2 := ParsePair(b1).value.1;
          Transitive(b2, b1, b);
          PairsSound(b2, false);
          if ParsePairs(b2, false).Ok? { Transitive(ParsePairs(b2, false).value.1, b2, b); }
        }
      }
    }
  }

  // ---------- expressions ----------

  lemma HeaderSound(b: Text)
    requires b != []
    ensures ParseHeader(b).Ok? ==> WellFormedExpression(ParseHeader(b).value.0) && Suffix(ParseHeader(b).value.1, b)
  {
    hide ParseKey, SkipWs;
    var n := if |b| > 1 && b[1] == '[' then 2 else 1;
    SuffixOf(b, n);
    var b0 := SkipWs(b[n..]);
    Then(b[n..], b);
    KeySuffix(b0);
    if ParseKey(b0).Ok? {
      var b1 := ParseKey(b0).value.1;
      Transitive(b1, b0, b);
      Then(b1, b);
      var b2 := SkipWs(b1);
      if b2 != [] { Dropped(b2, 1, b); }
      if |b2| > 1 { Dropped(b2, 2, b); }
    }
  }

  lemma Then(x: Text, b: Text)
    requires Suffix(x, b)
    ensures Suffix(SkipWs(x), b)
  {
    hide SkipWs, Suffix;
    WsSuffix(x);
    Transitive(SkipWs(x), x, b);
  }

  lemma Dropped(x: Text, n: nat, b: Text)
    requires Suffix(x, b) && n <= |x|
    ensures Suffix(x[n..], b) && (n == 2 ==> x[1..][1..] == x[2..])
  {
    hide Suffix;
    SuffixOf(x, n);
    Transitive(x[n..], x, b);
    if n == 2 { assert x[1..][1..] == x[2..]; }
  }

  lemma LineSound(b: Text)
    ensures ParseLine(b).Ok? ==> Suffix(ParseLine(b).value.1, b)
    ensures ParseLine(b).Ok? && ParseLine(b).value.0.Just? ==> WellFormedExpression(ParseLine(b).value.0.e)
  {
    hide ParsePair, ParseHeader, SkipComment, WellFormedPair, SkipWs, Suffix;
    var b1 := SkipWs(b);
    WsSuffix(b);
    if b1 != [] {
      HeaderSound(b1);
      PairSound(b1);
      CommentIn(b1, b);
      if b1[0] == '[' && ParseHeader(b1).Ok? {
        LineEnd(ParseHeader(b1).value.1, b1, b);
      } else if b1[0] != '[' && ParsePair(b1).Ok? {
        LineEnd(ParsePair(b1).value.1, b1, b);
      }
    }
  }

  lemma CommentIn(x: Text, b: Text)
    requires x != [] && Suffix(x, b)
    ensures SkipComment(x).Ok? ==> Suffix(SkipComment(x).value, b)
  {
    hide SkipComment, Suffix;
    NewlineSuffix(x);
    if SkipComment(x).Ok? { Transitive(SkipComment(x).value, x, b); }
  }

  /** What is left of a line behind its expression. */
  lemma LineEnd(x: Text, b1: Text, b: Text)
    requires Suffix(x, b1) && Suffix(b1, b)
    ensures Suffix(SkipWs(x), b)
    ensures SkipWs(x) != [] && SkipComment(SkipWs(x)).Ok? ==> Suffix(SkipComment(SkipWs(x)).value, b)
  {
    hide SkipComment, SkipWs, Suffix;
    Transitive(x, b1, b);
    Then(x, b);
    if SkipWs(x) != [] { CommentIn(SkipWs(x), b); }
  }

  lemma {:induction false} ExpressionSound(b: Text, first: bool)
    ensures var r := NextExpression(b, first); r.Ok? ==> Suffix(r.value.1, b)
    ensures var r := NextExpression(b, first); r.Ok? && r.value.0.Just? ==> WellFormedExpression(r.value.0.e)
    decreases |b|, first
  {
    hide ParseLine, WellFormedExpression, Suffix, SkipNewlineOrErr;
    NothingLeft(b);
    if b != [] && (first || SkipNewlineOrErr(b).Ok?) {
      NewlineSuffix(b);
      var b2 := if first then b else SkipNewlineOrErr(b).value;
      if b2 != [] {
        LineSound(b2);
        if ParseLine(b2).Ok? { Transitive(ParseLine(b2).value.1, b2, b); }
        match ParseLine(b2)
        case Ok((Nothing, rest)) =>
          ExpressionSound(rest, false);
          if NextExpression(rest, false).Ok? { Transitive(NextExpression(rest, false).value.1, rest, b); }
        case _ =>
      }
    }
  }

  lemma NothingLeft(b: Text)
    ensures Suffix([], b) && Suffix(b, b)
  {
    SuffixOf(b, |b|);
    SuffixOf(b, 0);
    assert b[|b|..] == [] && b[0..] == b;
  }

  /** Every expression the parser accepts is encoded by its node array, which shows it and nothing else. */
  lemma AcceptedIsShown(b: Text, first: bool, e: Expression, rest: Text)
    requires NextExpression(b, first) == Ok((Just(e), rest))
    ensures ShowsExpression(FlattenExpression(e), 0, e)
    ensures forall f :: ShowsExpression(FlattenExpression(e), 0, f) ==> f == e
  {
    hide ParseLine, WellFormedExpression, ShowsExpression, FlattenExpression;
    ExpressionSound(b, first);
    ExpressionShown(e);
    forall f | ShowsExpression(FlattenExpression(e), 0, f)
      ensures f == e
    {
      OneExpression(FlattenExpression(e), 0, e, f);
    }
  }
}
