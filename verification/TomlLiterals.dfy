/**
  What the parser reads beyond what the encoder prints: literal strings (section "String" of TOML 1.0.0), which hold
  their text as it stands.
*/
module TomlLiterals {
  import opened TomlText
  import opened TomlStrings
  import opened TomlGrammar
  import opened TomlDecoder

  // ---------- on one line ----------

  /** What may stand between the quotes of a literal string. */
  predicate LiteralText(s: Text) {
    TomlValid(s) && forall i :: 0 <= i < |s| ==> s[i] != '\'' && s[i] != '\n' && s[i] != '\r'
  }

  lemma {:induction false} LiteralEnds(s: Text, rest: Text)
    requires LiteralText(s)
    ensures LiteralEnd(s + ("'" + rest)) == Ok(|s| + 1)
    decreases |s|
  {
    var b := s + ("'" + rest);
    if s == [] {
      assert b == "'" + rest;
    } else {
      hide ValidNext;
      var n := ValidNext(s);
      NextStays(s, "'" + rest);
      assert b[n..] == s[n..] + ("'" + rest);
      LiteralEnds(s[n..], rest);
    }
  }

  lemma {:induction false} LiteralEndIsText(b: Text)
    requires LiteralEnd(b).Ok?
    ensures var n := LiteralEnd(b).value; b[n - 1] == '\'' && LiteralText(b[..n - 1])
    decreases |b|
  {
    hide *;
    LiteralEndStep(b);
    if b[0] == '\'' {
      assert b[..0] == [];
      NoLiteral();
    } else {
      var n, m := ValidNext(b), LiteralEnd(b).value;
      LiteralEndIsText(b[n..]);
      var front, back := b[..n], b[n..][..m - n - 1];
      Slices(b, n, m);
      RuneIsLiteral(b);
      LiteralJoins(front, back);
    }
  }

  lemma Slices(b: Text, n: nat, m: nat)
    requires n < m <= |b|
    ensures b[..m - 1] == b[..n] + b[n..][..m - n - 1] && b[m - 1] == b[n..][m - n - 1]
  {
  }

  lemma LiteralEndStep(b: Text)
    requires LiteralEnd(b).Ok?
    ensures b[0] == '\'' ==> LiteralEnd(b).value == 1
    ensures b[0] != '\'' ==>
      var n := ValidNext(b);
      && n > 0 && b[0] != '\n' && b[0] != '\r'
      && LiteralEnd(b[n..]).Ok? && LiteralEnd(b).value == n + LiteralEnd(b[n..]).value
  {
    hide ValidNext;
  }

  lemma NoLiteral()
    ensures LiteralText([])
  {
  }

  lemma RuneIsLiteral(b: Text)
    requires b != [] && ValidNext(b) > 0 && b[0] != '\'' && b[0] != '\n' && b[0] != '\r'
    ensures LiteralText(b[..ValidNext(b)])
  {
    RuneIsValid(b);
    RuneIsPlain(b);
    hide ValidNext, TomlValid;
  }

  lemma LiteralJoins(a: Text, b: Text)
    requires LiteralText(a) && LiteralText(b)
    ensures LiteralText(a + b)
  {
    hide TomlValid;
    ValidAppend(a, b);
  }

  /** The bytes behind the first of a rune are no ASCII. */
  lemma RuneIsPlain(b: Text)
    requires b != [] && ValidNext(b) > 0
    ensures forall i :: 1 <= i < ValidNext(b) ==> b[i] >= '\U{80}'
  {
  }

  lemma LiteralParts(s: Text, rest: Text)
    ensures var b := "'" + s + "'" + rest;
      && b[0] == '\'' && b[1..] == s + ("'" + rest) && b[1..|s| + 1] == s && b[|s| + 2..] == rest
      && b == "'" + (s + ("'" + rest))
  {
  }

  /** A literal string is read as the text between its quotes: exactly those texts, whatever follows. */
  lemma LiteralIff(b: Text, s: Text, rest: Text)
    requires b != [] && b[0] == '\''
    ensures ParseLiteral(b) == Ok((s, rest)) <==> b == "'" + s + "'" + rest && LiteralText(s)
  {
    hide LiteralEnd, LiteralText;
    if b == "'" + s + "'" + rest && LiteralText(s) {
      LiteralParts(s, rest);
      LiteralEnds(s, rest);
    }
    if ParseLiteral(b) == Ok((s, rest)) {
      LiteralEndIsText(b[1..]);
      var n := LiteralEnd(b[1..]).value;
      assert b[1..][..n - 1] == b[1..n];
      assert b == [b[0]] + b[1..n] + [b[n]] + b[n + 1..];
    }
  }

  /** As a key. */
  lemma LiteralKey(s: Text, rest: Text)
    requires LiteralText(s)
    ensures ParseSimpleKey("'" + s + "'" + rest) == Ok((s, rest))
  {
    hide ParseLiteral, LiteralText;
    LiteralParts(s, rest);
    LiteralIff("'" + s + "'" + rest, s, rest);
  }

  /** As a value; an empty one with a quote behind it is the beginning of the other form. */
  lemma LiteralValue(s: Text, rest: Text)
    requires LiteralText(s) && (s == [] ==> rest == [] || rest[0] != '\'')
    ensures ParseVal("'" + s + "'" + rest) == Ok((Leaf(String, s), rest))
  {
    var b := "'" + s + "'" + rest;
    hide ParseLiteral;
    LiteralParts(s, rest);
    LiteralIff(b, s, rest);
    assert s != [] ==> b[1] == s[0];
    assert s == [] && rest != [] ==> b[2] == rest[0];
    assert !Starts(b, "'''");
  }

  // ---------- on several lines ----------

  /** What may stand between the triple quotes: no three quotes in a row, and no carriage return without a newline. */
  predicate LinesText(s: Text) {
    && TomlValid(s)
    && (forall i :: 0 <= i < |s| - 2 ==> !(s[i] == '\'' && s[i + 1] == '\'' && s[i + 2] == '\''))
    && (forall i :: 0 <= i < |s| && s[i] == '\r' ==> i + 1 < |s| && s[i + 1] == '\n')
  }

  lemma LinesRest(s: Text, n: nat)
    requires LinesText(s) && n <= |s| && TomlValid(s[n..])
    ensures LinesText(s[n..])
  {
    hide TomlValid;
    var t := s[n..];
    assert forall i :: 0 <= i < |t| ==> t[i] == s[n + i];
  }

  predicate NoQuote(rest: Text) {
    rest == [] || rest[0] != '\''
  }

  /** Quotes at the end of the text and the closing ones: together three to five. */
  lemma QuotesClose(s: Text, rest: Text)
    requires |s| <= 2 && (forall i :: 0 <= i < |s| ==> s[i] == '\'') && NoQuote(rest)
    ensures var b := s + ("'''" + rest); Starts(b, "'''") && ClosingQuotes(b, '\'') == Ok(|s| + 3)
  {
    var b := s + ("'''" + rest);
    assert forall i :: 0 <= i < |s| + 3 ==> b[i] == '\'';
    assert rest != [] ==> b[|s| + 3] == rest[0];
    assert b[..3] == "'''";
  }

  lemma NotYetClosed(s: Text, rest: Text)
    requires LinesText(s) && s != [] && !(|s| <= 2 && forall i :: 0 <= i < |s| ==> s[i] == '\'')
    ensures !Starts(s + ("'''" + rest), "'''")
  {
    hide TomlValid;
    var b := s + ("'''" + rest);
    assert forall i :: 0 <= i < |s| ==> b[i] == s[i];
    StartsWithQuotes(b);
  }

  lemma StartsWithQuotes(b: Text)
    requires |b| >= 3
    ensures Starts(b, "'''") <==> b[0] == '\'' && b[1] == '\'' && b[2] == '\''
  {
    assert b[..3] == [b[0], b[1], b[2]];
  }

  lemma {:induction false} LinesEnd(s: Text, rest: Text)
    requires LinesText(s) && NoQuote(rest)
    ensures MultilineLiteralEnd(s + ("'''" + rest)) == Ok(|s| + 3)
    decreases |s|
  {
    hide ClosingQuotes, ValidNext;
    var b := s + ("'''" + rest);
    if |s| <= 2 && forall i :: 0 <= i < |s| ==> s[i] == '\'' {
      QuotesClose(s, rest);
      assert b[0] == '\'';
    } else {
      NotYetClosed(s, rest);
      assert b[0] == s[0];
      NextStays(s, "'''" + rest);
      var n := if s[0] == '\r' then 2 else ValidNext(s);
      if s[0] == '\r' {
        ReturnThenNewline(s);
        assert b[1] == s[1];
      }
      assert b[n..] == s[n..] + ("'''" + rest);
      LinesRest(s, n);
      LinesEnd(s[n..], rest);
    }
  }

  lemma ReturnThenNewline(s: Text)
    requires LinesText(s) && s != [] && s[0] == '\r'
    ensures |s| >= 2 && s[1] == '\n' && TomlValid(s[2..])
  {
    assert ValidNext(s) == 1 && TomlValid(s[1..]);
    assert ValidNext(s[1..]) == 1 && s[1..][1..] == s[2..];
  }

  /** The newline that may stand behind the opening quotes is no part of the text. */
  predicate IsNewline(nl: Text) {
    nl == "" || nl == "\n" || nl == "\r\n"
  }

  predicate StartsLine(s: Text) {
    (s != [] && s[0] == '\n') || Starts(s, "\r\n")
  }

  lemma NewlineFirst(nl: Text, s: Text)
    requires IsNewline(nl) && LinesText(s) && (nl == "" ==> !StartsLine(s))
    ensures LinesText(nl + s)
  {
    var t := nl + s;
    if nl == "" {
      assert t == s;
    } else {
      NewlineIsValid(nl, s);
      hide TomlValid;
      assert forall i :: |nl| <= i < |t| ==> t[i] == s[i - |nl|];
      forall i | 0 <= i < |t| - 2
        ensures !(t[i] == '\'' && t[i + 1] == '\'' && t[i + 2] == '\'')
      {
        if i >= |nl| { assert s[i - |nl|] == t[i] && s[i + 1 - |nl|] == t[i + 1] && s[i + 2 - |nl|] == t[i + 2]; }
      }
    }
  }

  lemma NewlineIsValid(nl: Text, s: Text)
    requires IsNewline(nl) && TomlValid(s)
    ensures TomlValid(nl + s)
  {
    if nl == "" {
      assert nl + s == s;
    } else if nl == "\n" {
      assert (nl + s)[1..] == s;
    } else {
      assert (nl + s)[1..] == "\n" + s && ("\n" + s)[1..] == s;
      assert TomlValid("\n" + s);
    }
  }

  lemma NewlineSkipped(nl: Text, s: Text)
    requires IsNewline(nl) && (nl == "" ==> !StartsLine(s))
    ensures SkipNewline(nl + s + "'''") == s + "'''"
  {
    var t := nl + s + "'''";
    if nl == "" {
      assert t == s + "'''";
      if s != [] { assert t[0] == s[0]; }
      if |s| >= 2 { assert t[1] == s[1]; }
    } else if nl == "\n" {
      assert t[1..] == s + "'''";
    } else {
      assert t[0] == '\r' && t[1] == '\n' && t[2..] == s + "'''";
    }
  }

  /** A literal string of several lines is read as the text between its quotes, without a newline at its beginning. */
  lemma LinesValue(nl: Text, s: Text, rest: Text)
    requires IsNewline(nl) && LinesText(s) && (nl == "" ==> !StartsLine(s)) && NoQuote(rest)
    ensures ParseVal("'''" + nl + s + "'''" + rest) == Ok((Leaf(String, s), rest))
  {
    LinesAreRead(nl, s, rest);
    hide ParseMultilineLiteral, LinesText, ParseElements, ParsePairs, ScanScalar;
    LinesToken("'''" + nl + s + "'''" + rest);
  }

  lemma LinesToken(b: Text)
    requires Starts(b, "'''")
    ensures ParseMultilineLiteral(b).Ok? ==>
      ParseVal(b) == Ok((Leaf(String, ParseMultilineLiteral(b).value.0), ParseMultilineLiteral(b).value.1))
  {
    hide ParseMultilineLiteral, ParseElements, ParsePairs, ScanScalar;
    assert b[0] == b[..3][0];
  }

  lemma LinesSlices(q: Text, nl: Text, s: Text, rest: Text)
    requires |q| == 3
    ensures var b, t := q + nl + s + q + rest, nl + s;
      && b[..3] == q && b[3..] == t + (q + rest) && b[3..3 + |t| + 3] == t + q && b[3 + |t| + 3..] == rest
      && (s + q)[..|s|] == s
  {
  }

  lemma LinesAreRead(nl: Text, s: Text, rest: Text)
    requires IsNewline(nl) && LinesText(s) && (nl == "" ==> !StartsLine(s)) && NoQuote(rest)
    ensures var b := "'''" + nl + s + "'''" + rest; Starts(b, "'''") && ParseMultilineLiteral(b) == Ok((s, rest))
  {
    hide MultilineLiteralEnd, SkipNewline, LinesText;
    LinesSlices("'''", nl, s, rest);
    NewlineFirst(nl, s);
    LinesEnd(nl + s, rest);
    NewlineSkipped(nl, s);
  }
}
