/**
  The loops of unstable/scanner.go and the string decoders of unstable/parser.go, by index into
  the input, each proved to compute the corresponding function on what is left of the input.
*/
module TomlScanner {
  import opened TomlText
  import opened TomlStrings
  import opened TomlGrammar

  /** What follows index i. */
  lemma Drop(b: Text, i: nat, n: nat)
    requires i + n <= |b|
    ensures b[i..][n..] == b[i + n..]
  {
  }

  method ScanWhitespace(b: Text) returns (rest: Text)
    ensures rest == SkipWs(b)
  {
    var i := 0;
    assert b[0..] == b;
    while i < |b|
      invariant i <= |b| && WsEnd(b) == i + WsEnd(b[i..])
    {
      if b[i] != ' ' && b[i] != '\t' { return b[i..]; }
      Drop(b, i, 1);
      i := i + 1;
    }
    return b[|b|..];
  }

  method ScanUnquotedKey(b: Text) returns (key: Text, rest: Text)
    ensures key == b[..KeyEnd(b)] && rest == b[KeyEnd(b)..]
  {
    var i := 0;
    assert b[0..] == b;
    while i < |b|
      invariant i <= |b| && KeyEnd(b) == i + KeyEnd(b[i..])
    {
      if !IsKeyChar(b[i]) { return b[..i], b[i..]; }
      Drop(b, i, 1);
      i := i + 1;
    }
    return b, b[|b|..];
  }

  /** A token of n bytes at the front, behind `skip` opening ones, and the text behind it. */
  function Token(b: Text, skip: nat, end: Result<nat>): Parsed
    requires skip <= |b| && (end.Ok? ==> skip + end.value <= |b|)
  {
    match end
    case Ok(n) => Ok((b[..skip + n], b[skip + n..]))
    case Err => Err
  }

  lemma LiteralStep(b: Text, i: nat)
    requires i <= |b|
    ensures LiteralEnd(b[i..]) ==
      if i == |b| then Err
      else if b[i] == '\'' then Ok(1)
      else if b[i] == '\n' || b[i] == '\r' || ValidNext(b[i..]) == 0 then Err
      else Plus(ValidNext(b[i..]), LiteralEnd(b[i + ValidNext(b[i..])..]))
  {
    if i < |b| {
      assert b[i..][0] == b[i];
      hide ValidNext, Plus;
      Drop(b, i, ValidNext(b[i..]));
    }
  }

  method ScanLiteralString(b: Text) returns (r: Parsed)
    requires b != []
    ensures r == Token(b, 1, LiteralEnd(b[1..]))
  {
    hide LiteralEnd, ValidNext;
    var i := 1;
    while i < |b|
      invariant 1 <= i <= |b| && LiteralEnd(b[1..]) == Plus(i - 1, LiteralEnd(b[i..]))
    {
      LiteralStep(b, i);
      if b[i] == '\'' { return Ok((b[..i + 1], b[i + 1..])); }
      if b[i] == '\n' || b[i] == '\r' { return Err; }
      var size := ValidNext(b[i..]);
      if size == 0 { return Err; }
      i := i + size;
    }
    LiteralStep(b, i);
    return Err;
  }

  lemma MultilineLiteralStep(b: Text, i: nat)
    requires i <= |b|
    ensures MultilineLiteralEnd(b[i..]) ==
      if i == |b| then Err
      else if b[i] == '\'' && Starts(b[i..], "'''") then ClosingQuotes(b[i..], '\'')
      else if b[i] == '\r' then
        if |b| < i + 2 || b[i + 1] != '\n' then Err else Plus(2, MultilineLiteralEnd(b[i + 2..]))
      else if ValidNext(b[i..]) == 0 then Err
      else Plus(ValidNext(b[i..]), MultilineLiteralEnd(b[i + ValidNext(b[i..])..]))
  {
    if i < |b| {
      assert b[i..][0] == b[i];
      hide ValidNext, Plus, ClosingQuotes;
      Drop(b, i, ValidNext(b[i..]));
      if |b| >= i + 2 { Drop(b, i, 2); }
    }
  }

  /** A token with three opening and three closing quotes. */
  predicate Closed(token: Text, quote: char) {
    |token| >= 6 && token[|token| - 3] == quote && token[|token| - 2] == quote && token[|token| - 1] == quote
  }

  method ScanMultilineLiteralString(b: Text) returns (r: Parsed)
    requires Starts(b, "'''")
    ensures r == Token(b, 3, MultilineLiteralEnd(b[3..]))
    ensures r.Ok? ==> Closed(r.value.0, '\'')
  {
    hide MultilineLiteralEnd, ValidNext, ClosingQuotes;
    var i := 3;
    while i < |b|
      invariant 3 <= i <= |b| && MultilineLiteralEnd(b[3..]) == Plus(i - 3, MultilineLiteralEnd(b[i..]))
    {
      MultilineLiteralStep(b, i);
      if b[i] == '\'' && Starts(b[i..], "'''") {
        var end := EagerQuotes(b, i, '\'');
        match end
        case Err => return Err;
        case Ok(j) => return Ok((b[..j], b[j..]));
      }
      if b[i] == '\r' {
        if |b| < i + 2 || b[i + 1] != '\n' { return Err; }
        i := i + 2;
      } else {
        var size := ValidNext(b[i..]);
        if size == 0 { return Err; }
        i := i + size;
      }
    }
    MultilineLiteralStep(b, i);
    return Err;
  }

  /** The end of a run of three quotes at i, taking up to two more. */
  method EagerQuotes(b: Text, i: nat, quote: char) returns (r: Result<nat>)
    requires i <= |b| && Starts(b[i..], [quote, quote, quote])
    ensures r == Plus(i, ClosingQuotes(b[i..], quote))
    ensures r.Ok? ==> i + 3 <= r.value <= |b| && forall k :: i <= k < r.value ==> b[k] == quote
  {
    assert forall k :: i <= k < i + 3 ==> b[k] == b[i..][..3][k - i];
    var j := i + 3;
    if j >= |b| || b[j] != quote { return Ok(j); }
    j := j + 1;
    if j >= |b| || b[j] != quote { return Ok(j); }
    j := j + 1;
    if j < |b| && b[j] == quote { return Err; }
    return Ok(j);
  }

  lemma CommentStep(b: Text, i: nat)
    requires i <= |b|
    ensures CommentEnd(b[i..]) ==
      if i == |b| || b[i] == '\n' then Ok(0)
      else if b[i] == '\r' then if i + 1 < |b| && b[i + 1] == '\n' then Ok(1) else Err
      else if ValidNext(b[i..]) == 0 then Err
      else Plus(ValidNext(b[i..]), CommentEnd(b[i + ValidNext(b[i..])..]))
  {
    if i < |b| {
      assert b[i..][0] == b[i];
      hide ValidNext, Plus;
      Drop(b, i, ValidNext(b[i..]));
    }
  }

  method ScanComment(b: Text) returns (r: Result<Text>)
    requires b != []
    ensures r == SkipComment(b)
  {
    hide CommentEnd, ValidNext;
    var i := 1;
    while i < |b|
      invariant 1 <= i <= |b| && CommentEnd(b[1..]) == Plus(i - 1, CommentEnd(b[i..]))
    {
      CommentStep(b, i);
      if b[i] == '\n' { return Ok(b[i..]); }
      if b[i] == '\r' {
        if i + 1 < |b| && b[i + 1] == '\n' { return Ok(b[i + 1..]); }
        return Err;
      }
      var size := ValidNext(b[i..]);
      if size == 0 { return Err; }
      i := i + size;
    }
    CommentStep(b, i);
    return Ok(b[|b|..]);
  }

  lemma BackslashMore(b: Text, lo: nat, i: nat, j: nat)
    requires lo <= i <= j <= |b|
    ensures HasBackslash(b[lo..j]) <==> HasBackslash(b[lo..i]) || HasBackslash(b[i..j])
  {
    assert b[lo..j] == b[lo..i] + b[i..j];
    var x, y := b[lo..i], b[i..j];
    if HasBackslash(y) {
      var k :| 0 <= k < |y| && y[k] == '\\';
      assert (x + y)[|x| + k] == '\\';
    }
    if HasBackslash(x) {
      var k :| 0 <= k < |x| && x[k] == '\\';
      assert (x + y)[k] == '\\';
    }
  }

  lemma BackslashNext(b: Text, lo: nat, i: nat, n: nat)
    requires lo <= i && 1 <= n <= 2 && i + n <= |b|
    ensures HasBackslash(b[lo..i + n]) <==> HasBackslash(b[lo..i]) || b[i] == '\\' || (n == 2 && b[i + 1] == '\\')
    ensures !HasBackslash(b[lo..lo])
  {
    BackslashMore(b, lo, i, i + n);
    var y := b[i..i + n];
    assert y[0] == b[i] && (n == 2 ==> y[1] == b[i + 1]);
  }

  lemma BasicStep(b: Text, i: nat)
    requires i <= |b|
    ensures BasicEnd(b[i..]) ==
      if i == |b| then Err
      else if b[i] == '"' then Ok(1)
      else if b[i] == '\n' || b[i] == '\r' then Err
      else if b[i] == '\\' then if |b| < i + 2 then Err else Plus(2, BasicEnd(b[i + 2..]))
      else Plus(1, BasicEnd(b[i + 1..]))
  {
    if i < |b| {
      assert b[i..][0] == b[i];
      hide Plus;
      Drop(b, i, 1);
      if |b| >= i + 2 { Drop(b, i, 2); }
    }
  }

  method ScanBasicString(b: Text) returns (r: Parsed, escaped: bool)
    requires b != []
    ensures r == Token(b, 1, BasicEnd(b[1..]))
    ensures r.Ok? ==> escaped == HasBackslash(b[1..|r.value.0| - 1])
  {
    hide BasicEnd, ValidNext, HasBackslash;
    QuotesHaveNoBackslash(b, 1, 1, '"');
    escaped := false;
    var i := 1;
    while i < |b|
      invariant 1 <= i <= |b| && BasicEnd(b[1..]) == Plus(i - 1, BasicEnd(b[i..]))
      invariant escaped == HasBackslash(b[1..i])
    {
      BasicStep(b, i);
      if b[i] == '"' { return Ok((b[..i + 1], b[i + 1..])), escaped; }
      if b[i] == '\n' || b[i] == '\r' { return Err, escaped; }
      var n := 1;
      if b[i] == '\\' {
        if |b| < i + 2 { return Err, escaped; }
        escaped := true;
        n := 2;
      }
      BackslashNext(b, 1, i, n);
      i := i + n;
    }
    BasicStep(b, i);
    return Err, escaped;
  }

  lemma QuotesHaveNoBackslash(b: Text, i: nat, j: nat, quote: char)
    requires i <= j <= |b| && quote != '\\' && forall k :: i <= k < j ==> b[k] == quote
    ensures !HasBackslash(b[i..j])
  {
  }

  lemma MultilineStep(b: Text, i: nat)
    requires i <= |b|
    ensures MultilineEnd(b[i..]) ==
      if i == |b| then Err
      else if b[i] == '"' && Starts(b[i..], "\"\"\"") then ClosingQuotes(b[i..], '"')
      else if b[i] == '\\' then if |b| < i + 2 then Err else Plus(2, MultilineEnd(b[i + 2..]))
      else if b[i] == '\r' then
        if |b| < i + 2 || b[i + 1] != '\n' then Err else Plus(2, MultilineEnd(b[i + 2..]))
      else Plus(1, MultilineEnd(b[i + 1..]))
  {
    if i < |b| {
      assert b[i..][0] == b[i];
      hide Plus, ClosingQuotes;
      Drop(b, i, 1);
      if |b| >= i + 2 { Drop(b, i, 2); }
    }
  }

  method ScanMultilineBasicString(b: Text) returns (r: Parsed, escaped: bool)
    requires Starts(b, "\"\"\"")
    ensures r == Token(b, 3, MultilineEnd(b[3..]))
    ensures r.Ok? ==> escaped == HasBackslash(r.value.0) && Closed(r.value.0, '"')
  {
    hide MultilineEnd, ValidNext, ClosingQuotes, HasBackslash;
    escaped := false;
    var i := 3;
    assert forall k :: 0 <= k < 3 ==> b[k] == b[..3][k];
    QuotesHaveNoBackslash(b, 0, 3, '"');
    while i < |b|
      invariant 3 <= i <= |b| && MultilineEnd(b[3..]) == Plus(i - 3, MultilineEnd(b[i..]))
      invariant escaped == HasBackslash(b[0..i])
    {
      MultilineStep(b, i);
      if b[i] == '"' && Starts(b[i..], "\"\"\"") {
        var end := EagerQuotes(b, i, '"');
        match end
        case Err => return Err, escaped;
        case Ok(j) =>
          QuotesHaveNoBackslash(b, i, j, '"');
          BackslashMore(b, 0, i, j);
          assert b[0..j] == b[..j];
          return Ok((b[..j], b[j..])), escaped;
      }
      var n := 1;
      if b[i] == '\\' {
        if |b| < i + 2 { return Err, escaped; }
        escaped := true;
        n := 2;
      } else if b[i] == '\r' {
        if |b| < i + 2 || b[i + 1] != '\n' { return Err, escaped; }
        n := 2;
      }
      BackslashNext(b, 0, i, n);
      i := i + n;
    }
    MultilineStep(b, i);
    return Err, escaped;
  }
}
