/**
  The text side of the SCRAM client of pkg/sasl/scram.go (section 5.1 of RFC 5802): escaping the user
  name, and the loop over the attributes of the server's first message.
*/
module ScramFields {
  import opened Basics

  type Bytes = seq<char>

  /** What the client computes with; nothing is assumed of these functions. */
  datatype Primitives = Primitives(
    atoi: Bytes -> Option<int>,
    decode64: Bytes -> Option<Bytes>,
    encode64: Bytes -> Bytes,
    hash: Bytes -> Bytes,
    hmac: (Bytes, Bytes) -> Bytes,
    pbkdf2: (Bytes, Bytes, int) -> Bytes,
    xor: (Bytes, Bytes) -> Bytes)

  // ---------- escaping the user name ----------

  function EscapeChar(c: char): Bytes {
    if c == '=' then "=3D" else if c == ',' then "=2C" else [c]
  }

  function Escape(user: Bytes): Bytes {
    if user == [] then [] else EscapeChar(user[0]) + Escape(user[1..])
  }

  /** What a server does with a name, as section 5.1 of RFC 5802 defines it. */
  function Unescape(name: Bytes): Option<Bytes> {
    if name == [] then Some([])
    else if name[0] == ',' then None
    else if name[0] != '=' then Then(name[0], Unescape(name[1..]))
    else if |name| >= 3 && name[..3] == "=3D" then Then('=', Unescape(name[3..]))
    else if |name| >= 3 && name[..3] == "=2C" then Then(',', Unescape(name[3..]))
    else None
  }

  function Then(c: char, r: Option<Bytes>): Option<Bytes> {
    match r
    case None => None
    case Some(s) => Some([c] + s)
  }

  /** Every user name survives, and the escaped name has no comma that could end it early. */
  lemma {:induction false} EscapeRoundTrip(user: Bytes)
    ensures Unescape(Escape(user)) == Some(user) && ',' !in Escape(user)
  {
    if user != [] {
      EscapeRoundTrip(user[1..]);
      var e, x := EscapeChar(user[0]), Escape(user[1..]);
      assert [user[0]] + user[1..] == user;
      if user[0] == '=' || user[0] == ',' {
        assert (e + x)[..3] == e && (e + x)[3..] == x;
      } else {
        assert (e + x)[1..] == x;
      }
    }
  }

  function Special(user: Bytes): nat {
    if user == [] then 0 else (if user[0] == '=' || user[0] == ',' then 1 else 0) + Special(user[1..])
  }

  lemma {:induction false} SpecialConcat(a: Bytes, b: Bytes)
    ensures Special(a + b) == Special(a) + Special(b) && Escape(a + b) == Escape(a) + Escape(b)
    ensures |Escape(a)| == |a| + 2 * Special(a)
  {
    if a == [] {
      assert a + b == b;
    } else {
      assert (a + b)[1..] == a[1..] + b && (a + b)[0] == a[0];
      SpecialConcat(a[1..], b);
    }
  }

  lemma {:induction false} PlainRun(a: Bytes)
    requires forall i :: 0 <= i < |a| ==> a[i] != '=' && a[i] != ','
    ensures Special(a) == 0 && Escape(a) == a
  {
    if a != [] { PlainRun(a[1..]); }
  }

  lemma {:induction false} SomeSpecial(a: Bytes)
    requires Special(a) > 0
    ensures exists i :: 0 <= i < |a| && (a[i] == '=' || a[i] == ',')
  {
    if a[0] != '=' && a[0] != ',' {
      SomeSpecial(a[1..]);
      var i :| 0 <= i < |a[1..]| && (a[1..][i] == '=' || a[1..][i] == ',');
      assert a[i + 1] == a[1..][i];
    }
  }

  /** `bytes.IndexAny` */
  method IndexSpecial(a: Bytes) returns (j: nat)
    requires Special(a) > 0
    ensures j < |a| && (a[j] == '=' || a[j] == ',') && forall i :: 0 <= i < j ==> a[i] != '=' && a[i] != ','
  {
    SomeSpecial(a);
    j := 0;
    while a[j] != '=' && a[j] != ','
      invariant j < |a| && forall i :: 0 <= i < j ==> a[i] != '=' && a[i] != ','
      decreases |a| - j
    {
      j := j + 1;
    }
  }

  /** `copy` into a buffer from w on. */
  method CopyInto(buf: array<char>, w: nat, s: Bytes) returns (end: nat)
    requires w + |s| <= buf.Length
    modifies buf
    ensures end == w + |s| && buf[..end] == old(buf[..w]) + s
  {
    ghost var before := buf[..w];
    for i := 0 to |s|
      invariant buf[..w + i] == before + s[..i]
    {
      buf[w + i] := s[i];
      assert buf[..w + i + 1] == buf[..w + i] + [s[i]];
      assert s[..i + 1] == s[..i] + [s[i]];
    }
    assert s[..|s|] == s;
    end := w + |s|;
  }

  /** The escaping loop of `Start`: one pass over the name, into a buffer of the right size. */
  method EscapeUser(user: Bytes) returns (username: Bytes)
    ensures username == Escape(user)
  {
    hide Escape, Special, EscapeChar;
    var n := CountSpecial(user);
    SpecialConcat(user, []);
    var buf := new char[|user| + 2 * n];
    var w: nat, start: nat := 0, 0;
    Nothing(user);
    for i := 0 to n
      invariant start <= |user| && w <= buf.Length && buf[..w] == Escape(user[..start])
      invariant Special(user[start..]) == n - i && w + |Escape(user[start..])| == buf.Length
    {
      var j := IndexSpecial(user[start..]);
      j := start + j;
      assert forall k :: start <= k < j ==> user[k] == user[start..][k - start];
      Piece(user, start, j);
      var run := user[start..j];
      w := CopyInto(buf, w, run);
      w := CopyInto(buf, w, if user[j] == '=' then "=3D" else "=2C");
      start := j + 1;
    }
    NoneLeft(user[start..]);
    w := CopyInto(buf, w, user[start..]);
    SpecialConcat(user[..start], user[start..]);
    assert user[..start] + user[start..] == user;
    assert buf[..w] == buf[..];
    return buf[..];
  }

  lemma Nothing(user: Bytes)
    ensures Escape(user[..0]) == [] && user[0..] == user
  {
  }

  lemma {:induction false} NoneLeft(a: Bytes)
    requires Special(a) == 0
    ensures Escape(a) == a
  {
    if a != [] { NoneLeft(a[1..]); }
  }

  /** A plain run and the special byte behind it. */
  lemma Piece(user: Bytes, start: nat, j: nat)
    requires start <= j < |user| && (user[j] == '=' || user[j] == ',')
    requires forall i :: start <= i < j ==> user[i] != '=' && user[i] != ','
    ensures Escape(user[..j + 1]) == Escape(user[..start]) + user[start..j] + (if user[j] == '=' then "=3D" else "=2C")
    ensures Special(user[start..]) == 1 + Special(user[j + 1..])
    ensures |Escape(user[start..])| == (j - start) + 3 + |Escape(user[j + 1..])|
  {
    hide Escape, Special, EscapeChar;
    var lead, run, c, rest := user[..start], user[start..j], [user[j]], user[j + 1..];
    PlainRun(run);
    Cuts(user, start, j);
    SpecialConcat(lead, run + c);
    SpecialConcat(run, c);
    SpecialConcat(run, c + rest);
    SpecialConcat(c, rest);
    OneSpecial(user[j]);
    Associate(Escape(lead), run, Escape(c));
  }

  lemma Cuts(s: Bytes, i: nat, j: nat)
    requires i <= j < |s|
    ensures s[..j + 1] == s[..i] + (s[i..j] + [s[j]]) && s[i..] == s[i..j] + ([s[j]] + s[j + 1..])
  {
  }

  lemma Associate(a: Bytes, b: Bytes, c: Bytes)
    ensures a + (b + c) == a + b + c
  {
  }

  lemma OneSpecial(c: char)
    ensures Special([c]) == if c == '=' || c == ',' then 1 else 0
    ensures Escape([c]) == if c == '=' then "=3D" else if c == ',' then "=2C" else [c]
  {
    assert [c][1..] == [];
  }

  method CountSpecial(user: Bytes) returns (n: nat)
    ensures n == Special(user)
  {
    n := 0;
    assert user[..0] == [];
    for i := 0 to |user|
      invariant n == Special(user[..i])
    {
      assert user[..i + 1] == user[..i] + [user[i]];
      SpecialConcat(user[..i], [user[i]]);
      OneSpecial(user[i]);
      if user[i] == '=' || user[i] == ',' { n := n + 1; }
    }
    assert user[..|user|] == user;
  }

  // ---------- the attributes of the server's first message ----------

  function CommaAt(s: Bytes): (k: nat)
    ensures k <= |s| && (k < |s| ==> s[k] == ',')
  {
    if s == [] || s[0] == ',' then 0 else 1 + CommaAt(s[1..])
  }

  /** `nextParam`: the text up to the next comma, and what follows it if there is one. */
  function NextParam(params: Bytes): (Bytes, Option<Bytes>) {
    var k := CommaAt(params);
    if k == |params| then (params, None) else (params[..k], Some(params[k + 1..]))
  }

  function Fields(s: Bytes): (r: seq<Bytes>)
    ensures r != []
    decreases |s|
  {
    var k := CommaAt(s);
    if k == |s| then [s] else [s[..k]] + Fields(s[k + 1..])
  }

  predicate WellFormed(field: Bytes) {
    |field| >= 3 && field[1] == '='
  }

  datatype Attributes = Attributes(iterations: int, salt: Option<Bytes>, nonce: Option<Bytes>)

  const NONE_YET := Attributes(-1, None, None)

  function TrimNul(s: Bytes): Bytes {
    if s == [] || s[|s| - 1] != '\U{0}' then s else TrimNul(s[..|s| - 1])
  }

  /** An attribute that ends the exchange: the reserved one, or a number or salt that does not decode. */
  predicate Refused(c: Primitives, field: Bytes)
    requires WellFormed(field)
  {
    match field[0]
    case 'i' => c.atoi(TrimNul(field[2..])).None?
    case 's' => c.decode64(field[2..]).None?
    case 'm' => true
    case _ => false
  }

  function Take(c: Primitives, a: Attributes, field: Bytes): Attributes
    requires WellFormed(field) && !Refused(c, field)
  {
    match field[0]
    case 'i' => a.(iterations := c.atoi(TrimNul(field[2..])).value)
    case 's' => a.(salt := c.decode64(field[2..]))
    case 'r' => a.(nonce := Some(field[2..]))
    case _ => a
  }

  /** The attribute loop: running on what remains, left with the attributes, or failed. */
  datatype Loop = Running(remain: Option<Bytes>, a: Attributes) | Left(a: Attributes) | Failed

  /** One round of the loop. A field that is not well formed is skipped, the last one too. */
  function Round(c: Primitives, l: Loop): Loop {
    match l
    case Running(remain, a) =>
      var (field, rest) := NextParam(if remain.Some? then remain.value else []);
      if !WellFormed(field) then Running(rest, a)
      else if Refused(c, field) then Failed
      else if rest == None then Left(Take(c, a, field))
      else Running(rest, Take(c, a, field))
    case _ => l
  }

  function Rounds(c: Primitives, l: Loop, n: nat): Loop
    decreases n
  {
    if n == 0 then l else Rounds(c, Round(c, l), n - 1)
  }

  // ---------- when the loop ends ----------

  /** What the loop makes of a list of fields, if it ends. */
  function Scan(c: Primitives, fields: seq<Bytes>, a: Attributes): Loop
    requires fields != []
  {
    if !WellFormed(fields[0]) then if |fields| == 1 then Running(None, a) else Scan(c, fields[1..], a)
    else if Refused(c, fields[0]) then Failed
    else if |fields| == 1 then Left(Take(c, a, fields[0]))
    else Scan(c, fields[1..], Take(c, a, fields[0]))
  }

  /** A message with a comma: its first field, and the message behind it. */
  lemma FirstField(c: Primitives, s: Bytes, a: Attributes)
    requires CommaAt(s) < |s|
    ensures var f, rest := s[..CommaAt(s)], s[CommaAt(s) + 1..];
      && Fields(s) == [f] + Fields(rest)
      && Scan(c, Fields(s), a) ==
         (if !WellFormed(f) then Scan(c, Fields(rest), a)
          else if Refused(c, f) then Failed
          else Scan(c, Fields(rest), Take(c, a, f)))
      && Round(c, Running(Some(s), a)) ==
         if !WellFormed(f) then Running(Some(rest), a)
         else if Refused(c, f) then Failed
         else Running(Some(rest), Take(c, a, f))
  {
    hide WellFormed, Refused, Take, Fields, CommaAt, Scan;
    var f, rest := s[..CommaAt(s)], s[CommaAt(s) + 1..];
    FieldsSplit(s);
    ScanStep(c, f, Fields(rest), a);
  }

  lemma {:induction false} FieldsSplit(s: Bytes)
    requires CommaAt(s) < |s|
    ensures Fields(s) == [s[..CommaAt(s)]] + Fields(s[CommaAt(s) + 1..])
  {
    hide CommaAt;
  }

  lemma {:induction false} ScanStep(c: Primitives, f: Bytes, more: seq<Bytes>, a: Attributes)
    requires more != []
    ensures Scan(c, [f] + more, a) ==
      if !WellFormed(f) then Scan(c, more, a)
      else if Refused(c, f) then Failed
      else Scan(c, more, Take(c, a, f))
  {
    hide WellFormed, Refused, Take;
    assert ([f] + more)[1..] == more;
  }

  lemma OnlyField(c: Primitives, s: Bytes, a: Attributes)
    requires CommaAt(s) == |s|
    ensures Fields(s) == [s] && Rounds(c, Running(Some(s), a), 1) == Scan(c, Fields(s), a)
  {
    hide WellFormed, Refused, Take;
    assert Rounds(c, Round(c, Running(Some(s), a)), 0) == Round(c, Running(Some(s), a));
  }

  lemma OneRound(c: Primitives, l: Loop, n: nat)
    ensures Rounds(c, l, n + 1) == Rounds(c, Round(c, l), n)
  {
  }

  lemma {:induction false} RoundsScan(c: Primitives, s: Bytes, a: Attributes)
    ensures Rounds(c, Running(Some(s), a), |Fields(s)|) == Scan(c, Fields(s), a)
    decreases |s|
  {
    hide WellFormed, Refused, Take, Round, Rounds, Fields, Scan, CommaAt;
    if CommaAt(s) == |s| {
      OnlyField(c, s, a);
    } else {
      FirstField(c, s, a);
      var l, rest := Round(c, Running(Some(s), a)), s[CommaAt(s) + 1..];
      OneRound(c, Running(Some(s), a), |Fields(rest)|);
      var f := s[..CommaAt(s)];
      if !WellFormed(f) {
        RoundsScan(c, rest, a);
      } else if Refused(c, f) {
        Settled(c, l, |Fields(rest)|);
      } else {
        RoundsScan(c, rest, Take(c, a, f));
      }
    }
  }

  lemma {:induction false} Settled(c: Primitives, l: Loop, n: nat)
    requires !l.Running?
    ensures Rounds(c, l, n) == l
  {
    if n > 0 { Settled(c, l, n - 1); }
  }

  lemma {:induction false} Stuck(c: Primitives, a: Attributes, n: nat)
    ensures Rounds(c, Running(None, a), n) == Running(None, a)
  {
    if n > 0 { Stuck(c, a, n - 1); }
  }

  lemma {:induction false} RoundsAdd(c: Primitives, l: Loop, m: nat, n: nat)
    ensures Rounds(c, Rounds(c, l, m), n) == Rounds(c, l, m + n)
    decreases m
  {
    if m > 0 { RoundsAdd(c, Round(c, l), m - 1, n); }
  }

  /** Some field makes the loop give up. */
  predicate SomeRefused(c: Primitives, fields: seq<Bytes>) {
    exists j :: 0 <= j < |fields| && WellFormed(fields[j]) && Refused(c, fields[j])
  }

  lemma {:induction false} ScanEnds(c: Primitives, fields: seq<Bytes>, a: Attributes)
    requires fields != []
    ensures !Scan(c, fields, a).Running? <==> WellFormed(fields[|fields| - 1]) || SomeRefused(c, fields)
    ensures Scan(c, fields, a).Running? ==> Scan(c, fields, a).remain == None
  {
    if |fields| > 1 {
      var rest := fields[1..];
      assert forall j :: 0 <= j < |rest| ==> rest[j] == fields[j + 1];
      if SomeRefused(c, rest) {
        var j :| 0 <= j < |rest| && WellFormed(rest[j]) && Refused(c, rest[j]);
        assert Refused(c, fields[j + 1]);
      }
      if !WellFormed(fields[0]) {
        ScanEnds(c, rest, a);
      } else if !Refused(c, fields[0]) {
        ScanEnds(c, rest, Take(c, a, fields[0]));
      }
      if SomeRefused(c, fields) && !(WellFormed(fields[0]) && Refused(c, fields[0])) {
        var j :| 0 <= j < |fields| && WellFormed(fields[j]) && Refused(c, fields[j]);
        assert rest[j - 1] == fields[j];
      }
    }
  }

  /** The attribute loop ends, if and only if its last field is well formed or some field is refused. */
  lemma LoopEndsIff(c: Primitives, s: Bytes, a: Attributes)
    ensures (exists n: nat :: !Rounds(c, Running(Some(s), a), n).Running?)
       <==> WellFormed(Fields(s)[|Fields(s)| - 1]) || SomeRefused(c, Fields(s))
  {
    var l, k := Running(Some(s), a), |Fields(s)|;
    RoundsScan(c, s, a);
    ScanEnds(c, Fields(s), a);
    if Rounds(c, l, k).Running? {
      forall n: nat
        ensures Rounds(c, l, n).Running?
      {
        if n >= k {
          RoundsAdd(c, l, k, n - k);
          Stuck(c, Rounds(c, l, k).a, n - k);
        } else {
          RoundsAdd(c, l, n, k - n);
          if !Rounds(c, l, n).Running? { Settled(c, Rounds(c, l, n), k - n); }
        }
      }
    }
  }

  /** A challenge with a comma at its end: the loop never leaves it. */
  lemma CommaAtEndLoops(c: Primitives, n: nat)
    requires c.atoi("1").Some?
    ensures Rounds(c, Running(Some("r=x,i=1,"), NONE_YET), n).Running?
  {
    hide Rounds, Scan, Fields, Refused, WellFormed;
    var fields := ["r=x", "i=1", ""];
    ThreeFields();
    assert WellFormed("r=x") && WellFormed("i=1") && !WellFormed("") by { ThreeForms(); }
    assert !Refused(c, "r=x") && !Refused(c, "i=1") by { NoneRefused(c); }
    assert !SomeRefused(c, fields);
    LoopEndsIff(c, "r=x,i=1,", NONE_YET);
  }

  lemma ThreeFields()
    ensures Fields("r=x,i=1,") == ["r=x", "i=1", ""]
  {
    var s, t := "r=x,i=1,", "i=1,";
    assert CommaAt(s) == 3 && s[..3] == "r=x" && s[4..] == t;
    assert CommaAt(t) == 3 && t[..3] == "i=1" && t[4..] == "";
    assert Fields("") == [""];
    assert Fields(t) == ["i=1", ""];
  }

  lemma ThreeForms()
    ensures WellFormed("r=x") && WellFormed("i=1") && !WellFormed("")
  {
  }

  lemma NoneRefused(c: Primitives)
    requires c.atoi("1").Some?
    ensures !Refused(c, "r=x") && !Refused(c, "i=1")
  {
    assert TrimNul("1") == "1" && "i=1"[2..] == "1";
  }

  /** The attribute loop, where it ends. */
  method ReadAttributes(c: Primitives, s: Bytes) returns (r: Loop)
    requires WellFormed(Fields(s)[|Fields(s)| - 1]) || SomeRefused(c, Fields(s))
    ensures r == Scan(c, Fields(s), NONE_YET) && !r.Running?
  {
    hide WellFormed, Refused, Take, SomeRefused;
    ScanEnds(c, Fields(s), NONE_YET);
    var a, remain := NONE_YET, s;
    while true
      invariant Scan(c, Fields(s), NONE_YET) == Scan(c, Fields(remain), a)
      decreases |remain|
    {
      var k := CommaAt(remain);
      var field := remain[..k];
      assert k == |remain| ==> field == remain;
      assert k < |remain| ==> Fields(remain)[1..] == Fields(remain[k + 1..]);
      if WellFormed(field) {
        if Refused(c, field) { return Failed; }
        a := Take(c, a, field);
        if k == |remain| { return Left(a); }
      }
      remain := remain[k + 1..];
    }
  }
}
