/**
  The other side of the exchange, written from section 3 of RFC 5802 and its formal syntax (section 7): a server that
  knows an account, reads the messages of the client of pkg/sasl and decides whether to let it in.
*/
module ScramServer {
  import opened Basics
  import opened ScramFields
  import opened ScramClient

  // ---------- the server ----------

  /** What a server keeps of a user; it does not keep the password. */
  datatype Account = Account(user: Bytes, salt: Bytes, iterations: int, storedKey: Bytes, serverKey: Bytes)

  function Enrol(c: Primitives, user: Bytes, password: Bytes, salt: Bytes, iterations: int): Account {
    var salted := c.pbkdf2(password, salt, iterations);
    Account(user, salt, iterations, c.hash(c.hmac(salted, "Client Key")), c.hmac(salted, "Server Key"))
  }

  /** A first message: who asks, for whom, with which nonce, and the two parts it is made of. */
  datatype Hello = Hello(identity: Bytes, user: Bytes, nonce: Bytes, header: Bytes, bare: Bytes)

  /** The value of an attribute, if the field is that attribute. */
  function Attribute(name: char, field: Bytes): Option<Bytes> {
    if |field| >= 2 && field[0] == name && field[1] == '=' then Some(field[2..]) else None
  }

  function Identity(field: Bytes): Option<Bytes> {
    if field == [] then Some([])
    else
      match Attribute('a', field)
      case None => None
      case Some(name) => Unescape(name)
  }

  function ReadHello(m: Bytes): Option<Hello> {
    var fs := Fields(m);
    if |fs| != 4 || fs[0] != "n" || |fs[1]| + 3 > |m| then None
    else
      match (Identity(fs[1]), Attribute('n', fs[2]), Attribute('r', fs[3]))
      case (Some(identity), Some(name), Some(nonce)) =>
        (match Unescape(name)
         case None => None
         case Some(user) => Some(Hello(identity, user, nonce, m[..|fs[1]| + 3], m[|fs[1]| + 3..])))
      case _ => None
  }

  /** The challenge: the nonce of the client with some bytes of the server's own, the salt and the iteration count. */
  function Challenge(c: Primitives, clientNonce: Bytes, own: Bytes, salt: Bytes, digits: Bytes): Bytes {
    "r=" + (clientNonce + own) + "," + ("s=" + c.encode64(salt) + "," + ("i=" + digits))
  }

  /** The transcript of the exchange, if the second message has the form, the channel binding and the nonce it must. */
  function Transcript(c: Primitives, hello: Hello, nonce: Bytes, challenge: Bytes, m: Bytes): Option<(Bytes, Bytes)> {
    var fs := Fields(m);
    if |fs| != 3 || |fs[0]| + 1 + |fs[1]| > |m| then None
    else
      match (Attribute('c', fs[0]), Attribute('r', fs[1]), Attribute('p', fs[2]))
      case (Some(binding), Some(r), Some(p)) =>
        if c.decode64(binding) != Some(hello.header) || r != nonce then None
        else
          (match c.decode64(p)
           case None => None
           case Some(proof) => Some((hello.bare + "," + challenge + "," + m[..|fs[0]| + 1 + |fs[1]|], proof)))
      case _ => None
  }

  /** The answer of the server to a second message: its signature, or nothing if the proof does not hold. */
  function Answer(c: Primitives, a: Account, nonce: Bytes, first: Bytes, challenge: Bytes, second: Bytes): Option<Bytes>
  {
    match ReadHello(first)
    case None => None
    case Some(hello) =>
      if hello.user != a.user || !(hello.nonce <= nonce) then None
      else
        match Transcript(c, hello, nonce, challenge, second)
        case None => None
        case Some((auth, proof)) =>
          if c.hash(c.xor(proof, c.hmac(a.storedKey, auth))) != a.storedKey then None
          else Some("v=" + c.encode64(c.hmac(a.serverKey, auth)))
  }

  // ---------- fields ----------

  lemma {:induction false} CommaBehind(a: Bytes, b: Bytes)
    requires ',' !in a
    ensures CommaAt(a + "," + b) == |a| && CommaAt(a) == |a|
  {
    if a == [] {
      assert a + "," + b == "," + b;
    } else {
      assert (a + "," + b)[1..] == a[1..] + "," + b;
      CommaBehind(a[1..], b);
    }
  }

  /** Messages fall apart at their commas. */
  lemma FieldsCons(a: Bytes, b: Bytes)
    requires ',' !in a
    ensures Fields(a + "," + b) == [a] + Fields(b) && Fields(a) == [a]
  {
    CommaBehind(a, b);
    var s := a + "," + b;
    assert s[..|a|] == a && s[|a| + 1..] == b;
  }

  lemma {:induction false} CommaFirst(s: Bytes)
    ensures ',' !in s[..CommaAt(s)]
  {
    if s != [] && s[0] != ',' {
      CommaFirst(s[1..]);
      assert s[..CommaAt(s)] == [s[0]] + s[1..][..CommaAt(s[1..])];
    }
  }

  lemma {:induction false} NoCommaInside(s: Bytes)
    ensures forall f :: f in Fields(s) ==> ',' !in f
    decreases |s|
  {
    CommaFirst(s);
    var k := CommaAt(s);
    if k < |s| {
      NoCommaInside(s[k + 1..]);
    } else {
      assert s[..k] == s;
    }
  }

  lemma {:induction false} NonceFromField(c: Primitives, fields: seq<Bytes>, a: Attributes)
    requires fields != [] && (a.nonce.Some? ==> ',' !in a.nonce.value) && forall f :: f in fields ==> ',' !in f
    ensures var l := Scan(c, fields, a); l.Left? && l.a.nonce.Some? ==> ',' !in l.a.nonce.value
  {
    assert ',' !in fields[0];
    var a' := if WellFormed(fields[0]) && !Refused(c, fields[0]) then Take(c, a, fields[0]) else a;
    assert a'.nonce.Some? ==> ',' !in a'.nonce.value;
    if |fields| > 1 { NonceFromField(c, fields[1..], a'); }
  }

  // ---------- the first message ----------

  /** Unescaping shortens a name by every escape in it. */
  lemma {:induction false} UnescapeShortens(name: Bytes)
    ensures Unescape(name).Some? ==>
      && ',' !in name && |Unescape(name).value| <= |name|
      && (|Unescape(name).value| == |name| <==> '=' !in name)
    ensures ',' !in name && '=' !in name ==> Unescape(name) == Some(name)
    decreases |name|
  {
    if name != [] {
      var n := if name[0] == '=' && |name| >= 3 then 3 else 1;
      UnescapeShortens(name[n..]);
      assert name == name[..n] + name[n..];
      assert [name[0]] + name[1..] == name;
    }
  }

  function IdentityField(k: Credentials): Bytes {
    if k.identity == [] then [] else "a=" + k.identity
  }

  lemma HelloParts(k: Credentials, nonce: Bytes)
    ensures Gs2Header(k) + ClientFirstBare(k, nonce) ==
      "n" + "," + (IdentityField(k) + "," + ("n=" + Escape(k.user) + "," + ("r=" + nonce)))
  {
    var f := IdentityField(k);
    assert Gs2Header(k) == "n" + "," + f + ",";
    assert ClientFirstBare(k, nonce) == "n=" + Escape(k.user) + "," + ("r=" + nonce);
  }

  lemma HelloFields(k: Credentials, nonce: Bytes)
    requires ',' !in nonce && ',' !in k.identity
    ensures Fields(Gs2Header(k) + ClientFirstBare(k, nonce))
         == ["n", IdentityField(k), "n=" + Escape(k.user), "r=" + nonce]
  {
    hide Fields, Escape;
    HelloParts(k, nonce);
    EscapeRoundTrip(k.user);
    var user, r := "n=" + Escape(k.user), "r=" + nonce;
    FieldsCons("n", IdentityField(k) + "," + (user + "," + r));
    FieldsCons(IdentityField(k), user + "," + r);
    FieldsCons(user, r);
    FieldsCons(r, []);
  }

  /** The server reads the first message as the client meant it. */
  lemma HelloIsRead(k: Credentials, nonce: Bytes)
    requires ',' !in nonce && ',' !in k.identity && '=' !in k.identity
    ensures ReadHello(Gs2Header(k) + ClientFirstBare(k, nonce))
         == Some(Hello(k.identity, k.user, nonce, Gs2Header(k), ClientFirstBare(k, nonce)))
  {
    hide Fields, Escape, Unescape;
    var m := Gs2Header(k) + ClientFirstBare(k, nonce);
    HelloFields(k, nonce);
    EscapeRoundTrip(k.user);
    UnescapeShortens(k.identity);
    assert |Gs2Header(k)| == |IdentityField(k)| + 3;
    assert m[..|Gs2Header(k)|] == Gs2Header(k) && m[|Gs2Header(k)|..] == ClientFirstBare(k, nonce);
    assert ("n=" + Escape(k.user))[2..] == Escape(k.user) && ("r=" + nonce)[2..] == nonce;
    assert k.identity != [] ==> ("a=" + k.identity)[2..] == k.identity;
  }

  lemma {:induction false} ManyFields(a: Bytes, b: Bytes)
    ensures |Fields(a + "," + b)| == |Fields(a)| + |Fields(b)|
    ensures ',' in a ==> |Fields(a)| >= 2
    decreases |a|
  {
    CommaFirst(a);
    var k := CommaAt(a);
    if k == |a| {
      assert a[..k] == a;
      FieldsCons(a, b);
    } else {
      var f, rest := a[..k], a[k + 1..];
      assert a == f + "," + rest;
      assert a + "," + b == f + "," + (rest + "," + b);
      FieldsCons(f, rest);
      FieldsCons(f, rest + "," + b);
      ManyFields(rest, b);
    }
  }

  /**
    The client does not escape the identity it asks for. A server reads that identity if and only if it has no comma
    and no equals sign in it.
  */
  lemma IdentityReadIff(k: Credentials, nonce: Bytes)
    requires ',' !in nonce
    ensures var hello := ReadHello(Gs2Header(k) + ClientFirstBare(k, nonce));
      hello.Some? && hello.value.identity == k.identity <==> ',' !in k.identity && '=' !in k.identity
  {
    hide Fields, Escape, Unescape;
    if ',' in k.identity {
      HelloParts(k, nonce);
      EscapeRoundTrip(k.user);
      var user, r := "n=" + Escape(k.user), "r=" + nonce;
      FieldsCons("n", IdentityField(k) + "," + (user + "," + r));
      ManyFields(IdentityField(k), user + "," + r);
      FieldsCons(user, r);
      FieldsCons(r, []);
    } else if '=' in k.identity {
      HelloFields(k, nonce);
      assert ("a=" + k.identity)[2..] == k.identity;
      UnescapeShortens(k.identity);
    } else {
      HelloIsRead(k, nonce);
    }
  }

  // ---------- the second message ----------

  /** What is asked of the primitives: exclusive or undoes itself, and base64 decodes and has no comma. */
  ghost predicate Sane(c: Primitives) {
    && (forall a, b :: c.xor(c.xor(a, b), b) == a)
    && (forall s :: c.decode64(c.encode64(s)) == Some(s) && ',' !in c.encode64(s))
  }

  lemma TranscriptIsRead(c: Primitives, k: Credentials, hello: Hello, nonce: Bytes, challenge: Bytes, proof: Bytes)
    requires Sane(c) && ',' !in nonce && hello.header == Gs2Header(k)
    ensures Transcript(c, hello, nonce, challenge, ClientFinalBare(c, k, nonce) + ",p=" + c.encode64(proof))
         == Some((AuthMessage(hello.bare, challenge, ClientFinalBare(c, k, nonce)), proof))
  {
    hide Fields;
    var bare := ClientFinalBare(c, k, nonce);
    var m := bare + ",p=" + c.encode64(proof);
    var x, y, z := "c=" + c.encode64(Gs2Header(k)), "r=" + nonce, "p=" + c.encode64(proof);
    assert ',' !in c.encode64(Gs2Header(k)) && ',' !in c.encode64(proof);
    assert bare == x + "," + y && m == x + "," + (y + "," + z);
    FieldsCons(x, y + "," + z);
    FieldsCons(y, z);
    FieldsCons(z, []);
    assert x[2..] == c.encode64(Gs2Header(k)) && y[2..] == nonce && z[2..] == c.encode64(proof);
    assert m[..|x| + 1 + |y|] == bare;
  }

  /** What the client has sent after any first challenge that it accepts. */
  lemma SecondIsSent(c: Primitives, k: Credentials, st: State, any: Bytes, first: Bytes)
    requires Fresh(st) && first != []
    requires var l := Scan(c, Fields(first), NONE_YET); l.Left? && Acceptable(l.a, st.nonce)
    ensures var a := Scan(c, Fields(first), NONE_YET).a;
      var final := ClientFinalBare(c, k, a.nonce.value);
      var auth := AuthMessage(ClientFirstBare(k, st.nonce), first, final);
      var salted := SaltedPassword(c, k, a);
      var mid := Run(c, k, st, [any, first]);
      && mid.sent == [Gs2Header(k) + ClientFirstBare(k, st.nonce),
                      final + ",p=" + c.encode64(ClientProof(c, salted, auth))]
      && !mid.errored && mid.step == ResponseSent && mid.cache == Some(ServerSignature(c, salted, auth))
  {
    hide Scan, Fields, ServerSignature, ClientProof, ClientFirstBare, ClientFinalBare, Gs2Header, AuthMessage,
        SaltedPassword;
    assert [any, first][1..] == [first] && [first][1..] == [];
    var st1 := Next(c, k, st, any);
    var mid := Next(c, k, st1, first);
    assert Run(c, k, mid, []) == mid;
    assert Run(c, k, st1, [first]) == mid;
    assert Run(c, k, st, [any, first]) == mid;
  }

  lemma {:induction false} RunMore(c: Primitives, k: Credentials, st: State, challenges: seq<Bytes>, last: Bytes)
    ensures var mid := Run(c, k, st, challenges);
      Run(c, k, st, challenges + [last]) == if mid.errored then mid else Next(c, k, mid, last)
    decreases |challenges|
  {
    hide Next;
    if challenges == [] {
      assert [] + [last] == [last] && [last][1..] == [];
    } else if !st.errored {
      assert (challenges + [last])[1..] == challenges[1..] + [last];
      RunMore(c, k, Next(c, k, st, challenges[0]), challenges[1..], last);
    }
  }

  /**
    After any challenge that the client accepts, a server that holds the account of the user accepts the second
    message, and its answer makes the client succeed.
  */
  lemma ServerAccepts(c: Primitives, k: Credentials, st: State, any: Bytes, first: Bytes)
    requires Sane(c) && Fresh(st) && first != [] && ',' !in st.nonce && ',' !in k.identity && '=' !in k.identity
    requires var l := Scan(c, Fields(first), NONE_YET); l.Left? && Acceptable(l.a, st.nonce)
    ensures var a := Scan(c, Fields(first), NONE_YET).a;
      var account := Enrol(c, k.user, k.password, a.salt.value, a.iterations);
      var mid := Run(c, k, st, [any, first]);
      |mid.sent| == 2 &&
      var answer := Answer(c, account, a.nonce.value, mid.sent[0], first, mid.sent[1]);
      && answer.Some?
      && var end := Run(c, k, st, [any, first] + [answer.value]);
         end.step == ValidServerResponse && !end.errored
  {
    hide Scan, Fields, ReadHello, Transcript, ClientFirstBare, ClientFinalBare, Gs2Header, AuthMessage, Run;
    var a := Scan(c, Fields(first), NONE_YET).a;
    assert ',' !in a.nonce.value by {
      NoCommaInside(first);
      NonceFromField(c, Fields(first), NONE_YET);
    }
    var hello := Hello(k.identity, k.user, st.nonce, Gs2Header(k), ClientFirstBare(k, st.nonce));
    var final := ClientFinalBare(c, k, a.nonce.value);
    var auth := AuthMessage(hello.bare, first, final);
    var salted := SaltedPassword(c, k, a);
    SecondIsSent(c, k, st, any, first);
    HelloIsRead(k, st.nonce);
    TranscriptIsRead(c, k, hello, a.nonce.value, first, ClientProof(c, salted, auth));
    RunMore(c, k, st, [any, first], "v=" + c.encode64(ServerSignature(c, salted, auth)));
  }

  // ---------- a whole login ----------

  /** The digits of an iteration count; zero bytes behind them do no harm. */
  ghost predicate Count(c: Primitives, text: Bytes, n: int) {
    text != [] && ',' !in text &&
    exists digits, pad :: text == digits + Zeros(pad) && NoZeroLast(digits) && c.atoi(digits) == Some(n)
  }

  function Zeros(n: nat): (z: Bytes)
    ensures |z| == n && forall i :: 0 <= i < n ==> z[i] == '\U{0}'
  {
    if n == 0 then [] else Zeros(n - 1) + ['\U{0}']
  }

  predicate NoZeroLast(s: Bytes) {
    s == [] || s[|s| - 1] != '\U{0}'
  }

  lemma {:induction false} ZerosTrimmed(digits: Bytes, n: nat)
    requires NoZeroLast(digits)
    ensures TrimNul(digits + Zeros(n)) == digits
  {
    if n == 0 {
      assert digits + Zeros(n) == digits;
    } else {
      var s := digits + Zeros(n);
      assert s[..|s| - 1] == digits + Zeros(n - 1);
      ZerosTrimmed(digits, n - 1);
    }
  }

  lemma CountIsRead(c: Primitives, text: Bytes, n: int)
    requires Count(c, text, n)
    ensures c.atoi(TrimNul(text)) == Some(n)
  {
    var digits, pad :| text == digits + Zeros(pad) && NoZeroLast(digits) && c.atoi(digits) == Some(n);
    ZerosTrimmed(digits, pad);
  }

  lemma ChallengeFields(c: Primitives, nonce: Bytes, salt: Bytes, digits: Bytes)
    requires Sane(c) && ',' !in nonce && ',' !in digits
    ensures var r, s, i := "r=" + nonce, "s=" + c.encode64(salt), "i=" + digits;
      Fields(r + "," + (s + "," + i)) == [r, s, i]
  {
    hide Fields;
    var r, s, i := "r=" + nonce, "s=" + c.encode64(salt), "i=" + digits;
    assert ',' !in c.encode64(salt);
    FieldsCons(r, s + "," + i);
    FieldsCons(s, i);
    FieldsCons(i, []);
  }

  lemma {:induction false} OneTaken(c: Primitives, f: Bytes, more: seq<Bytes>, a: Attributes)
    requires WellFormed(f) && !Refused(c, f)
    ensures Scan(c, [f] + more, a) == if more == [] then Left(Take(c, a, f)) else Scan(c, more, Take(c, a, f))
  {
    hide WellFormed, Refused, Take;
    assert ([f] + more)[1..] == more;
  }

  lemma FieldTaken(c: Primitives, name: char, value: Bytes, a: Attributes)
    requires value != []
    ensures var f := [name, '='] + value;
      && WellFormed(f) && f[2..] == value
      && (name == 'r' ==> !Refused(c, f) && Take(c, a, f) == a.(nonce := Some(value)))
      && (name == 's' && c.decode64(value).Some? ==> !Refused(c, f) && Take(c, a, f) == a.(salt := c.decode64(value)))
      && (name == 'i' && c.atoi(TrimNul(value)).Some? ==>
            !Refused(c, f) && Take(c, a, f) == a.(iterations := c.atoi(TrimNul(value)).value))
  {
    hide TrimNul;
  }

  lemma ChallengeIsScanned(c: Primitives, nonce: Bytes, salt: Bytes, digits: Bytes, iterations: int)
    requires Sane(c) && nonce != [] && ',' !in nonce && c.encode64(salt) != []
    requires Count(c, digits, iterations)
    ensures var m := "r=" + nonce + "," + ("s=" + c.encode64(salt) + "," + ("i=" + digits));
      Scan(c, Fields(m), NONE_YET) == Left(Attributes(iterations, Some(salt), Some(nonce)))
  {
    hide Fields, Scan, Refused, Take, WellFormed, TrimNul;
    var r, s, i := "r=" + nonce, "s=" + c.encode64(salt), "i=" + digits;
    ChallengeFields(c, nonce, salt, digits);
    CountIsRead(c, digits, iterations);
    var a1 := NONE_YET.(nonce := Some(nonce));
    var a2 := a1.(salt := Some(salt));
    FieldTaken(c, 'r', nonce, NONE_YET);
    FieldTaken(c, 's', c.encode64(salt), a1);
    FieldTaken(c, 'i', digits, a2);
    assert [r, s, i] == [r] + [s, i] && [s, i] == [s] + [i] && [i] == [i] + [];
    OneTaken(c, r, [s, i], NONE_YET);
    OneTaken(c, s, [i], a1);
    OneTaken(c, i, [], a2);
  }

  /**
    A login from beginning to end: a client with the password of the account and a server that follows the RFC,
    whatever bytes the server adds to the nonce.
  */
  lemma LoginSucceeds(c: Primitives, k: Credentials, st: State, any: Bytes, own: Bytes, salt: Bytes, digits: Bytes,
      iterations: nat)
    requires Sane(c) && Fresh(st) && ',' !in k.identity && '=' !in k.identity
    requires ',' !in st.nonce && ',' !in own && st.nonce + own != [] && c.encode64(salt) != []
    requires Count(c, digits, iterations)
    ensures var account := Enrol(c, k.user, k.password, salt, iterations);
      var mid := Run(c, k, st, [any]);
      |mid.sent| == 1 && ReadHello(mid.sent[0]).Some? &&
      var challenge := Challenge(c, ReadHello(mid.sent[0]).value.nonce, own, salt, digits);
      var next := Run(c, k, st, [any, challenge]);
      |next.sent| == 2 && next.sent[0] == mid.sent[0] &&
      var answer := Answer(c, account, st.nonce + own, next.sent[0], challenge, next.sent[1]);
      && answer.Some?
      && var end := Run(c, k, st, [any, challenge] + [answer.value]);
         end.step == ValidServerResponse && !end.errored
  {
    hide Scan, Fields, ReadHello, Answer, ClientFirstBare, ClientFinalBare, Gs2Header;
    HelloIsRead(k, st.nonce);
    var challenge := Challenge(c, st.nonce, own, salt, digits);
    assert Run(c, k, st, [any]) == Next(c, k, st, any) by { RunMore(c, k, st, [], any); assert [] + [any] == [any]; }
    ChallengeIsScanned(c, st.nonce + own, salt, digits, iterations);
    SecondIsSent(c, k, st, any, challenge);
    ServerAccepts(c, k, st, any, challenge);
  }

  // ---------- which challenges are refused ----------

  /** A field that must make authentication fail: the reserved attribute, or a count or a salt that does not decode. */
  predicate Offends(c: Primitives, f: Bytes) {
    |f| >= 3 && f[1] == '=' &&
    (f[0] == 'm' || (f[0] == 'i' && c.atoi(TrimNul(f[2..])).None?) || (f[0] == 's' && c.decode64(f[2..]).None?))
  }

  /** The attributes are accepted if and only if no field offends and the last one has a name and a value. */
  lemma {:induction false} ScannedIff(c: Primitives, fields: seq<Bytes>, a: Attributes)
    requires fields != []
    ensures Scan(c, fields, a).Left? <==>
      |fields[|fields| - 1]| >= 3 && fields[|fields| - 1][1] == '=' && forall f :: f in fields ==> !Offends(c, f)
  {
    assert WellFormed(fields[0]) && Refused(c, fields[0]) <==> Offends(c, fields[0]);
    if |fields| > 1 {
      assert fields == [fields[0]] + fields[1..];
      ScannedIff(c, fields[1..],
          if WellFormed(fields[0]) && !Refused(c, fields[0]) then Take(c, a, fields[0]) else a);
    }
  }
}
