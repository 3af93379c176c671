/**
  The SCRAM client of pkg/sasl (negotiator.go, scram.go) without channel binding: a state machine that
  sends two messages and accepts the second challenge only if it is the server's signature of all that
  was exchanged (sections 3 and 5 of RFC 5802).
*/
module ScramClient {
  import opened Basics
  import opened ScramFields

  datatype Credentials = Credentials(user: Bytes, password: Bytes, identity: Bytes)

  datatype Step = Initial | AuthTextSent | ResponseSent | ValidServerResponse

  /** The fields of a Negotiator, with the messages it has sent and received. */
  datatype State = State(step: Step, errored: bool, nonce: Bytes, cache: Option<Bytes>, sent: seq<Bytes>,
      got: seq<Bytes>)

  // ---------- messages ----------

  /** `getGS2Header` without channel binding. */
  function Gs2Header(k: Credentials): Bytes {
    "n," + (if k.identity == [] then [] else "a=" + k.identity) + ","
  }

  function ClientFirstBare(k: Credentials, nonce: Bytes): Bytes {
    "n=" + Escape(k.user) + ",r=" + nonce
  }

  function ClientFinalBare(c: Primitives, k: Credentials, nonce: Bytes): Bytes {
    "c=" + c.encode64(Gs2Header(k)) + ",r=" + nonce
  }

  /** The transcript that both sides sign. */
  function AuthMessage(clientFirstBare: Bytes, serverFirst: Bytes, clientFinalBare: Bytes): Bytes {
    clientFirstBare + "," + serverFirst + "," + clientFinalBare
  }

  function SaltedPassword(c: Primitives, k: Credentials, a: Attributes): Bytes
    requires a.salt.Some?
  {
    c.pbkdf2(k.password, a.salt.value, a.iterations)
  }

  function ServerSignature(c: Primitives, salted: Bytes, auth: Bytes): Bytes {
    c.hmac(c.hmac(salted, "Server Key"), auth)
  }

  function ClientProof(c: Primitives, salted: Bytes, auth: Bytes): Bytes {
    var clientKey := c.hmac(salted, "Client Key");
    c.xor(clientKey, c.hmac(c.hash(clientKey), auth))
  }

  /** May the client answer a server's first message with these attributes? */
  predicate Acceptable(a: Attributes, nonce: Bytes) {
    a.iterations >= 0 && a.nonce.Some? && nonce <= a.nonce.value && a.salt.Some?
  }

  // ---------- the state machine ----------

  /** Does the attribute loop end on this challenge? */
  predicate Ends(c: Primitives, challenge: Bytes) {
    WellFormed(Fields(challenge)[|Fields(challenge)| - 1]) || SomeRefused(c, Fields(challenge))
  }

  function Fail(st: State, step: Step, challenge: Bytes): State {
    st.(step := step, errored := true, cache := None, got := st.got + [challenge])
  }

  /** `Step` on a client that has not errored. */
  function Next(c: Primitives, k: Credentials, st: State, challenge: Bytes): State {
    match st.step
    case Initial =>
      var bare := ClientFirstBare(k, st.nonce);
      st.(step := AuthTextSent, cache := Some(bare), sent := st.sent + [Gs2Header(k) + bare])
    case AuthTextSent =>
      if challenge == [] then Fail(st, ResponseSent, challenge)
      else
        var l := Scan(c, Fields(challenge), NONE_YET);
        if !l.Left? || !Acceptable(l.a, st.nonce) || st.cache == None then Fail(st, ResponseSent, challenge)
        else
          var final := ClientFinalBare(c, k, l.a.nonce.value);
          var auth := AuthMessage(st.cache.value, challenge, final);
          var salted := SaltedPassword(c, k, l.a);
          st.(step := ResponseSent, cache := Some(ServerSignature(c, salted, auth)),
              sent := st.sent + [final + ",p=" + c.encode64(ClientProof(c, salted, auth))], got := st.got + [challenge])
    case ResponseSent =>
      if challenge == [] || st.cache == None || challenge != "v=" + c.encode64(st.cache.value) then
        Fail(st, ValidServerResponse, challenge)
      else st.(step := ValidServerResponse, cache := None, got := st.got + [challenge])
    case ValidServerResponse => Fail(st, ValidServerResponse, challenge)
  }

  /** A negotiator as NewClient and Reset leave it. */
  predicate Fresh(st: State) {
    st.step == Initial && !st.errored && st.cache == None && st.sent == [] && st.got == []
  }

  /** The states of a run, one challenge after another; a client that has errored takes no further step. */
  function Run(c: Primitives, k: Credentials, st: State, challenges: seq<Bytes>): State
    decreases |challenges|
  {
    if challenges == [] || st.errored then st else Run(c, k, Next(c, k, st, challenges[0]), challenges[1..])
  }

  // ---------- what every run keeps ----------

  /** The first exchange: the client's message, and a challenge whose attributes the client accepted. */
  predicate FirstExchange(c: Primitives, k: Credentials, st: State) {
    && |st.sent| == 2 && |st.got| >= 1 && st.got[0] != []
    && st.sent[0] == Gs2Header(k) + ClientFirstBare(k, st.nonce)
    && var l := Scan(c, Fields(st.got[0]), NONE_YET);
       l.Left? && Acceptable(l.a, st.nonce)
  }

  /** The signature the server owes for the messages of a run. */
  function Owed(c: Primitives, k: Credentials, st: State): Bytes
    requires FirstExchange(c, k, st)
  {
    var a := Scan(c, Fields(st.got[0]), NONE_YET).a;
    ServerSignature(c, SaltedPassword(c, k, a),
                    AuthMessage(ClientFirstBare(k, st.nonce), st.got[0], ClientFinalBare(c, k, a.nonce.value)))
  }

  /** The second message of the client carries the same nonce, and the proof for the same transcript. */
  predicate SecondMessage(c: Primitives, k: Credentials, st: State)
    requires FirstExchange(c, k, st)
  {
    var a := Scan(c, Fields(st.got[0]), NONE_YET).a;
    var final := ClientFinalBare(c, k, a.nonce.value);
    var auth := AuthMessage(ClientFirstBare(k, st.nonce), st.got[0], final);
    st.sent[1] == final + ",p=" + c.encode64(ClientProof(c, SaltedPassword(c, k, a), auth))
  }

  predicate Inv(c: Primitives, k: Credentials, st: State) {
    st.errored ||
    match st.step
    case Initial => Fresh(st)
    case AuthTextSent =>
      st.got == [] && st.cache == Some(ClientFirstBare(k, st.nonce)) &&
          st.sent == [Gs2Header(k) + ClientFirstBare(k, st.nonce)]
    case ResponseSent =>
      |st.got| == 1 && FirstExchange(c, k, st) && SecondMessage(c, k, st) && st.cache == Some(Owed(c, k, st))
    case ValidServerResponse =>
      |st.got| == 2 && FirstExchange(c, k, st) && SecondMessage(c, k, st) &&
          st.got[1] == "v=" + c.encode64(Owed(c, k, st))
  }

  lemma NextKeeps(c: Primitives, k: Credentials, st: State, challenge: Bytes)
    requires Inv(c, k, st) && !st.errored
    ensures Inv(c, k, Next(c, k, st, challenge)) && Next(c, k, st, challenge).nonce == st.nonce
  {
    hide Scan, Fields, Acceptable, ServerSignature, ClientProof, ClientFirstBare, ClientFinalBare, Gs2Header,
        AuthMessage, SaltedPassword;
    AcceptableHas();
  }

  lemma AcceptableHas()
    ensures forall a, nonce :: Acceptable(a, nonce) ==> a.salt.Some? && a.nonce.Some? && nonce <= a.nonce.value
  {
  }

  lemma {:induction false} RunKeeps(c: Primitives, k: Credentials, st: State, challenges: seq<Bytes>)
    requires Inv(c, k, st)
    ensures Inv(c, k, Run(c, k, st, challenges)) && Run(c, k, st, challenges).nonce == st.nonce
    decreases |challenges|
  {
    hide Inv, Next;
    if challenges != [] && !st.errored {
      NextKeeps(c, k, st, challenges[0]);
      RunKeeps(c, k, Next(c, k, st, challenges[0]), challenges[1..]);
    }
  }

  /**
    A client that reaches ValidServerResponse without an error has seen a server nonce that extends its own, and as last
    challenge the server's signature over exactly the messages exchanged.
  */
  lemma SuccessMeansSigned(c: Primitives, k: Credentials, st: State, challenges: seq<Bytes>)
    requires Fresh(st)
    ensures var end := Run(c, k, st, challenges);
      end.step == ValidServerResponse && !end.errored ==>
        && FirstExchange(c, k, end) && SecondMessage(c, k, end)
        && |end.got| == 2 && end.got[1] == "v=" + c.encode64(Owed(c, k, end))
        && st.nonce <= Scan(c, Fields(end.got[0]), NONE_YET).a.nonce.value
  {
    hide Run, Scan, Fields, Owed, SecondMessage;
    RunKeeps(c, k, st, challenges);
  }

  /** The other way round: any first challenge with acceptable attributes, followed by that signature, succeeds. */
  lemma SignedMeansSuccess(c: Primitives, k: Credentials, st: State, any: Bytes, first: Bytes)
    requires Fresh(st) && first != []
    requires var l := Scan(c, Fields(first), NONE_YET); l.Left? && Acceptable(l.a, st.nonce)
    ensures var mid := Run(c, k, st, [any, first]);
      mid.step == ResponseSent && !mid.errored && FirstExchange(c, k, mid)
    ensures var mid := Run(c, k, st, [any, first]);
      forall last :: Next(c, k, mid, last).errored <==> last != "v=" + c.encode64(Owed(c, k, mid))
  {
    hide Scan, Fields, ServerSignature, ClientProof, ClientFirstBare, ClientFinalBare, Gs2Header, AuthMessage,
        SaltedPassword;
    assert [any, first][1..] == [first] && [first][1..] == [];
    var st1 := Next(c, k, st, any);
    var mid := Next(c, k, st1, first);
    assert Run(c, k, mid, []) == mid;
    assert Run(c, k, st1, [first]) == mid;
    assert Run(c, k, st, [any, first]) == mid;
    NextKeeps(c, k, st, any);
    NextKeeps(c, k, st1, first);
  }

  // ---------- the negotiator ----------

  class Negotiator {
    const c: Primitives
    const k: Credentials
    var step: Step
    var errored: bool
    var nonce: Bytes
    var cache: Option<Bytes>
    ghost var sent: seq<Bytes>
    ghost var got: seq<Bytes>

    ghost function Now(): State
      reads this
    {
      State(step, errored, nonce, cache, sent, got)
    }

    /** `NewClient`, given a nonce. */
    constructor (c: Primitives, k: Credentials, nonce: Bytes)
      ensures this.c == c && this.k == k && Fresh(Now()) && this.nonce == nonce
    {
      this.c, this.k, this.nonce := c, k, nonce;
      step, errored, cache, sent, got := Initial, false, None, [], [];
    }

    /** `Reset`, given a new nonce. */
    method Reset(nonce: Bytes)
      modifies this
      ensures Fresh(Now()) && this.nonce == nonce
    {
      this.nonce := nonce;
      step, errored, cache, sent, got := Initial, false, None, [], [];
    }

    /** `Step`. It must not be called after an error, and its attribute loop ends only on some challenges. */
    method DoStep(challenge: Bytes) returns (more: bool, resp: Option<Bytes>)
      requires !errored && (step == AuthTextSent && challenge != [] ==> Ends(c, challenge))
      modifies this
      ensures Now() == Next(c, k, old(Now()), challenge)
      ensures errored ==> !more && resp == None
      ensures !errored ==> more == (step != ValidServerResponse)
      ensures resp.Some? ==> sent == old(sent) + [resp.value]
      ensures resp == None ==> sent == old(sent)
    {
      hide Scan, Fields, Acceptable, Ends, ServerSignature, ClientProof, ClientFinalBare, Gs2Header, AuthMessage,
          SaltedPassword;
      match step
      case Initial =>
        var username := EscapeUser(k.user);
        var bare := "n=" + username + ",r=" + nonce;
        step, cache := AuthTextSent, Some(bare);
        resp, more := Some(Gs2Header(k) + bare), true;
        sent := sent + [resp.value];
      case AuthTextSent =>
        more, resp := Answer(challenge);
      case ResponseSent =>
        got := got + [challenge];
        step := ValidServerResponse;
        if challenge == [] || cache == None || challenge != "v=" + c.encode64(cache.value) { errored := true; }
        cache, more, resp := None, false, None;
      case ValidServerResponse =>
        got := got + [challenge];
        errored, cache, more, resp := true, None, false, None;
    }

    /** The answer to the server's first message. */
    method Answer(challenge: Bytes) returns (more: bool, resp: Option<Bytes>)
      requires !errored && step == AuthTextSent && (challenge != [] ==> Ends(c, challenge))
      modifies this
      ensures Now() == Next(c, k, old(Now()), challenge)
      ensures errored ==> !more && resp == None && sent == old(sent)
      ensures !errored ==> more && resp.Some? && sent == old(sent) + [resp.value] && step == ResponseSent
    {
      hide Scan, Fields;
      got := got + [challenge];
      step := ResponseSent;
      var data := cache;
      cache := None;
      if challenge == [] {
        errored := true;
        return false, None;
      }
      var l := ReadAttributes(c, challenge);
      if !l.Left? || l.a.iterations < 0 || l.a.nonce == None || !(nonce <= l.a.nonce.value) || l.a.salt == None ||
          data == None {
        errored := true;
        return false, None;
      }
      var final := "c=" + c.encode64(Gs2Header(k)) + ",r=" + l.a.nonce.value;
      var auth := data.value + "," + challenge + "," + final;
      var salted := c.pbkdf2(k.password, l.a.salt.value, l.a.iterations);
      var serverKey := c.hmac(salted, "Server Key");
      var clientKey := c.hmac(salted, "Client Key");
      var serverSignature := c.hmac(serverKey, auth);
      var storedKey := c.hash(clientKey);
      var proof := c.xor(clientKey, c.hmac(storedKey, auth));
      cache := Some(serverSignature);
      resp := Some(final + ",p=" + c.encode64(proof));
      more := true;
      sent := sent + [resp.value];
    }
  }
}
