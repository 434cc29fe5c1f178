/** Signed session tokens (app/core/session_tokens.py). The keyed digest (HMAC-SHA256 under the key
    derived from secret and label) and the JSON codec of the standard library are parameters. */
module SessionTokens {
  import opened Prelude
  import opened Base64Url

  /** A parsed JSON text; `Other` covers floats, strings and arrays. */
  datatype Json = Null | Bool(b: bool) | Int(n: int) | Other | Object(fields: map<string, Json>)

  /** `loads` is None where json.loads raises ValueError. */
  datatype Service = Service(
    digest: string -> seq<Byte>,
    dumps: (int, int) -> seq<Byte>,
    loads: seq<Byte> -> Option<Json>)

  datatype Outcome = Accepted(tgId: int) | Malformed | Invalid | Expired | TypeErrorRaised

  function Payload(tgId: int, exp: int): Json {
    Object(map["tg_id" := Int(tgId), "exp" := Int(exp)])
  }

  function Sign(s: Service, body: string): string {
    Encode(s.digest(body))
  }

  /** Python's int() on a float: truncation toward zero. */
  function Truncate(t: real): int {
    if t >= 0.0 then t.Floor else -(-t).Floor
  }

  /** The token and its lifetime in seconds. */
  function Issue(s: Service, tgId: int, ttl: Option<int>, defaultTtl: int, now: real): (string, int) {
    var seconds := if ttl.Some? then ttl.value else defaultTtl;
    (TokenFor(s, tgId, Truncate(now) + seconds), seconds)
  }

  function TokenFor(s: Service, tgId: int, exp: int): string {
    var body := Encode(s.dumps(tgId, exp));
    body + ['.'] + Sign(s, body)
  }

  /** Position of the first dot, or the length if there is none. */
  function FirstDot(token: string): (i: nat)
    ensures i <= |token| && '.' !in token[..i] && (i < |token| ==> token[i] == '.')
  {
    if token == [] || token[0] == '.' then 0 else
      var i := FirstDot(token[1..]);
      assert token[..1 + i] == [token[0]] + token[1..][..i];
      1 + i
  }

  function ReadPayload(s: Service, body: string, now: real): Outcome {
    var bytes := Decode(body);
    if bytes.None? then Malformed else
      var json := s.loads(bytes.value);
      if json.None? || !json.value.Object? then Malformed
      else if "tg_id" !in json.value.fields || "exp" !in json.value.fields then Malformed
      else
        var tgId, exp := json.value.fields["tg_id"], json.value.fields["exp"];
        if !tgId.Int? || !exp.Int? then Malformed
        else if exp.n as real < now then Expired
        else Accepted(tgId.n)
  }

  /** hmac.compare_digest raises TypeError when a string argument is not ASCII. */
  function Verify(s: Service, token: string, now: real): Outcome {
    var i := FirstDot(token);
    var body := token[..i];
    if i == |token| || body == "" || i + 1 == |token| then Malformed
    else
      var sig := token[i + 1..];
      if !IsAscii(sig) then TypeErrorRaised
      else if Sign(s, body) != sig then Invalid
      else ReadPayload(s, body, now)
  }

  // ---------------------------------------------------------------- guarantees

  lemma {:induction false} DotSplits(body: string, sig: string)
    requires '.' !in body
    ensures FirstDot(body + ['.'] + sig) == |body|
  {
    var token := body + ['.'] + sig;
    if body != "" {
      assert body[0] in body && token[0] == body[0];
      assert token[1..] == body[1..] + ['.'] + sig;
      DotSplits(body[1..], sig);
    }
  }

  lemma SplitBack(body: string, sig: string)
    ensures (body + ['.'] + sig)[..|body|] == body && (body + ['.'] + sig)[|body| + 1..] == sig
  {
  }

  /** What `verify` does with a body and the service's own signature of it. */
  lemma VerifySigned(s: Service, body: string, now: real)
    requires body != "" && '.' !in body && s.digest(body) != []
    ensures Verify(s, body + ['.'] + Sign(s, body), now) == ReadPayload(s, body, now)
  {
    DotSplits(body, Sign(s, body));
    SplitBack(body, Sign(s, body));
    EncodedIsClean(s.digest(body));
  }

  lemma ReadIssued(s: Service, raw: seq<Byte>, tgId: int, exp: int, now: real)
    requires s.loads(raw) == Some(Payload(tgId, exp))
    ensures ReadPayload(s, Encode(raw), now) == if exp as real < now then Expired else Accepted(tgId)
  {
    RoundTrip(raw);
  }

  /** A token issued at `issuedAt` is accepted, with its own id, exactly until its whole-second expiry.
      The premises are the codec contracts: dumps and loads are inverse on the payload, and neither a
      JSON text nor a digest is empty. */
  lemma IssuedVerifies(s: Service, tgId: int, ttl: Option<int>, defaultTtl: int, issuedAt: real, now: real)
    requires var exp := Truncate(issuedAt) + (if ttl.Some? then ttl.value else defaultTtl);
             && s.loads(s.dumps(tgId, exp)) == Some(Payload(tgId, exp))
             && s.dumps(tgId, exp) != [] && s.digest(Encode(s.dumps(tgId, exp))) != []
    ensures var (token, lifetime) := Issue(s, tgId, ttl, defaultTtl, issuedAt);
            Verify(s, token, now)
            == if now <= (Truncate(issuedAt) + lifetime) as real then Accepted(tgId) else Expired
  {
    var exp := Truncate(issuedAt) + (if ttl.Some? then ttl.value else defaultTtl);
    var raw := s.dumps(tgId, exp);
    EncodedIsClean(raw);
    ReadIssued(s, raw, tgId, exp, now);
    VerifySigned(s, Encode(raw), now);
  }

  /** In real time: a token is accepted until less than a second before its lifetime is over, for its whole
      lifetime if it was issued at a whole second, and never after it. */
  lemma AcceptedForItsLifetime(s: Service, tgId: int, ttl: Option<int>, defaultTtl: int, issuedAt: real, now: real)
    requires issuedAt >= 0.0
    requires var exp := Truncate(issuedAt) + (if ttl.Some? then ttl.value else defaultTtl);
             && s.loads(s.dumps(tgId, exp)) == Some(Payload(tgId, exp))
             && s.dumps(tgId, exp) != [] && s.digest(Encode(s.dumps(tgId, exp))) != []
    ensures var (token, lifetime) := Issue(s, tgId, ttl, defaultTtl, issuedAt);
            && lifetime == (if ttl.Some? then ttl.value else defaultTtl)
            && (now > issuedAt + lifetime as real ==> Verify(s, token, now) == Expired)
            && (now <= issuedAt + lifetime as real - 1.0 ==> Verify(s, token, now) == Accepted(tgId))
            && (issuedAt == issuedAt.Floor as real && now <= issuedAt + lifetime as real ==>
                  Verify(s, token, now) == Accepted(tgId))
  {
    IssuedVerifies(s, tgId, ttl, defaultTtl, issuedAt, now);
  }

  /** The payload holds this id and this expiry, both integers. */
  predicate Carries(fields: map<string, Json>, tgId: int, exp: int) {
    && "tg_id" in fields && fields["tg_id"] == Int(tgId)
    && "exp" in fields && fields["exp"] == Int(exp)
  }

  /** The body decodes to a payload that holds this id and an expiry that has not passed. */
  ghost predicate Admits(s: Service, body: string, tgId: int, now: real) {
    exists raw, fields, exp ::
      Decode(body) == Some(raw) && s.loads(raw) == Some(Object(fields)) && Carries(fields, tgId, exp) && now <= exp as real
  }

  lemma AdmitsIsRead(s: Service, body: string, tgId: int, now: real)
    ensures Admits(s, body, tgId, now) <==> ReadPayload(s, body, now) == Accepted(tgId)
  {
    if ReadPayload(s, body, now) == Accepted(tgId) {
      var fields := s.loads(Decode(body).value).value.fields;
      assert Carries(fields, tgId, fields["exp"].n);
    }
  }

  /** `verify` accepts exactly a body followed by a dot and its signature, when the body decodes to an
      integer id and an integer expiry that has not passed. */
  lemma AcceptsExactly(s: Service, token: string, now: real, tgId: int)
    requires forall body: string :: s.digest(body) != []
    ensures Verify(s, token, now) == Accepted(tgId) <==>
              exists body: string ::
                && body != "" && '.' !in body && token == body + ['.'] + Encode(s.digest(body))
                && Admits(s, body, tgId, now)
  {
    var i := FirstDot(token);
    if Verify(s, token, now) == Accepted(tgId) {
      AdmitsIsRead(s, token[..i], tgId, now);
      assert token == token[..i] + ['.'] + token[i + 1..];
    }
    forall body: string | body != "" && '.' !in body && token == body + ['.'] + Encode(s.digest(body))
      ensures Verify(s, token, now) == ReadPayload(s, body, now)
      ensures Admits(s, body, tgId, now) <==> ReadPayload(s, body, now) == Accepted(tgId)
    {
      VerifySigned(s, body, now);
      AdmitsIsRead(s, body, tgId, now);
    }
  }

  /** Besides its own error `verify` lets a TypeError escape, if and only if the part after the first
      dot holds a non-ASCII character and the part before it is not empty. */
  lemma TypeErrorEscapesIff(s: Service, token: string, now: real)
    ensures Verify(s, token, now) == TypeErrorRaised <==>
              0 < FirstDot(token) < |token| && !IsAscii(token[FirstDot(token) + 1..])
  {
  }

  /** A one-letter body and the signature U+00E9 make every service raise a TypeError. */
  lemma TypeErrorToken(s: Service, now: real)
    ensures Verify(s, "a.\U{E9}", now) == TypeErrorRaised
  {
    var sig := "\U{E9}";
    assert "a.\U{E9}" == "a" + ['.'] + sig;
    DotSplits("a", sig);
    SplitBack("a", sig);
    assert '\U{E9}' in sig && !IsAscii(sig);
  }

  /** A token of one service verifies at another only if both digests of its body are equal. */
  lemma ForeignTokenNeedsEqualDigest(a: Service, b: Service, body: string, now: real, tgId: int)
    requires '.' !in body && Verify(b, body + ['.'] + Sign(a, body), now) == Accepted(tgId)
    ensures a.digest(body) == b.digest(body)
  {
    DotSplits(body, Sign(a, body));
    SplitBack(body, Sign(a, body));
    EncodeInjective(a.digest(body), b.digest(body));
  }

  lemma BodyOfToken(s: Service, tgId: int, exp: int, token: string)
    requires token == TokenFor(s, tgId, exp)
    ensures token[..FirstDot(token)] == Encode(s.dumps(tgId, exp))
  {
    var body := Encode(s.dumps(tgId, exp));
    EncodedIsClean(s.dumps(tgId, exp));
    DotSplits(body, Sign(s, body));
    SplitBack(body, Sign(s, body));
  }

  lemma TokenInjective(s: Service, id1: int, exp1: int, id2: int, exp2: int, token: string)
    requires s.loads(s.dumps(id1, exp1)) == Some(Payload(id1, exp1))
    requires s.loads(s.dumps(id2, exp2)) == Some(Payload(id2, exp2))
    requires token == TokenFor(s, id1, exp1) && token == TokenFor(s, id2, exp2)
    ensures id1 == id2 && exp1 == exp2
  {
    BodyOfToken(s, id1, exp1, token);
    BodyOfToken(s, id2, exp2, token);
    SamePayload(s, id1, exp1, id2, exp2);
  }

  lemma SamePayload(s: Service, id1: int, exp1: int, id2: int, exp2: int)
    requires Encode(s.dumps(id1, exp1)) == Encode(s.dumps(id2, exp2))
    requires s.loads(s.dumps(id1, exp1)) == Some(Payload(id1, exp1))
    requires s.loads(s.dumps(id2, exp2)) == Some(Payload(id2, exp2))
    ensures id1 == id2 && exp1 == exp2
  {
    EncodeInjective(s.dumps(id1, exp1), s.dumps(id2, exp2));
    PayloadInjective(id1, exp1, id2, exp2);
  }

  /** However and whenever they were issued, two equal tokens of one service have the same id and the same
      whole-second expiry. */
  lemma IssueInjective(s: Service, id1: int, ttl1: int, now1: real, id2: int, ttl2: int, now2: real, token: string)
    requires s.loads(s.dumps(id1, Truncate(now1) + ttl1)) == Some(Payload(id1, Truncate(now1) + ttl1))
    requires s.loads(s.dumps(id2, Truncate(now2) + ttl2)) == Some(Payload(id2, Truncate(now2) + ttl2))
    requires token == Issue(s, id1, Some(ttl1), 0, now1).0 && token == Issue(s, id2, Some(ttl2), 0, now2).0
    ensures id1 == id2 && Truncate(now1) + ttl1 == Truncate(now2) + ttl2
  {
    TokenInjective(s, id1, Truncate(now1) + ttl1, id2, Truncate(now2) + ttl2, token);
  }

  lemma PayloadInjective(id1: int, exp1: int, id2: int, exp2: int)
    requires Payload(id1, exp1) == Payload(id2, exp2)
    ensures id1 == id2 && exp1 == exp2
  {
    assert Payload(id1, exp1).fields["tg_id"] == Payload(id2, exp2).fields["tg_id"];
    assert Payload(id1, exp1).fields["exp"] == Payload(id2, exp2).fields["exp"];
  }
}
