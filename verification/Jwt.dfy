/** HS256 tokens: how the seal package writes them and what it accepts (RFC 7515, section 7.1). */
module Jwt {
  import opened Wrappers
  import opened Base64

  datatype Value = Number(n: int) | Text(s: string) | Other

  /** A JSON object: a token's header or its claims. */
  type Object = map<string, Value>

  /** A JSON value that one may read fields of, with the fields it has, or null, which one may not. */
  datatype Json = Null | Fields(o: Object)

  /**
   * The foreign code: JSON over UTF-8, and HMAC-SHA-256 keyed by a secret. `parse` answers None where
   * JSON.parse throws.
   */
  datatype Codec = Codec(
    stringify: Object -> seq<Octet>,
    parse: seq<Octet> -> Option<Json>,
    hmac: (string, string) -> seq<Octet>)

  ghost predicate Faithful(c: Codec) {
    forall o :: c.parse(c.stringify(o)) == Some(Fields(o))
  }

  /** What the caller asks of a token's claims; an absent or empty text asks nothing. */
  datatype Expectations = Expectations(
    alg: Option<string>, aud: Option<string>, iss: Option<string>, sub: Option<string>, requireIat: bool)

  datatype Verdict = Accepted(claims: Object) | Refused(reason: string) | Thrown

  function DefaultHeader(): Object {
    map["alg" := Text("HS256"), "typ" := Text("JWT")]
  }

  function EncodeJwt(c: Codec, payload: Object, secret: string, header: Object): string {
    var head := UrlEncode(c.stringify(DefaultHeader() + header));
    var body := UrlEncode(c.stringify(payload));
    head + "." + body + "." + UrlEncode(c.hmac(secret, head + "." + body))
  }

  function SplitDots(t: string): (parts: seq<string>)
    ensures |parts| > 0
  {
    if t == "" then [""]
    else
      var rest := SplitDots(t[1..]);
      if t[0] == '.' then [""] + rest else [[t[0]] + rest[0]] + rest[1..]
  }

  function Lookup(o: Object, key: string): Option<Value> {
    if key in o then Some(o[key]) else None
  }

  function NumberAt(o: Object, key: string): Option<int> {
    match Lookup(o, key)
    case Some(Number(n)) => Some(n)
    case _ => None
  }

  /** The claim must be the expected text, if one is expected. */
  predicate Matches(o: Object, key: string, expected: Option<string>) {
    expected.None? || expected.value == "" || Lookup(o, key) == Some(Text(expected.value))
  }

  /** The tests a properly signed token's claims are put to, in the order they are made. */
  function TestClaims(claims: Object, want: Expectations, now: int): Verdict {
    var iat, exp := NumberAt(claims, "iat"), NumberAt(claims, "exp");
    if want.requireIat && iat.None? then Refused("iat-required")
    else if iat.Some? && iat.value > now + 30 then Refused("iat-future")
    else if exp.Some? && exp.value < now then Refused("expired")
    else if !Matches(claims, "aud", want.aud) then Refused("aud-mismatch")
    else if !Matches(claims, "iss", want.iss) then Refused("iss-mismatch")
    else if !Matches(claims, "sub", want.sub) then Refused("sub-mismatch")
    else Accepted(claims)
  }

  function ParseText(c: Codec, text: string): Option<Json> {
    match UrlDecode(text)
    case Some(bytes) => c.parse(bytes)
    case None => None
  }

  /** What `VerifyJwt` computes. */
  function Judge(c: Codec, token: string, secret: string, want: Expectations, now: int): Verdict {
    JudgeParts(c, SplitDots(token), secret, want, now)
  }

  function JudgeParts(c: Codec, parts: seq<string>, secret: string, want: Expectations, now: int): Verdict {
    if |parts| != 3 then Refused("malformed") else
      var header, claims := ParseText(c, parts[0]), ParseText(c, parts[1]);
      if header.None? || claims.None? then Refused("invalid-json")
      else if header.value == Null then Thrown
      else if Lookup(header.value.o, "alg") != Some(Text(want.alg.GetOr("HS256"))) then Refused("alg-mismatch")
      else match UrlDecode(parts[2])
        case None => Thrown
        case Some(actual) =>
          if c.hmac(secret, parts[0] + "." + parts[1]) != actual then Refused("signature-invalid")
          else if claims.value == Null then Thrown
          else TestClaims(claims.value.o, want, now)
  }

  method VerifyJwt(c: Codec, token: string, secret: string, want: Expectations, now: int) returns (v: Verdict)
    ensures v == Judge(c, token, secret, want, now)
  {
    var parts := SplitDots(token);
    if |parts| != 3 { return Refused("malformed"); }
    var header := ParseText(c, parts[0]);
    if header.None? { return Refused("invalid-json"); }
    var claims := ParseText(c, parts[1]);
    if claims.None? { return Refused("invalid-json"); }
    if header.value == Null { return Thrown; }
    if Lookup(header.value.o, "alg") != Some(Text(want.alg.GetOr("HS256"))) { return Refused("alg-mismatch"); }
    var expected := c.hmac(secret, parts[0] + "." + parts[1]);
    var actual := UrlDecode(parts[2]);
    if actual.None? { return Thrown; }
    var equal := ConstantTimeEqual(expected, actual.value);
    if !equal { return Refused("signature-invalid"); }
    if claims.value == Null { return Thrown; }
    return TestClaims(claims.value.o, want, now);
  }

  // ----- Round trip -----

  lemma {:induction false} SplitFirst(a: string, rest: string)
    requires '.' !in a
    ensures SplitDots(a + "." + rest) == [a] + SplitDots(rest)
  {
    var t := a + "." + rest;
    if a == "" {
      assert t[1..] == rest;
    } else {
      assert a[0] in a && t[1..] == a[1..] + "." + rest;
      SplitFirst(a[1..], rest);
      assert [a[0]] + a[1..] == a;
    }
  }

  lemma {:induction false} SplitWhole(a: string)
    requires '.' !in a
    ensures SplitDots(a) == [a]
  {
    if a != "" {
      assert a[0] in a;
      SplitWhole(a[1..]);
      assert [a[0]] + a[1..] == a;
    }
  }

  lemma SplitThree(a: string, b: string, s: string)
    requires '.' !in a && '.' !in b && '.' !in s
    ensures SplitDots(a + "." + b + "." + s) == [a, b, s]
  {
    assert a + "." + b + "." + s == a + "." + (b + "." + s);
    SplitFirst(a, b + "." + s);
    SplitFirst(b, s);
    SplitWhole(s);
  }

  /** A token splits into exactly three parts, and each decodes to what was encoded. */
  lemma TokenSplits(c: Codec, payload: Object, secret: string, header: Object)
    requires Faithful(c)
    ensures var parts := SplitDots(EncodeJwt(c, payload, secret, header));
            |parts| == 3 &&
            ParseText(c, parts[0]) == Some(Fields(DefaultHeader() + header)) &&
            ParseText(c, parts[1]) == Some(Fields(payload)) &&
            UrlDecode(parts[2]) == Some(c.hmac(secret, parts[0] + "." + parts[1]))
  {
    var h, p := c.stringify(DefaultHeader() + header), c.stringify(payload);
    var head, body := UrlEncode(h), UrlEncode(p);
    var sig := c.hmac(secret, head + "." + body);
    UrlEncodeHasNoDot(h);
    UrlEncodeHasNoDot(p);
    UrlEncodeHasNoDot(sig);
    SplitThree(head, body, UrlEncode(sig));
    UrlRoundTrip(h);
    UrlRoundTrip(p);
    UrlRoundTrip(sig);
  }

  /** A token with the default header is put to the claim tests and nothing else: it verifies to the very
      claims it was made of exactly when they pass. */
  lemma TokenRoundTrip(c: Codec, payload: Object, secret: string, want: Expectations, now: int)
    requires Faithful(c)
    requires want.alg.GetOr("HS256") == "HS256"
    ensures Judge(c, EncodeJwt(c, payload, secret, map[]), secret, want, now) == TestClaims(payload, want, now)
  {
    TokenSplits(c, payload, secret, map[]);
    JudgeWellFormed(c, SplitDots(EncodeJwt(c, payload, secret, map[])), payload, secret, secret, want, now);
  }

  /** Three decodable parts with the default header: the keyed digest decides, then the claims do. */
  lemma JudgeWellFormed(c: Codec, parts: seq<string>, payload: Object, secret: string, other: string,
                        want: Expectations, now: int)
    requires |parts| == 3 && want.alg.GetOr("HS256") == "HS256"
    requires ParseText(c, parts[0]) == Some(Fields(DefaultHeader() + map[])) && ParseText(c, parts[1]) == Some(Fields(payload))
    requires UrlDecode(parts[2]) == Some(c.hmac(secret, parts[0] + "." + parts[1]))
    ensures JudgeParts(c, parts, other, want, now) ==
            if c.hmac(secret, parts[0] + "." + parts[1]) == c.hmac(other, parts[0] + "." + parts[1])
            then TestClaims(payload, want, now) else Refused("signature-invalid")
  {
    assert Lookup(DefaultHeader() + map[], "alg") == Some(Text("HS256"));
  }

  /** The claim tests pass exactly on claims inside their time window that carry what the caller expects. */
  lemma ClaimsPassExactly(claims: Object, want: Expectations, now: int)
    ensures TestClaims(claims, want, now) == Accepted(claims) <==>
            (want.requireIat ==> NumberAt(claims, "iat").Some?) &&
            (NumberAt(claims, "iat").Some? ==> NumberAt(claims, "iat").value <= now + 30) &&
            (NumberAt(claims, "exp").Some? ==> now <= NumberAt(claims, "exp").value) &&
            Matches(claims, "aud", want.aud) && Matches(claims, "iss", want.iss) && Matches(claims, "sub", want.sub)
    ensures !TestClaims(claims, want, now).Thrown?
  {
  }

  /** The caller could accept the claims at some moment: they carry what it expects, and do not expire before they
      may be used. */
  predicate Presentable(claims: Object, want: Expectations) {
    var iat, exp := NumberAt(claims, "iat"), NumberAt(claims, "exp");
    && (want.requireIat ==> iat.Some?) && (iat.Some? && exp.Some? ==> iat.value <= exp.value + 30)
    && Matches(claims, "aud", want.aud) && Matches(claims, "iss", want.iss) && Matches(claims, "sub", want.sub)
  }

  /** A moment the claims pass at, if they are presentable. */
  function GoodMoment(claims: Object): int {
    NumberAt(claims, "exp").GetOr(NumberAt(claims, "iat").GetOr(0))
  }

  lemma ClaimsLifetime(claims: Object, want: Expectations)
    ensures Presentable(claims, want) ==> TestClaims(claims, want, GoodMoment(claims)) == Accepted(claims)
    ensures forall now | TestClaims(claims, want, now).Accepted? ::
              Presentable(claims, want) && TestClaims(claims, want, now) == Accepted(claims)
    ensures forall early, now, late | early <= now <= late && TestClaims(claims, want, early).Accepted? &&
              TestClaims(claims, want, late).Accepted? :: TestClaims(claims, want, now) == Accepted(claims)
  {
  }

  /** A token with the default header is accepted at some moment exactly when its claims are presentable, and then
      during one unbroken stretch of time, always with the claims it was made of. */
  lemma TokenLifetime(c: Codec, payload: Object, secret: string, want: Expectations, token: string)
    requires Faithful(c) && want.alg.GetOr("HS256") == "HS256" && token == EncodeJwt(c, payload, secret, map[])
    ensures (exists now :: Judge(c, token, secret, want, now) == Accepted(payload)) <==> Presentable(payload, want)
    ensures forall early, now, late | early <= now <= late && Judge(c, token, secret, want, early).Accepted? &&
              Judge(c, token, secret, want, late).Accepted? :: Judge(c, token, secret, want, now) == Accepted(payload)
  {
    forall now ensures Judge(c, token, secret, want, now) == TestClaims(payload, want, now) {
      TokenRoundTrip(c, payload, secret, want, now);
    }
    ClaimsLifetime(payload, want);
    if Presentable(payload, want) {
      assert Judge(c, token, secret, want, GoodMoment(payload)) == Accepted(payload);
    }
  }

  /** Whatever token verifies, its three parts are joined by the dots and its last one decodes to the keyed
      digest of the first two; another secret with another digest refuses an encoded token. */
  lemma AcceptedIsSigned(c: Codec, token: string, secret: string, want: Expectations, now: int)
    requires Judge(c, token, secret, want, now).Accepted?
    ensures exists head, body, sig ::
              token == head + "." + body + "." + sig &&
              UrlDecode(sig) == Some(c.hmac(secret, head + "." + body)) &&
              ParseText(c, body) == Some(Fields(Judge(c, token, secret, want, now).claims))
  {
    var parts := SplitDots(token);
    JoinOfSplit(token);
    JoinThree(parts[0], parts[1], parts[2]);
    assert parts == [parts[0], parts[1], parts[2]];
  }

  lemma JoinThree(a: string, b: string, s: string)
    ensures Join([a, b, s]) == a + "." + b + "." + s
  {
    assert [a, b, s][1..] == [b, s] && [b, s][1..] == [s];
    assert Join([s]) == s && Join([b, s]) == b + "." + s;
    assert a + "." + (b + "." + s) == a + "." + b + "." + s;
  }

  /** The text of an encoded token that its last part signs. */
  function SignedText(c: Codec, payload: Object): string {
    UrlEncode(c.stringify(DefaultHeader() + map[])) + "." + UrlEncode(c.stringify(payload))
  }

  /** Another secret accepts the signature exactly if its keyed digest of the signed text is the same; then the token
      is put to the claim tests as under its own secret, otherwise it is refused as wrongly signed. */
  lemma OtherSecretExactly(c: Codec, payload: Object, secret: string, other: string, want: Expectations, now: int)
    requires Faithful(c) && want.alg.GetOr("HS256") == "HS256"
    ensures Judge(c, EncodeJwt(c, payload, secret, map[]), other, want, now) ==
            if c.hmac(secret, SignedText(c, payload)) == c.hmac(other, SignedText(c, payload))
            then Judge(c, EncodeJwt(c, payload, secret, map[]), secret, want, now)
            else Refused("signature-invalid")
  {
    var parts := SplitDots(EncodeJwt(c, payload, secret, map[]));
    TokenSplits(c, payload, secret, map[]);
    TokenParts(c, payload, secret);
    JudgeWellFormed(c, parts, payload, secret, other, want, now);
    JudgeWellFormed(c, parts, payload, secret, secret, want, now);
  }

  lemma TokenParts(c: Codec, payload: Object, secret: string)
    ensures var parts := SplitDots(EncodeJwt(c, payload, secret, map[]));
            |parts| == 3 && parts[0] + "." + parts[1] == SignedText(c, payload)
  {
    var h, p := c.stringify(DefaultHeader() + map[]), c.stringify(payload);
    var head, body := UrlEncode(h), UrlEncode(p);
    var sig := c.hmac(secret, head + "." + body);
    UrlEncodeHasNoDot(h);
    UrlEncodeHasNoDot(p);
    UrlEncodeHasNoDot(sig);
    SplitThree(head, body, UrlEncode(sig));
  }

  function Join(parts: seq<string>): string
    requires |parts| > 0
  {
    if |parts| == 1 then parts[0] else parts[0] + "." + Join(parts[1..])
  }

  lemma {:induction false} JoinOfSplit(t: string)
    ensures Join(SplitDots(t)) == t
  {
    if t != "" {
      var rest := SplitDots(t[1..]);
      JoinOfSplit(t[1..]);
      assert t == [t[0]] + t[1..];
      if t[0] == '.' {
        assert SplitDots(t)[1..] == rest;
      } else {
        assert SplitDots(t)[1..] == rest[1..];
      }
    }
  }

  // ----- Capability tokens -----

  function EncodeCapability(c: Codec, payload: Object, secret: string): string {
    EncodeJwt(c, payload, secret, map[])
  }

  /** None stands for the exception `atob` throws on a malformed signature. */
  function VerifyCapability(c: Codec, token: string, secret: string, want: Expectations, now: int): Option<bool> {
    match Judge(c, token, secret, want.(alg := Some("HS256"), requireIat := true), now)
    case Accepted(_) => Some(true)
    case Refused(_) => Some(false)
    case Thrown => None
  }
}
