/** Which tokens are accepted, in terms of their text, their claims and the moment alone. */
module JwtClaims {
  import opened Wrappers
  import opened Base64
  import opened Jwt

  predicate HasNumber(claims: Object, key: string) {
    key in claims && claims[key].Number?
  }

  /** A caller that names no text, or the empty one, asks nothing. */
  predicate Says(claims: Object, key: string, expected: Option<string>) {
    expected.Some? && expected.value != "" ==> key in claims && claims[key] == Text(expected.value)
  }

  /** Issued no later than thirty seconds from now, and not expired; a missing time asks nothing unless it is required. */
  predicate InTime(claims: Object, requireIat: bool, now: int) {
    && (requireIat ==> HasNumber(claims, "iat"))
    && (HasNumber(claims, "iat") ==> claims["iat"].n <= now + 30)
    && (HasNumber(claims, "exp") ==> now <= claims["exp"].n)
  }

  predicate Holds(claims: Object, want: Expectations, now: int) {
    && InTime(claims, want.requireIat, now)
    && Says(claims, "aud", want.aud) && Says(claims, "iss", want.iss) && Says(claims, "sub", want.sub)
  }

  /** The first thing wrong with the claims, in the order in which it is looked for. */
  function FirstWrong(claims: Object, want: Expectations, now: int): (wrong: Option<string>)
    ensures wrong.None? <==> Holds(claims, want, now)
  {
    if want.requireIat && !HasNumber(claims, "iat") then Some("iat-required")
    else if HasNumber(claims, "iat") && claims["iat"].n > now + 30 then Some("iat-future")
    else if HasNumber(claims, "exp") && claims["exp"].n < now then Some("expired")
    else if !Says(claims, "aud", want.aud) then Some("aud-mismatch")
    else if !Says(claims, "iss", want.iss) then Some("iss-mismatch")
    else if !Says(claims, "sub", want.sub) then Some("sub-mismatch")
    else None
  }

  lemma MatchesIsSays(claims: Object, key: string, expected: Option<string>)
    ensures Matches(claims, key, expected) <==> Says(claims, key, expected)
  {
  }

  lemma NumberAtIs(claims: Object, key: string)
    ensures NumberAt(claims, key) == if HasNumber(claims, key) then Some(claims[key].n) else None
  {
  }

  /** The claim tests accept exactly the claims that hold, and otherwise say the first thing wrong. */
  lemma TestedExactly(claims: Object, want: Expectations, now: int)
    ensures TestClaims(claims, want, now) ==
            if Holds(claims, want, now) then Accepted(claims) else Refused(FirstWrong(claims, want, now).value)
  {
    NumberAtIs(claims, "iat");
    NumberAtIs(claims, "exp");
    MatchesIsSays(claims, "aud", want.aud);
    MatchesIsSays(claims, "iss", want.iss);
    MatchesIsSays(claims, "sub", want.sub);
  }

  /** An encoded token is accepted exactly when each claim that its caller names is there as that text and its times are
      right; otherwise it is refused for the first thing wrong. */
  lemma EncodedExactly(c: Codec, payload: Object, secret: string, want: Expectations, now: int)
    requires Faithful(c) && want.alg.GetOr("HS256") == "HS256"
    ensures Judge(c, EncodeJwt(c, payload, secret, map[]), secret, want, now) ==
            if Holds(payload, want, now) then Accepted(payload) else Refused(FirstWrong(payload, want, now).value)
  {
    TokenRoundTrip(c, payload, secret, want, now);
    TestedExactly(payload, want, now);
  }

  /** The text of a token: its header, to which the caller may add and which it may override, its claims and the keyed digest
      of both, each encoded, joined by dots. */
  lemma EncodedIs(c: Codec, payload: Object, secret: string, header: Object)
    ensures var whole: Object := map["alg" := Text("HS256"), "typ" := Text("JWT")] + header;
            var signed := UrlEncode(c.stringify(whole)) + "." + UrlEncode(c.stringify(payload));
            EncodeJwt(c, payload, secret, header) == signed + "." + UrlEncode(c.hmac(secret, signed))
  {
  }

  // ----- Any token -----

  ghost predicate Parses(c: Codec, text: string, o: Object) {
    UrlDecode(text).Some? && c.parse(UrlDecode(text).value) == Some(Fields(o))
  }

  /** Three texts without dots: a header of the algorithm, the claims, and the keyed digest of both. */
  ghost predicate Signed(c: Codec, head: string, body: string, sig: string, secret: string, alg: string, header: Object,
                         claims: Object)
  {
    && '.' !in head && '.' !in body && '.' !in sig
    && Parses(c, head, header) && "alg" in header && header["alg"] == Text(alg)
    && Parses(c, body, claims) && UrlDecode(sig) == Some(c.hmac(secret, head + "." + body))
  }

  /** The token is three such texts joined by dots, with those claims. */
  ghost predicate Presents(c: Codec, token: string, secret: string, alg: string, claims: Object) {
    exists head, body, sig, header ::
      token == head + "." + body + "." + sig && Signed(c, head, body, sig, secret, alg, header, claims)
  }

  lemma JudgedParts(c: Codec, parts: seq<string>, secret: string, want: Expectations, now: int, claims: Object)
    requires |parts| == 3 && forall i | 0 <= i < 3 :: '.' !in parts[i]
    ensures JudgeParts(c, parts, secret, want, now) == Accepted(claims) <==>
            Holds(claims, want, now) &&
            exists header :: Signed(c, parts[0], parts[1], parts[2], secret, want.alg.GetOr("HS256"), header, claims)
  {
    TestedExactly(claims, want, now);
    if JudgeParts(c, parts, secret, want, now) == Accepted(claims) {
      var header := ParseText(c, parts[0]).value.o;
      TestedExactly(ParseText(c, parts[1]).value.o, want, now);
      assert Signed(c, parts[0], parts[1], parts[2], secret, want.alg.GetOr("HS256"), header, claims);
    }
  }

  lemma {:induction false} SplitHasNoDots(t: string)
    ensures forall i | 0 <= i < |SplitDots(t)| :: '.' !in SplitDots(t)[i]
  {
    if t != "" { SplitHasNoDots(t[1..]); }
  }

  lemma SplitThreeBack(token: string)
    requires |SplitDots(token)| == 3
    ensures var parts := SplitDots(token); token == parts[0] + "." + parts[1] + "." + parts[2]
  {
    var parts := SplitDots(token);
    JoinOfSplit(token);
    JoinThree(parts[0], parts[1], parts[2]);
    assert parts == [parts[0], parts[1], parts[2]];
  }

  /** A token of whatever origin is accepted with some claims exactly when it presents those claims and they hold. */
  lemma AcceptedExactly(c: Codec, token: string, secret: string, want: Expectations, now: int, claims: Object)
    ensures Judge(c, token, secret, want, now) == Accepted(claims) <==>
            Presents(c, token, secret, want.alg.GetOr("HS256"), claims) && Holds(claims, want, now)
  {
    var parts := SplitDots(token);
    SplitHasNoDots(token);
    if |parts| == 3 {
      JudgedParts(c, parts, secret, want, now, claims);
      SplitThreeBack(token);
    }
    if head, body, sig, header :| token == head + "." + body + "." + sig &&
                                  Signed(c, head, body, sig, secret, want.alg.GetOr("HS256"), header, claims) {
      SplitThree(head, body, sig);
    }
  }

  /** So an accepted token has every text its caller names. */
  lemma AcceptedSays(c: Codec, token: string, secret: string, want: Expectations, now: int, key: string, expected: string)
    requires Judge(c, token, secret, want, now).Accepted? && expected != ""
    requires (key == "aud" && want.aud == Some(expected)) || (key == "iss" && want.iss == Some(expected)) ||
             (key == "sub" && want.sub == Some(expected))
    ensures var claims := Judge(c, token, secret, want, now).claims; key in claims && claims[key] == Text(expected)
  {
    AcceptedExactly(c, token, secret, want, now, Judge(c, token, secret, want, now).claims);
  }

  lemma SignedIsTested(c: Codec, parts: seq<string>, secret: string, want: Expectations, now: int, header: Object, claims: Object)
    requires |parts| == 3 && Signed(c, parts[0], parts[1], parts[2], secret, want.alg.GetOr("HS256"), header, claims)
    ensures JudgeParts(c, parts, secret, want, now) == TestClaims(claims, want, now)
  {
  }

  /** What a token presents is what its claims are tested by. */
  lemma PresentedIsTested(c: Codec, token: string, secret: string, want: Expectations, now: int, claims: Object)
    requires Presents(c, token, secret, want.alg.GetOr("HS256"), claims)
    ensures Judge(c, token, secret, want, now) ==
            if Holds(claims, want, now) then Accepted(claims) else Refused(FirstWrong(claims, want, now).value)
  {
    var head, body, sig, header :| token == head + "." + body + "." + sig &&
                                   Signed(c, head, body, sig, secret, want.alg.GetOr("HS256"), header, claims);
    SplitThree(head, body, sig);
    SignedIsTested(c, [head, body, sig], secret, want, now, header, claims);
    TestedExactly(claims, want, now);
  }
}
