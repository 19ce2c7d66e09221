/** Signed session tokens: a JSON body and its MAC, both base64url, joined by a dot. */
module SessionToken {
  import opened Prelude
  import opened Base64Url

  datatype Value = Number(n: int) | Text(s: string)

  type Body = map<string, Value>

  /** Verification accepts, returns None, or lets a decoding exception through. */
  datatype Verdict = Accepted(body: Body) | Rejected | Raised

  /** The JSON codec and the MAC are parameters: only that decoding undoes encoding is ever assumed. */
  datatype Scheme = Scheme(
    encode: Body -> seq<Byte>,
    decode: seq<Byte> -> Option<Body>,
    mac: (string, string) -> seq<Byte>)

  ghost predicate Lossless(scheme: Scheme) {
    forall body :: scheme.decode(scheme.encode(body)) == Some(body)
  }

  function Stamped(payload: Body, ttl: int, issuedAt: real): Body {
    payload["iat" := Number(Truncate(issuedAt))]["exp" := Number(Truncate(issuedAt + ttl as real))]
  }

  function Create(scheme: Scheme, payload: Body, secret: string, ttl: int, issuedAt: real): string {
    var encoded := EncodeUnpadded(scheme.encode(Stamped(payload, ttl, issuedAt)));
    encoded + "." + EncodeUnpadded(scheme.mac(secret, encoded))
  }

  /** Where the first dot is, or the length of the text if it has none. */
  function FirstDot(text: string): (i: nat)
    ensures i <= |text|
    ensures i < |text| ==> text[i] == '.'
    ensures forall j :: 0 <= j < i ==> text[j] != '.'
  {
    if text == [] || text[0] == '.' then 0 else 1 + FirstDot(text[1..])
  }

  function VerifyBody(body: Body, now: real): Verdict {
    var expiry := if "exp" in body then body["exp"] else Number(0);
    if expiry.Text? then Raised
    else if expiry.n < Truncate(now) then Rejected
    else Accepted(body)
  }

  function VerifyParts(scheme: Scheme, encoded: string, signature: string, secret: string, now: real): Verdict {
    var mac := DecodeUnpadded(signature);
    if mac.None? then Raised
    else if mac.value != scheme.mac(secret, encoded) then Rejected
    else
      var bytes := DecodeUnpadded(encoded);
      if bytes.None? then Raised
      else
        var body := scheme.decode(bytes.value);
        if body.None? then Raised else VerifyBody(body.value, now)
  }

  function Verify(scheme: Scheme, token: string, secret: string, now: real): Verdict {
    var dot := FirstDot(token);
    if dot == |token| then Rejected else VerifyParts(scheme, token[..dot], token[dot + 1..], secret, now)
  }

  // ---------------------------------------------------------------------
  // What verification accepts
  // ---------------------------------------------------------------------

  /** The text consists of these two parts around its first dot. */
  predicate IsToken(text: string, encoded: string, signature: string) {
    text == encoded + "." + signature && '.' !in encoded
  }

  ghost predicate Carries(scheme: Scheme, encoded: string, body: Body) {
    exists bytes :: DecodeUnpadded(encoded) == Some(bytes) && scheme.decode(bytes) == Some(body)
  }

  /** A body without an expiry expired at the epoch. */
  predicate Unexpired(body: Body, now: real) {
    if "exp" in body then body["exp"].Number? && Truncate(now) <= body["exp"].n else Truncate(now) <= 0
  }

  lemma TokenParts(text: string, encoded: string, signature: string)
    requires IsToken(text, encoded, signature)
    ensures FirstDot(text) == |encoded| && encoded == text[..|encoded|] && signature == text[|encoded| + 1..]
  {
    assert text[|encoded|] == '.';
    assert forall j :: 0 <= j < |encoded| ==> text[j] == encoded[j] && encoded[j] in encoded;
  }

  lemma Cut(text: string, i: nat)
    requires i < |text|
    ensures text == text[..i] + [text[i]] + text[i + 1..]
  {
  }

  lemma SplitAtFirstDot(text: string)
    requires FirstDot(text) < |text|
    ensures IsToken(text, text[..FirstDot(text)], text[FirstDot(text) + 1..])
  {
    Cut(text, FirstDot(text));
    assert forall c :: c in text[..FirstDot(text)] ==> c != '.';
  }

  /** The signature part is the MAC of the body part, and this carries an unexpired body. */
  ghost predicate Genuine(
    scheme: Scheme, encoded: string, signature: string, secret: string, body: Body, now: real)
  {
    && DecodeUnpadded(signature) == Some(scheme.mac(secret, encoded))
    && Carries(scheme, encoded, body) && Unexpired(body, now)
  }

  lemma PartsAcceptedExactly(
    scheme: Scheme, encoded: string, signature: string, secret: string, now: real, body: Body)
    ensures VerifyParts(scheme, encoded, signature, secret, now) == Accepted(body)
            <==> Genuine(scheme, encoded, signature, secret, body, now)
  {
  }

  /**
   A text is accepted under a secret if and only if what follows its first dot decodes to the MAC, under that
   secret, of what precedes it, and this carries the returned body, whose expiry is not below the current second.
   */
  lemma AcceptedExactly(scheme: Scheme, token: string, secret: string, now: real, body: Body)
    ensures Verify(scheme, token, secret, now) == Accepted(body)
            <==> exists encoded, signature ::
                   IsToken(token, encoded, signature) && Genuine(scheme, encoded, signature, secret, body, now)
  {
    forall encoded, signature | IsToken(token, encoded, signature)
      ensures encoded == token[..FirstDot(token)] && signature == token[FirstDot(token) + 1..]
    {
      TokenParts(token, encoded, signature);
    }
    var dot := FirstDot(token);
    if dot < |token| {
      SplitAtFirstDot(token);
      PartsAcceptedExactly(scheme, token[..dot], token[dot + 1..], secret, now, body);
    }
  }

  /** It is rejected, rather than failing to decode, if it has no dot, another signature, or an expiry that is past. */
  lemma RejectedExactly(scheme: Scheme, token: string, secret: string, now: real)
    ensures Verify(scheme, token, secret, now) == Rejected
            <==> || '.' !in token
                 || exists encoded, signature ::
                      && IsToken(token, encoded, signature) && DecodeUnpadded(signature).Some?
                      && (DecodeUnpadded(signature).value == scheme.mac(secret, encoded) ==>
                            exists body: Body ::
                              && Carries(scheme, encoded, body) && !Unexpired(body, now)
                              && ("exp" in body ==> body["exp"].Number?))
  {
    forall encoded, signature | IsToken(token, encoded, signature)
      ensures encoded == token[..FirstDot(token)] && signature == token[FirstDot(token) + 1..]
    {
      TokenParts(token, encoded, signature);
    }
    var dot := FirstDot(token);
    if dot < |token| {
      SplitAtFirstDot(token);
      var bytes := DecodeUnpadded(token[..dot]);
      if bytes.Some? && scheme.decode(bytes.value).Some? {
        assert Carries(scheme, token[..dot], scheme.decode(bytes.value).value);
      }
    }
  }

  // ---------------------------------------------------------------------
  // Created tokens
  // ---------------------------------------------------------------------

  /** The first dot of a token separates exactly the two parts it was made of. */
  lemma TokenSplits(encoded: string, signature: string)
    requires UrlSafe(encoded)
    ensures FirstDot(encoded + "." + signature) == |encoded|
  {
    var token := encoded + "." + signature;
    assert token[|encoded|] == '.';
    assert forall j :: 0 <= j < |encoded| ==> token[j] == encoded[j] && ValueOf(token[j]).Some?;
  }

  lemma JoinedParts(scheme: Scheme, encoded: string, signature: string, secret: string, now: real)
    requires FirstDot(encoded + "." + signature) == |encoded|
    ensures Verify(scheme, encoded + "." + signature, secret, now)
            == VerifyParts(scheme, encoded, signature, secret, now)
  {
    var token := encoded + "." + signature;
    assert token[..|encoded|] == encoded && token[|encoded| + 1..] == signature;
  }

  /** What the payload says, and the two times instead of anything it says of them. */
  ghost predicate IsStamped(body: Body, payload: Body, ttl: int, issuedAt: real) {
    && body.Keys == payload.Keys + {"iat", "exp"}
    && body["iat"] == Number(Truncate(issuedAt)) && body["exp"] == Number(Truncate(issuedAt + ttl as real))
    && forall name :: name in payload && name != "iat" && name != "exp" ==> body[name] == payload[name]
  }

  lemma StampedEntries(payload: Body, ttl: int, issuedAt: real)
    ensures IsStamped(Stamped(payload, ttl, issuedAt), payload, ttl, issuedAt)
  {
    assert "iat"[0] != "exp"[0];
  }

  /**
   A created token, verified under any secret: it is accepted, with the body it was created with, until the
   whole second of its expiry is over, if that secret gives the same MAC, and rejected otherwise.
   */
  lemma TokenUnderAnySecret(scheme: Scheme, payload: Body, secret: string, other: string, ttl: int,
                            issuedAt: real, now: real)
    requires Lossless(scheme)
    ensures var body := Stamped(payload, ttl, issuedAt);
            var encoded := EncodeUnpadded(scheme.encode(body));
            && IsStamped(body, payload, ttl, issuedAt)
            && Verify(scheme, Create(scheme, payload, secret, ttl, issuedAt), other, now)
               == if scheme.mac(other, encoded) == scheme.mac(secret, encoded)
                     && Truncate(now) <= Truncate(issuedAt + ttl as real)
                  then Accepted(body) else Rejected
  {
    StampedEntries(payload, ttl, issuedAt);
    var bytes := scheme.encode(Stamped(payload, ttl, issuedAt));
    var encoded := EncodeUnpadded(bytes);
    var mac := scheme.mac(secret, encoded);
    EncodingShape(bytes);
    TokenSplits(encoded, EncodeUnpadded(mac));
    JoinedParts(scheme, encoded, EncodeUnpadded(mac), other, now);
    UnpaddedRoundTrip(bytes);
    UnpaddedRoundTrip(mac);
  }

  /** In particular under its own. */
  lemma TokenRoundTrip(scheme: Scheme, payload: Body, secret: string, ttl: int, issuedAt: real, now: real)
    requires Lossless(scheme)
    ensures var verdict := Verify(scheme, Create(scheme, payload, secret, ttl, issuedAt), secret, now);
            if Truncate(now) <= Truncate(issuedAt + ttl as real) then
              verdict.Accepted? && IsStamped(verdict.body, payload, ttl, issuedAt)
            else verdict == Rejected
  {
    TokenUnderAnySecret(scheme, payload, secret, secret, ttl, issuedAt, now);
  }

  /**
   Despite both truncations a token lives through its nominal lifetime and never a second longer.
   Truncation toward zero stretches only the second just before the epoch.
   */
  lemma TokenLifetime(scheme: Scheme, payload: Body, secret: string, ttl: int, issuedAt: real, now: real)
    requires Lossless(scheme)
    ensures var expiry := issuedAt + ttl as real;
            var verdict := Verify(scheme, Create(scheme, payload, secret, ttl, issuedAt), secret, now);
            && (now <= expiry ==> verdict.Accepted? && IsStamped(verdict.body, payload, ttl, issuedAt))
            && (now >= expiry + 1.0 ==>
                  (verdict == Rejected <==> !(-1.0 < expiry < 0.0 && now < 1.0)))
  {
    TokenRoundTrip(scheme, payload, secret, ttl, issuedAt, now);
  }
}
