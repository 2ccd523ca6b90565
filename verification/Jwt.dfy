/** Compact signed tokens (section 7.1 of RFC 7515), HS256 only. */
module Jwt {
  import opened Wrappers
  import opened Base64Url

  datatype Json =
    | Null
    | Bool(b: bool)
    | Num(n: int)
    | Str(s: string)
    | Arr(items: seq<Json>)
    | Obj(fields: map<string, Json>)

  /**
   * What the runtime provides: HMAC-SHA256 of a text under a secret, JSON.stringify as
   * UTF-8 bytes, and JSON.parse of UTF-8 bytes (None when it throws).
   */
  datatype Runtime = Runtime(
    hmac: (string, string) -> seq<Byte>,
    stringify: Json -> seq<Byte>,
    parse: seq<Byte> -> Option<Json>)
  {
    /** Digests have 32 bytes, and objects survive stringify and parse. */
    ghost predicate Faithful() {
      && (forall text, secret :: |hmac(text, secret)| == 32)
      && (forall fields: map<string, Json> :: parse(stringify(Obj(fields))) == Some(Obj(fields)))
    }
  }

  datatype JwtError =
    | MalformedToken
    | MalformedHeader
    | NotAnObject          // reading a property of null throws a TypeError
    | UnsupportedAlgorithm
    | InvalidSignature
    | MalformedPayload

  /** Property access; None is `undefined`. */
  function Get(value: Json, name: string): Option<Json> {
    if value.Obj? && name in value.fields then Some(value.fields[name]) else None
  }

  const HEADER := Obj(map["alg" := Str("HS256"), "typ" := Str("JWT")])

  /** `split(".")`. */
  function Split(s: string): (parts: seq<string>)
    ensures |parts| >= 1
  {
    if s == [] then [[]]
    else
      var parts := Split(s[1..]);
      if s[0] == '.' then [[]] + parts else [[s[0]] + parts[0]] + parts[1..]
  }

  function Sign(runtime: Runtime, signingInput: string, secret: string): string {
    Encode(runtime.hmac(signingInput, secret))
  }

  function SignJwt(runtime: Runtime, claims: map<string, Json>, secret: string): string {
    var encodedHeader := Encode(runtime.stringify(HEADER));
    var encodedPayload := Encode(runtime.stringify(Obj(claims)));
    var signingInput := encodedHeader + "." + encodedPayload;
    signingInput + "." + Sign(runtime, signingInput, secret)
  }

  function VerifyJwtSignature(runtime: Runtime, token: string, secret: string): Result<Json, JwtError> {
    var segments := Split(token);
    if |segments| != 3 then Err(MalformedToken)
    else
      match runtime.parse(Decode(segments[0]))
      case None => Err(MalformedHeader)
      case Some(header) =>
        if header.Null? then Err(NotAnObject)
        else if Get(header, "alg") != Some(Str("HS256")) then Err(UnsupportedAlgorithm)
        else if segments[2] != Sign(runtime, segments[0] + "." + segments[1], secret) then Err(InvalidSignature)
        else match runtime.parse(Decode(segments[1]))
             case None => Err(MalformedPayload)
             case Some(claims) => Ok(claims)
  }

  // ---- splitting ------------------------------------------------------------

  predicate NoDot(s: string) { forall i :: 0 <= i < |s| ==> s[i] != '.' }

  lemma {:induction false} SplitAtDot(a: string, rest: string)
    requires NoDot(a)
    ensures Split(a + "." + rest) == [a] + Split(rest)
  {
    var s := a + "." + rest;
    if a == [] {
      assert s[1..] == rest;
    } else {
      assert s[1..] == a[1..] + "." + rest;
      SplitAtDot(a[1..], rest);
      assert [a[0]] + a[1..] == a;
    }
  }

  lemma {:induction false} SplitWithoutDot(a: string)
    requires NoDot(a)
    ensures Split(a) == [a]
  {
    if a != [] {
      SplitWithoutDot(a[1..]);
      assert [a[0]] + a[1..] == a;
    }
  }

  /** Joining the parts with dots gives the text back, and no part holds a dot. */
  function Join(parts: seq<string>): string
    requires |parts| >= 1
  {
    if |parts| == 1 then parts[0] else parts[0] + "." + Join(parts[1..])
  }

  lemma {:induction false} JoinOfSplit(s: string)
    ensures Join(Split(s)) == s
    ensures forall i :: 0 <= i < |Split(s)| ==> NoDot(Split(s)[i])
  {
    if s != [] {
      JoinOfSplit(s[1..]);
      var parts := Split(s[1..]);
      if s[0] == '.' {
        assert Split(s)[1..] == parts;
        assert s == "." + s[1..];
      } else {
        assert Split(s)[1..] == parts[1..];
        assert s == [s[0]] + s[1..];
      }
    }
  }

  lemma EncodedHasNoDot(b: seq<Byte>)
    ensures NoDot(Encode(b))
  {
    EncodedTextIsUrlSafe(b);
  }

  /** A signed token splits into its three segments: header, claims, and the digest of the two. */
  lemma SignedTokenSegments(runtime: Runtime, claims: map<string, Json>, secret: string)
    ensures var h, p := Encode(runtime.stringify(HEADER)), Encode(runtime.stringify(Obj(claims)));
            Split(SignJwt(runtime, claims, secret)) == [h, p, Encode(runtime.hmac(h + "." + p, secret))]
    ensures HEADER == Obj(map["alg" := Str("HS256"), "typ" := Str("JWT")])
  {
    hide Encode, Split;
    var h, p := Encode(runtime.stringify(HEADER)), Encode(runtime.stringify(Obj(claims)));
    var signature := Sign(runtime, h + "." + p, secret);
    EncodedHasNoDot(runtime.stringify(HEADER));
    EncodedHasNoDot(runtime.stringify(Obj(claims)));
    EncodedHasNoDot(runtime.hmac(h + "." + p, secret));
    SplitOfThree(h, p, signature);
    assert SignJwt(runtime, claims, secret) == h + "." + p + "." + signature;
  }

  /**
   * A token signed under one secret is accepted under another exactly when both give the
   * same digest, and is then the claims that were signed; in particular under its own.
   */
  lemma VerifyOfSign(runtime: Runtime, claims: map<string, Json>, secret: string, other: string)
    requires runtime.Faithful()
    ensures var input := Encode(runtime.stringify(HEADER)) + "." + Encode(runtime.stringify(Obj(claims)));
            VerifyJwtSignature(runtime, SignJwt(runtime, claims, secret), other)
            == if runtime.hmac(input, secret) == runtime.hmac(input, other) then Ok(Obj(claims)) else Err(InvalidSignature)
  {
    hide Encode, Decode, Split, SignJwt;
    SignedTokenSegments(runtime, claims, secret);
    DecodeOfEncode(runtime.stringify(HEADER));
    DecodeOfEncode(runtime.stringify(Obj(claims)));
    var input := Encode(runtime.stringify(HEADER)) + "." + Encode(runtime.stringify(Obj(claims)));
    DecodeOfEncode(runtime.hmac(input, secret));
    DecodeOfEncode(runtime.hmac(input, other));
    HeaderIsHs256(runtime);
  }

  lemma HeaderIsHs256(runtime: Runtime)
    requires runtime.Faithful()
    ensures runtime.parse(runtime.stringify(HEADER)) == Some(HEADER)
    ensures Get(HEADER, "alg") == Some(Str("HS256"))
  {
  }

  lemma ThreeParts(s: string)
    requires |Split(s)| == 3
    ensures var parts := Split(s); s == parts[0] + "." + parts[1] + "." + parts[2]
    ensures var parts := Split(s); NoDot(parts[0]) && NoDot(parts[1]) && NoDot(parts[2])
  {
    hide Split;
    JoinOfSplit(s);
    var parts := Split(s);
    assert Join(parts[1..]) == parts[1] + "." + parts[2] by {
      assert parts[1..][1..] == [parts[2]];
    }
    assert s == parts[0] + "." + (parts[1] + "." + parts[2]);
  }

  lemma SplitOfThree(h: string, p: string, signature: string)
    requires NoDot(h) && NoDot(p) && NoDot(signature)
    ensures Split(h + "." + p + "." + signature) == [h, p, signature]
  {
    hide Split, NoDot;
    SplitAtDot(h, p + "." + signature);
    SplitAtDot(p, signature);
    SplitWithoutDot(signature);
    assert h + "." + p + "." + signature == h + "." + (p + "." + signature);
  }

  /**
   * A token of three segments is accepted exactly when the header is an object that names
   * HS256, the third segment is the digest of the other two, and the payload parses.
   */
  lemma AcceptedExactlyWhen(runtime: Runtime, h: string, p: string, signature: string, secret: string, claims: Json)
    requires NoDot(h) && NoDot(p) && NoDot(signature)
    ensures VerifyJwtSignature(runtime, h + "." + p + "." + signature, secret) == Ok(claims)
            <==> && signature == Encode(runtime.hmac(h + "." + p, secret))
                 && runtime.parse(Decode(p)) == Some(claims)
                 && var header := runtime.parse(Decode(h));
                 && header.Some? && header.value.Obj?
                 && "alg" in header.value.fields && header.value.fields["alg"] == Str("HS256")
  {
    hide Encode, Decode, Split, NoDot;
    SplitOfThree(h, p, signature);
  }

  /** Every accepted token is its first two segments, signed: 43 characters that nothing else can replace. */
  lemma AcceptedTokenIsSigned(runtime: Runtime, token: string, secret: string)
    requires runtime.Faithful() && VerifyJwtSignature(runtime, token, secret).Ok?
    ensures var segments := Split(token);
            && |segments| == 3
            && token == segments[0] + "." + segments[1] + "."
                        + Encode(runtime.hmac(segments[0] + "." + segments[1], secret))
            && |segments[2]| == 43
    ensures var segments := Split(token);
            forall forged ::
              NoDot(forged) && VerifyJwtSignature(runtime, segments[0] + "." + segments[1] + "." + forged, secret).Ok?
              ==> forged == segments[2]
  {
    hide Encode, Decode, Split, NoDot;
    ThreeParts(token);
    var h, p := Split(token)[0], Split(token)[1];
    EncodedTextIsUrlSafe(runtime.hmac(h + "." + p, secret));
    forall forged | NoDot(forged) && VerifyJwtSignature(runtime, h + "." + p + "." + forged, secret).Ok?
      ensures forged == Split(token)[2]
    {
      SplitOfThree(h, p, forged);
    }
  }

  /** The text whose digest a token's last segment is. */
  function SigningInput(token: string): string
    requires |Split(token)| == 3
  {
    Split(token)[0] + "." + Split(token)[1]
  }

  /** Two different texts with one digest under the secret. */
  predicate Collision(runtime: Runtime, a: string, b: string, secret: string) {
    a != b && runtime.hmac(a, secret) == runtime.hmac(b, secret)
  }

  /** A signature is good for one header and payload only, unless the digest collides. */
  lemma SameSignatureMeansCollision(runtime: Runtime, a: string, b: string, secret: string)
    requires runtime.Faithful()
    requires VerifyJwtSignature(runtime, a, secret).Ok? && VerifyJwtSignature(runtime, b, secret).Ok?
    ensures |Split(a)| == |Split(b)| == 3
    ensures Split(a)[2] == Split(b)[2] && a != b ==> Collision(runtime, SigningInput(a), SigningInput(b), secret)
  {
    hide Encode, Decode, Split, NoDot;
    AcceptedTokenIsSigned(runtime, a, secret);
    AcceptedTokenIsSigned(runtime, b, secret);
    DecodeOfEncode(runtime.hmac(SigningInput(a), secret));
    DecodeOfEncode(runtime.hmac(SigningInput(b), secret));
  }
}
