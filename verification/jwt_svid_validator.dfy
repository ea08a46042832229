/**
  The JWT-SVID header and claim checks of the SPIFFE JWT-SVID standard
  (sections 2 and 3), built on RFC 7519 sections 4.1.2-4.1.4 and 5.1, with
  algorithm names from RFC 7518 section 3.1.

  The validator is stateless: each check is a function from its inputs to
  `Pass` or the error of the first check that fails. The wall clock is the
  parameter `now` (seconds since the Unix epoch). Signatures are not checked.
*/
module JwtSvidValidator {
  import opened Results

  /** The claims every JWT-SVID must carry, in the order they are checked. */
  const REQUIRED_CLAIMS: seq<string> := ["aud", "exp", "sub"]

  /** The JWS algorithms a JWT-SVID may be signed with. */
  const SUPPORTED_ALGORITHMS: seq<string> :=
    ["RS256", "RS384", "RS512", "ES256", "ES384", "ES512", "PS256", "PS384", "PS512"]

  /** The accepted values of the optional `typ` header. */
  const SUPPORTED_TYPES: seq<string> := ["JWT", "JOSE"]

  /** What a `ValueError` complains about. */
  datatype InputProblem = EmptyHeader | EmptyAlgorithm | EmptyExpectedAudience

  /** What an `InvalidClaimError` about the audience complains about. */
  datatype ClaimProblem = EmptyAudienceClaim | AudienceNotMatch

  datatype JwtError =
    | InvalidInput(problem: InputProblem)   // ValueError(INVALID_INPUT_ERROR)
    | InvalidAlgorithm(alg: string)         // InvalidAlgorithmError
    | InvalidType(typ: string)              // InvalidTypeError
    | MissingClaim(claim: string)           // MissingClaimError
    | TokenExpired                          // TokenExpiredError
    | InvalidClaim(reason: ClaimProblem)    // InvalidClaimError

  // ---------------------------------------------------------------------------
  // JOSE header
  // ---------------------------------------------------------------------------

  type Headers = map<string, string>

  /** Python truthiness of `headers.get(key)`: present and non-empty. */
  predicate HeaderPresent(h: Headers, key: string)
  {
    key in h && h[key] != ""
  }

  /**
    An independent description of the allow-list: an RSASSA-PKCS1-v1_5 (RS),
    ECDSA (ES) or RSASSA-PSS (PS) family name followed by a SHA-2 size.
  */
  predicate IsAsymmetricSignatureAlgorithm(alg: string)
  {
    |alg| == 5 && alg[..2] in {"RS", "ES", "PS"} && alg[2..] in {"256", "384", "512"}
  }

  lemma SupportedAlgorithmsAreAsymmetric(alg: string)
    ensures alg in SUPPORTED_ALGORITHMS <==> IsAsymmetricSignatureAlgorithm(alg)
  {
    if alg in SUPPORTED_ALGORITHMS {
      var i :| 0 <= i < |SUPPORTED_ALGORITHMS| && SUPPORTED_ALGORITHMS[i] == alg;
      assert alg[..2] == [alg[0], alg[1]] && alg[2..] == [alg[2], alg[3], alg[4]];
    }
    if IsAsymmetricSignatureAlgorithm(alg) {
      var family, size := alg[..2], alg[2..];
      assert alg == family + size;
      assert family == "RS" || family == "ES" || family == "PS";
      assert size == "256" || size == "384" || size == "512";
      assert alg == [family[0], family[1], size[0], size[1], size[2]];
    }
  }

  /** `validate_headers(headers)`. */
  function ValidateHeaders(h: Headers): (r: Outcome<JwtError>)
    ensures |h| == 0 ==> r == Fail(InvalidInput(EmptyHeader))
    ensures |h| != 0 && !HeaderPresent(h, "alg") ==> r == Fail(InvalidInput(EmptyAlgorithm))
    ensures HeaderPresent(h, "alg") && !IsAsymmetricSignatureAlgorithm(h["alg"]) ==>
      r == Fail(InvalidAlgorithm(h["alg"]))
    ensures r.Fail? && r.error.InvalidType? ==>
      && HeaderPresent(h, "alg")
      && IsAsymmetricSignatureAlgorithm(h["alg"])
      && HeaderPresent(h, "typ")
      && r.error.typ == h["typ"]
    ensures && HeaderPresent(h, "alg")
            && IsAsymmetricSignatureAlgorithm(h["alg"])
            && HeaderPresent(h, "typ")
            && h["typ"] != "JWT" && h["typ"] != "JOSE"
            ==> r == Fail(InvalidType(h["typ"]))
    ensures r == Pass <==>
      && HeaderPresent(h, "alg")
      && IsAsymmetricSignatureAlgorithm(h["alg"])
      && (HeaderPresent(h, "typ") ==> h["typ"] == "JWT" || h["typ"] == "JOSE")
  {
    if |h| == 0 then Fail(InvalidInput(EmptyHeader))
    else if !HeaderPresent(h, "alg") then Fail(InvalidInput(EmptyAlgorithm))
    else
      SupportedAlgorithmsAreAsymmetric(h["alg"]);
      if h["alg"] !in SUPPORTED_ALGORITHMS then Fail(InvalidAlgorithm(h["alg"]))
      else if HeaderPresent(h, "typ") && h["typ"] !in SUPPORTED_TYPES then Fail(InvalidType(h["typ"]))
      else Pass
  }

  /** Symmetric (HMAC) and unsecured tokens are refused whatever their `typ`. */
  lemma HmacAndNoneAreRejected(h: Headers)
    requires "alg" in h && (h["alg"] == "HS256" || h["alg"] == "none")
    ensures ValidateHeaders(h) == Fail(InvalidAlgorithm(h["alg"]))
  {
  }

  /** An absent or empty `typ` never changes the verdict of an otherwise valid header. */
  lemma TypIsOptional(h: Headers)
    requires "typ" !in h
    ensures ValidateHeaders(h["typ" := ""]) == Pass <==> ValidateHeaders(h) == Pass
    ensures |h| != 0 ==> ValidateHeaders(h["typ" := ""]) == ValidateHeaders(h)
  {
  }

  // ---------------------------------------------------------------------------
  // Claims
  // ---------------------------------------------------------------------------

  /** The registered claims the validator reads; other claims play no part. */
  datatype Payload = Payload(aud: Option<seq<string>>, exp: Option<int>, sub: Option<string>)

  /** Python truthiness of `payload.get(claim)` for each required claim. */
  predicate ClaimPresent(p: Payload, claim: string)
  {
    if claim == "aud" then p.aud.Some? && |p.aud.value| != 0
    else if claim == "exp" then p.exp.Some? && p.exp.value != 0
    else if claim == "sub" then p.sub.Some? && p.sub.value != ""
    else false
  }

  /** The first claim of `claims` that is missing or falsy, if any. */
  function FirstMissingClaim(p: Payload, claims: seq<string>): (r: Option<string>)
    ensures r.None? <==> forall i :: 0 <= i < |claims| ==> ClaimPresent(p, claims[i])
    ensures r.Some? ==> exists k :: && 0 <= k < |claims|
                                    && claims[k] == r.value
                                    && !ClaimPresent(p, claims[k])
                                    && forall i :: 0 <= i < k ==> ClaimPresent(p, claims[i])
    decreases |claims|
  {
    if |claims| == 0 then None
    else if !ClaimPresent(p, claims[0]) then Some(claims[0])
    else
      var r := FirstMissingClaim(p, claims[1..]);
      if r.Some? then
        var k :| 0 <= k < |claims[1..]| && claims[1..][k] == r.value && !ClaimPresent(p, claims[1..][k])
          && forall i :: 0 <= i < k ==> ClaimPresent(p, claims[1..][i]);
        assert claims[k + 1] == r.value;
        r
      else
        r
  }

  /** `_validate_exp`: a token expiring exactly now is still accepted. */
  function ValidateExp(exp: int, now: int): (r: Outcome<JwtError>)
    ensures r == Pass <==> now <= exp
    ensures r.Fail? ==> r.error == TokenExpired
  {
    if exp < now then Fail(TokenExpired) else Pass
  }

  /** Python `all(aud == '' for aud in audience_claim)`. */
  function AllBlank(audience: seq<string>): (r: bool)
    ensures r <==> forall i :: 0 <= i < |audience| ==> audience[i] == ""
    decreases |audience|
  {
    if |audience| == 0 then true
    else audience[0] == "" && AllBlank(audience[1..])
  }

  /** `_validate_aud(audience_claim, expected_audience)`. */
  function ValidateAud(audience: seq<string>, expected: set<string>): (r: Outcome<JwtError>)
    ensures expected == {} ==> r == Fail(InvalidInput(EmptyExpectedAudience))
    ensures expected != {} && (forall i :: 0 <= i < |audience| ==> audience[i] == "") ==>
      r == Fail(InvalidClaim(EmptyAudienceClaim))
    ensures r == Pass <==>
      && expected != {}
      && (exists i :: 0 <= i < |audience| && audience[i] != "")
      && (forall e :: e in expected ==> e in audience)
    ensures && expected != {}
            && (exists i :: 0 <= i < |audience| && audience[i] != "")
            && !(forall e :: e in expected ==> e in audience)
            ==> r == Fail(InvalidClaim(AudienceNotMatch))
    ensures r.Fail? ==> r.error.InvalidInput? || r.error.InvalidClaim?
  {
    if expected == {} then Fail(InvalidInput(EmptyExpectedAudience))
    else if |audience| == 0 || AllBlank(audience) then Fail(InvalidClaim(EmptyAudienceClaim))
    else if !(expected <= set a | a in audience) then Fail(InvalidClaim(AudienceNotMatch))
    else Pass
  }

  /** `payload.get('aud', [])`. */
  function AudienceOf(p: Payload): seq<string>
  {
    if p.aud.Some? then p.aud.value else []
  }

  /** All three required claims are present and truthy. */
  predicate HasRequiredClaims(p: Payload)
  {
    ClaimPresent(p, "aud") && ClaimPresent(p, "exp") && ClaimPresent(p, "sub")
  }

  /** `validate_claims(payload, expected_audience)` evaluated at time `now`. */
  function ValidateClaims(p: Payload, expected: set<string>, now: int): (r: Outcome<JwtError>)
    ensures !ClaimPresent(p, "aud") ==> r == Fail(MissingClaim("aud"))
    ensures ClaimPresent(p, "aud") && !ClaimPresent(p, "exp") ==> r == Fail(MissingClaim("exp"))
    ensures ClaimPresent(p, "aud") && ClaimPresent(p, "exp") && !ClaimPresent(p, "sub") ==>
      r == Fail(MissingClaim("sub"))
    ensures HasRequiredClaims(p) && p.exp.value < now ==> r == Fail(TokenExpired)
    ensures HasRequiredClaims(p) && now <= p.exp.value && expected == {} ==>
      r == Fail(InvalidInput(EmptyExpectedAudience))
    ensures HasRequiredClaims(p) && now <= p.exp.value && expected != {}
            && (forall i :: 0 <= i < |p.aud.value| ==> p.aud.value[i] == "") ==>
      r == Fail(InvalidClaim(EmptyAudienceClaim))
    ensures HasRequiredClaims(p) && now <= p.exp.value && expected != {}
            && (exists i :: 0 <= i < |p.aud.value| && p.aud.value[i] != "")
            && !(forall e :: e in expected ==> e in p.aud.value) ==>
      r == Fail(InvalidClaim(AudienceNotMatch))
    ensures HasRequiredClaims(p) && now <= p.exp.value ==> r == ValidateAud(p.aud.value, expected)
    ensures r == Pass <==>
      && HasRequiredClaims(p)
      && now <= p.exp.value
      && expected != {}
      && (exists i :: 0 <= i < |p.aud.value| && p.aud.value[i] != "")
      && (forall e :: e in expected ==> e in p.aud.value)
  {
    match FirstMissingClaim(p, REQUIRED_CLAIMS)
    case Some(claim) => Fail(MissingClaim(claim))
    case None =>
      assert ClaimPresent(p, REQUIRED_CLAIMS[0]) && ClaimPresent(p, REQUIRED_CLAIMS[1])
        && ClaimPresent(p, REQUIRED_CLAIMS[2]);
      var expiry := ValidateExp(p.exp.value, now);
      if expiry.Fail? then expiry
      else ValidateAud(AudienceOf(p), expected)
  }

  /** Python truthiness: `exp == 0` and an empty `aud` list count as missing claims. */
  lemma FalsyClaimsAreMissing(p: Payload, expected: set<string>, now: int)
    ensures p.aud == Some([]) ==> ValidateClaims(p, expected, now) == Fail(MissingClaim("aud"))
    ensures ClaimPresent(p, "aud") && p.exp == Some(0) ==>
      ValidateClaims(p, expected, now) == Fail(MissingClaim("exp"))
  {
  }

  /** Expiry is inclusive: a token is expired exactly when `exp < now`. */
  lemma ExpiryBoundary(p: Payload, expected: set<string>, now: int)
    requires HasRequiredClaims(p)
    ensures ValidateClaims(p, expected, now) == Fail(TokenExpired) <==> p.exp.value < now
    ensures ValidateClaims(p, expected, p.exp.value) != Fail(TokenExpired)
  {
  }

  /** A token accepted at some time is accepted at every earlier time. */
  lemma AcceptedEarlier(p: Payload, expected: set<string>, now: int, earlier: int)
    requires earlier <= now
    requires ValidateClaims(p, expected, now) == Pass
    ensures ValidateClaims(p, expected, earlier) == Pass
  {
  }

  /**
    The audience rule is a subset test: one shared audience is not enough.
    The token's audience ["a", "b"] meets {"a", "c"} but does not contain it.
  */
  lemma AudienceIsSubsetNotIntersection()
    ensures {"a", "c"} * {"a", "b"} != {}
    ensures ValidateAud(["a", "b"], {"a", "c"}) == Fail(InvalidClaim(AudienceNotMatch))
    ensures ValidateAud(["a", "b"], {"a"}) == Pass
  {
    assert "a" in {"a", "c"} * {"a", "b"};
    assert "c" !in ["a", "b"];
  }

  /** Accepting more audiences in the token, or expecting fewer, keeps a token valid. */
  lemma AudienceMonotone(audience: seq<string>, extra: seq<string>, expected: set<string>, fewer: set<string>)
    requires ValidateAud(audience, expected) == Pass
    requires fewer <= expected && fewer != {}
    ensures ValidateAud(audience + extra, expected) == Pass
    ensures ValidateAud(audience, fewer) == Pass
  {
    var i :| 0 <= i < |audience| && audience[i] != "";
    assert (audience + extra)[i] != "";
    forall e | e in expected
      ensures e in audience + extra
    {
      var j :| 0 <= j < |audience| && audience[j] == e;
      assert (audience + extra)[j] == e;
    }
  }

  /** A ValueError about the expected audience is raised only once every earlier check passed. */
  lemma EmptyExpectedAudienceComesLast(p: Payload, now: int)
    ensures ValidateClaims(p, {}, now) == Fail(InvalidInput(EmptyExpectedAudience)) <==>
      HasRequiredClaims(p) && now <= p.exp.value
  {
  }
}
