# SPIFFE X.509 trust bundle and JWT-SVID validator, modelled in Dafny

This project models two pieces of SPIFFE trust logic from py-spiffe and proves
properties of the model.

- **`X509Bundles`** (`x509_bundle.dfy`) models the X.509 trust bundle. A bundle
  is an immutable record of a trust domain and a `set` of CA certificates.
  The certificate type is a type parameter with value equality.
  `add_authority` and `remove_authority` become functions from the old bundle
  to the new one. Construction, `parse`, `parse_raw`, `load` and `save` return
  a `Result`/`Outcome` whose error tags stand for the exceptions the source
  raises. The PEM and DER decoders, the certificate writer and the file reader
  are not part of this model. They are passed in as a `Collaborators` record of
  total functions, each returning a value or a `Failure`. "The writer is not
  attempted" is stated as "the result does not depend on the writer".
- **`JwtSvidValidator`** (`jwt_svid_validator.dfy`) models the header and
  claim checks of the SPIFFE JWT-SVID standard, sections 2 and 3. These rest on
  RFC 7519 sections 4.1.2-4.1.4 and 5.1, with algorithm names from RFC 7518
  section 3.1. Each check is a pure function that returns `Pass` or the error
  of the first check that fails. The current time is the integer parameter
  `now`.
- **`Results`** (`results.dfy`) holds the shared `Option`, `Result` and
  `Outcome` datatypes.

Points where the model follows the code rather than its documentation:

- `load`'s docstring promises `LoadX509BundleError` when the bytes cannot be
  parsed. The code raises that error only when reading the file fails. A parse
  failure escapes from `parse`/`parse_raw` as `ParseX509BundleError`, and that
  is what `Load` returns.
- `remove_authority` on a non-empty bundle without the certificate is not a
  no-op. Python's `set.remove` raises `KeyError` there, modelled as
  `AuthorityNotFound`. On an empty bundle the call is a no-op for every
  certificate.
- The `typ` header is checked only after `alg` has passed. An empty `exp`
  (`0`) or `aud` (`[]`) is reported as a missing claim, because the
  required-claim loop tests Python truthiness.

## Model

| member | source | states |
|---|---|---|
| `X509Bundles.New` | src/pyspiffe/bundle/x509_bundle/x509_bundle.py:32-53 | Construction fails with the missing-trust-domain error exactly when the trust domain is absent or empty. Otherwise the bundle is valid and keeps the given domain. Its authorities are the given set, or the empty set when none is given. |
| `X509Bundles.GetTrustDomain` | src/pyspiffe/bundle/x509_bundle/x509_bundle.py:64-66 | `trust_domain()` returns the stored trust domain, which is non-empty for every valid bundle. |
| `X509Bundles.GetAuthorities` | src/pyspiffe/bundle/x509_bundle/x509_bundle.py:68-71 | `x509_authorities()` returns the stored authority set. Under value semantics this is already a copy, so later mutations of the bundle cannot affect it. |
| `X509Bundles.ReadBackAfterNew` | src/pyspiffe/bundle/x509_bundle/x509_bundle.py:64-71 | `trust_domain()` and `x509_authorities()` on a freshly built bundle return exactly the construction arguments. |
| `X509Bundles.Equals` | src/pyspiffe/bundle/x509_bundle/x509_bundle.py:55-62 | `__eq__` is true exactly when the other operand is a bundle with the same trust domain and the same authority set. It is false for any non-bundle. |
| `X509Bundles.EqualsIsEquivalence` | src/pyspiffe/bundle/x509_bundle/x509_bundle.py:55-62 | Bundle equality is reflexive, symmetric and transitive. |
| `X509Bundles.AddAuthority` | src/pyspiffe/bundle/x509_bundle/x509_bundle.py:73-76 | Adding keeps the trust domain. The new set holds exactly the old members plus the certificate. The size grows by one exactly when the certificate was new. |
| `X509Bundles.AddIsIdempotent` | src/pyspiffe/bundle/x509_bundle/x509_bundle.py:73-76 | Adding a certificate twice equals adding it once. |
| `X509Bundles.AddCommutes` | src/pyspiffe/bundle/x509_bundle/x509_bundle.py:73-76 | The order of two additions does not matter. |
| `X509Bundles.AddsOnlyAccumulate` | src/pyspiffe/bundle/x509_bundle/x509_bundle.py:73-76 | Any run of additions succeeds. Its result holds exactly the old authorities plus every added certificate. |
| `X509Bundles.SetRemove` | src/pyspiffe/bundle/x509_bundle/x509_bundle.py:83 | Python `set.remove` succeeds exactly when the element is present, and then drops only that element. Otherwise it raises the not-found error. |
| `X509Bundles.RemoveAuthority` | src/pyspiffe/bundle/x509_bundle/x509_bundle.py:78-83 | On an empty set, removal is a no-op. For a member, it yields the old set minus that certificate and keeps the domain. For a non-member of a non-empty set, it fails with the not-found error. |
| `X509Bundles.RemoveAbsentFailsUnlessEmpty` | src/pyspiffe/bundle/x509_bundle/x509_bundle.py:78-83 | Removing an absent certificate succeeds if and only if the bundle is empty. This is the asymmetric remove rule. |
| `X509Bundles.RemoveAfterAdd` | src/pyspiffe/bundle/x509_bundle/x509_bundle.py:73-83 | Removing a just-added certificate always succeeds and leaves the old set minus that certificate. It restores the original bundle when the certificate was new. |
| `X509Bundles.AddAfterRemove` | src/pyspiffe/bundle/x509_bundle/x509_bundle.py:73-83 | Re-adding a removed member restores the original bundle. |
| `X509Bundles.ApplyAll` | src/pyspiffe/bundle/x509_bundle/x509_bundle.py:73-83 | No sequence of additions and removals changes the trust domain, so the non-empty-domain invariant is kept. The only possible error is the not-found error. |
| `X509Bundles.Save` | src/pyspiffe/bundle/x509_bundle/x509_bundle.py:85-113 | An encoding other than PEM or DER fails with the argument error. Otherwise the result passes exactly when the writer, given the bundle's authority set, succeeds. A writer failure becomes a save error that carries its cause. |
| `X509Bundles.SaveRejectsEncodingBeforeWriting` | src/pyspiffe/bundle/x509_bundle/x509_bundle.py:102-109 | With an unsupported encoding, the result is the same whatever the writer does, so no write is attempted. |
| `X509Bundles.SaveWritesTheAuthoritySet` | src/pyspiffe/bundle/x509_bundle/x509_bundle.py:108-113 | The outcome of `save` depends on the writer only through the writer's answer for the bundle's path, encoding and authority set. |
| `X509Bundles.ParseWith` | src/pyspiffe/bundle/x509_bundle/x509_bundle.py:131-136 | A decoder failure becomes a parse error carrying its cause, even when the trust domain is missing. Success requires both a successful decode and a valid trust domain. The authorities are then exactly the decoded certificates. |
| `X509Bundles.Parse` | src/pyspiffe/bundle/x509_bundle/x509_bundle.py:115-136 | `parse` with the PEM decoder has the error precedence and success contents described for `ParseWith`. |
| `X509Bundles.ParseRaw` | src/pyspiffe/bundle/x509_bundle/x509_bundle.py:138-159 | `parse_raw` does the same with the DER decoder. |
| `X509Bundles.ParseAndParseRawAgree` | src/pyspiffe/bundle/x509_bundle/x509_bundle.py:131-159 | Given the same decoder outcome, `parse` and `parse_raw` return the same result. |
| `X509Bundles.DecodeErrorBeatsMissingTrustDomain` | src/pyspiffe/bundle/x509_bundle/x509_bundle.py:131-159 | With a missing trust domain, both parsers report a parse error if decoding fails. Only if decoding succeeds do they report the missing trust domain. |
| `X509Bundles.Load` | src/pyspiffe/bundle/x509_bundle/x509_bundle.py:161-196 | A read failure becomes a load error whatever the encoding. Otherwise PEM dispatches to `parse`, DER dispatches to `parse_raw`, and any other encoding is the argument error. A loaded bundle is valid and carries the given trust domain. |
| `X509Bundles.LoadErrorPrecedence` | src/pyspiffe/bundle/x509_bundle/x509_bundle.py:183-196 | `load` fails with a load error exactly when reading fails. It fails with the argument error exactly when reading succeeds and the encoding is unsupported. It fails with a parse error exactly when reading succeeds and the selected decoder fails. |
| `X509Bundles.LoadReadFailureIgnoresDecoders` | src/pyspiffe/bundle/x509_bundle/x509_bundle.py:183-186 | After a read failure, the result depends neither on the encoding nor on the decoders. |
| `JwtSvidValidator.SupportedAlgorithmsAreAsymmetric` | src/pyspiffe/svid/jwt_svid_validator.py:30-40 | The nine-entry allow-list is exactly the RS, ES and PS families with the sizes 256, 384 and 512. |
| `JwtSvidValidator.ValidateHeaders` | src/pyspiffe/svid/jwt_svid_validator.py:47-75 | An empty header map gives the empty-header value error. An absent or empty `alg` gives the empty-alg value error. An `alg` outside the allow-list gives `InvalidAlgorithm(alg)`. With a supported `alg`, a non-empty `typ` other than `JWT` or `JOSE` gives `InvalidType(typ)`, and a type error occurs only then. The header passes exactly when `alg` is supported and any non-empty `typ` is `JWT` or `JOSE`. |
| `JwtSvidValidator.HmacAndNoneAreRejected` | src/pyspiffe/svid/jwt_svid_validator.py:70-71 | `HS256` and `none` are refused with `InvalidAlgorithm`, whatever else the header holds. |
| `JwtSvidValidator.TypIsOptional` | src/pyspiffe/svid/jwt_svid_validator.py:73-75 | Adding an empty `typ` never changes whether a header passes. On a non-empty header it does not change the result at all. |
| `JwtSvidValidator.FirstMissingClaim` | src/pyspiffe/svid/jwt_svid_validator.py:95-97 | The required-claim loop reports nothing exactly when every listed claim is truthy. Otherwise it reports a falsy claim whose predecessors in the list are all truthy. |
| `JwtSvidValidator.ValidateExp` | src/pyspiffe/svid/jwt_svid_validator.py:102-116 | The expiry check passes exactly when `now <= exp`, so a token expiring at `now` is accepted. Its only error is `TokenExpired`. |
| `JwtSvidValidator.AllBlank` | src/pyspiffe/svid/jwt_svid_validator.py:136 | `all(aud == '' ...)` holds exactly when every entry of the audience list is the empty string, including for the empty list. |
| `JwtSvidValidator.ValidateAud` | src/pyspiffe/svid/jwt_svid_validator.py:118-140 | An empty expected audience gives the value error first. An all-blank audience claim gives `InvalidClaim(EmptyAudienceClaim)`. A claim with a non-blank entry that misses some expected audience gives `InvalidClaim(AudienceNotMatch)`. The check passes exactly when the expected set is non-empty, the claim has a non-blank entry, and every expected audience occurs in the claim. |
| `JwtSvidValidator.ValidateClaims` | src/pyspiffe/svid/jwt_svid_validator.py:77-100 | The first falsy claim in the order `aud`, `exp`, `sub` is reported as missing. Then `exp < now` gives `TokenExpired`. Once all claims are present and the token is unexpired, the result is exactly the audience check's: an empty expected audience gives the value error, an all-blank `aud` gives `InvalidClaim(EmptyAudienceClaim)`, and an expected audience outside `aud` gives `InvalidClaim(AudienceNotMatch)`. Validation passes exactly when all claims are present, `now <= exp`, and the expected audience is a non-empty subset of an `aud` with a non-blank entry. |
| `JwtSvidValidator.FalsyClaimsAreMissing` | src/pyspiffe/svid/jwt_svid_validator.py:95-97 | `aud == []` is reported as a missing `aud`. With `aud` present, `exp == 0` is reported as a missing `exp`, not as an expired token. |
| `JwtSvidValidator.ExpiryBoundary` | src/pyspiffe/svid/jwt_svid_validator.py:113-116 | With all claims present, the token is reported expired exactly when `exp < now`. A token evaluated at `now == exp` is not expired. |
| `JwtSvidValidator.AcceptedEarlier` | src/pyspiffe/svid/jwt_svid_validator.py:113-116 | A payload accepted at some time is accepted at every earlier time. |
| `JwtSvidValidator.AudienceIsSubsetNotIntersection` | src/pyspiffe/svid/jwt_svid_validator.py:139-140 | A token for `["a", "b"]` is rejected for the expected set `{"a", "c"}`, although the two share `"a"`. It is accepted for `{"a"}`. |
| `JwtSvidValidator.AudienceMonotone` | src/pyspiffe/svid/jwt_svid_validator.py:131-140 | An accepted audience claim stays accepted when the token lists more audiences, or when fewer (but some) audiences are expected. |
| `JwtSvidValidator.EmptyExpectedAudienceComesLast` | src/pyspiffe/svid/jwt_svid_validator.py:95-134 | An empty expected audience yields the value error exactly when all claims are present and the token is unexpired. Otherwise an earlier error wins. |

## Left out

- The `threading.Lock` guarding the authority set, and `__eq__` locking only its left operand. This is concurrency; the model is sequential and value-based, so copy-on-read holds trivially.
- PEM/DER decoding, certificate serialisation, and reading and writing files. These are foreign library and I/O calls whose code is not part of this model. They appear only as the `Collaborators` functions, which may fail. No save/load round trip is claimed, because nothing about those collaborators guarantees one.
- The internals of `cryptography`'s `Certificate`. Certificates are a type parameter with value equality.
- The `TrustDomain` class is not part of this model. Its truthiness is modelled as "present with a non-empty name".
- The members of the library's `Encoding` enum other than PEM and DER are folded into `OtherEncoding(name)`.
- Error message texts, including the `'Error writing X.509 bundle to file: '` prefix. Errors are tags, and the wrapping errors keep the collaborator's `Failure`.
- `datetime.utcnow()` and `timegm`, the wall clock. The current time is the parameter `now`.
- `int(str(exp))` raising on a non-integer `exp`. `exp` is modelled as an integer.
- Claim values of other JSON types, in particular a string-valued `aud`. Python's `in` would then match substrings. The payload is modelled as the three claims the validator reads, with `aud` a list of strings.
- JWT signature verification. The validator does not perform it.
- `JwtBundle`. Only its tests are available, not its code, so it is not part of this model.
