/**
  An X.509 trust bundle: a SPIFFE trust domain together with the set of CA
  certificates trusted for it.

  Certificates are a type parameter `C` whose only property is value
  equality. The certificate decoders, the encoder-and-writer and the file
  reader are collaborators whose code is not part of this model; they are
  passed in as total functions that either produce a value or a failure.
  An operation "does not attempt" a collaborator call when its result is
  the same whatever that collaborator does.
*/
module X509Bundles {
  import opened Results

  newtype byte = x: int | 0 <= x < 256
  type Bytes = seq<byte>
  type Path = string

  /** A SPIFFE trust domain, used only through its name and value equality. */
  datatype TrustDomain = TrustDomain(name: string)

  /** Python truthiness of the `trust_domain` argument: present and non-empty. */
  predicate IsTruthy(td: Option<TrustDomain>)
  {
    td.Some? && td.value.name != ""
  }

  /** The serialisation selector; only PEM and DER are supported by the bundle. */
  datatype Encoding = PEM | DER | OtherEncoding(name: string)

  predicate IsSupported(enc: Encoding)
  {
    enc.PEM? || enc.DER?
  }

  /** The failure raised by a collaborator, reduced to its message. */
  datatype Failure = Failure(message: string)

  /** One tag per exception the bundle code raises or lets escape. */
  datatype BundleError =
    | MissingTrustDomain                       // X509BundleError(MISSING_TRUST_DOMAIN)
    | UnsupportedEncoding(encoding: Encoding)  // ArgumentError
    | SaveError(cause: Failure)                // SaveX509BundleError
    | ParseError(cause: Failure)               // ParseX509BundleError
    | LoadError(cause: Failure)                // LoadX509BundleError
    | AuthorityNotFound                        // KeyError escaping from set.remove

  /** The collaborators the bundle delegates to. */
  datatype Collaborators<!C> = Collaborators(
    decodePem: Bytes -> Result<seq<C>, Failure>,
    decodeDer: Bytes -> Result<seq<C>, Failure>,
    readFile: Path -> Result<Bytes, Failure>,
    writeFile: (Path, Encoding, set<C>) -> Outcome<Failure>)

  datatype X509Bundle<C> = X509Bundle(trustDomain: TrustDomain, authorities: set<C>)

  /** The invariant every bundle keeps: its trust domain is non-empty. */
  predicate Valid<C(!new)>(b: X509Bundle<C>)
  {
    b.trustDomain.name != ""
  }

  /** The right-hand operand of `__eq__`, which may be any Python object. */
  datatype Operand<C> = BundleOperand(bundle: X509Bundle<C>) | NonBundle

  /** The set of elements of a decoded certificate list (Python `set(list)`). */
  function Elements<C(!new)>(certs: seq<C>): (s: set<C>)
    ensures forall x :: x in s <==> x in certs
  {
    set x | x in certs
  }

  // ---------------------------------------------------------------------------
  // Construction and accessors
  // ---------------------------------------------------------------------------

  /** `X509Bundle(trust_domain, x509_authorities)`. */
  function New<C(!new)>(td: Option<TrustDomain>, authorities: Option<set<C>>): (r: Result<X509Bundle<C>, BundleError>)
    ensures r.Err? <==> !IsTruthy(td)
    ensures r.Err? ==> r.error == MissingTrustDomain
    ensures r.Ok? ==> Valid(r.value) && td == Some(r.value.trustDomain)
    ensures r.Ok? && authorities.None? ==> r.value.authorities == {}
    ensures r.Ok? && authorities.Some? ==> r.value.authorities == authorities.value
  {
    if !IsTruthy(td) then Err(MissingTrustDomain)
    else
      var copied := if authorities.Some? && authorities.value != {} then authorities.value else {};
      Ok(X509Bundle(td.value, copied))
  }

  /** `trust_domain()`. */
  function GetTrustDomain<C(!new)>(b: X509Bundle<C>): (td: TrustDomain)
    ensures td == b.trustDomain
    ensures Valid(b) ==> td.name != ""
  {
    b.trustDomain
  }

  /** `x509_authorities()`: a copy, which for an immutable value is the value itself. */
  function GetAuthorities<C(!new)>(b: X509Bundle<C>): (s: set<C>)
    ensures s == b.authorities
  {
    b.authorities
  }

  /** Reading back a freshly built bundle returns exactly what it was given. */
  lemma ReadBackAfterNew<C(!new)>(td: TrustDomain, authorities: Option<set<C>>)
    requires td.name != ""
    ensures New(Some(td), authorities).Ok?
    ensures GetTrustDomain(New(Some(td), authorities).value) == td
    ensures authorities.Some? ==> GetAuthorities(New(Some(td), authorities).value) == authorities.value
    ensures authorities.None? ==> GetAuthorities(New(Some(td), authorities).value) == {}
  {
  }

  // ---------------------------------------------------------------------------
  // Equality
  // ---------------------------------------------------------------------------

  /** `__eq__`: field-wise comparison with another bundle, false for anything else. */
  function Equals<C(!new)>(a: X509Bundle<C>, o: Operand<C>): (r: bool)
    ensures r <==> o == BundleOperand(a)
  {
    match o
    case NonBundle => false
    case BundleOperand(b) => a.trustDomain == b.trustDomain && a.authorities == b.authorities
  }

  /** Bundle equality is an equivalence relation. */
  lemma EqualsIsEquivalence<C(!new)>(a: X509Bundle<C>, b: X509Bundle<C>, c: X509Bundle<C>)
    ensures Equals(a, BundleOperand(a))
    ensures Equals(a, BundleOperand(b)) <==> Equals(b, BundleOperand(a))
    ensures Equals(a, BundleOperand(b)) && Equals(b, BundleOperand(c)) ==> Equals(a, BundleOperand(c))
  {
  }

  // ---------------------------------------------------------------------------
  // Mutation, as functions from the old bundle to the new one
  // ---------------------------------------------------------------------------

  /** `add_authority(c)`: set insertion. */
  function AddAuthority<C(!new)>(b: X509Bundle<C>, c: C): (r: X509Bundle<C>)
    ensures r.trustDomain == b.trustDomain
    ensures forall x :: x in r.authorities <==> x == c || x in b.authorities
    ensures |r.authorities| == if c in b.authorities then |b.authorities| else |b.authorities| + 1
  {
    var added := b.authorities + {c};
    assert c in b.authorities ==> added == b.authorities;
    assert c !in b.authorities ==> added - {c} == b.authorities;
    b.(authorities := added)
  }

  /** Python `set.remove`: raises `KeyError` when the element is absent. */
  function SetRemove<C(!new)>(s: set<C>, c: C): (r: Result<set<C>, BundleError>)
    ensures r.Ok? <==> c in s
    ensures r.Err? ==> r.error == AuthorityNotFound
    ensures r.Ok? ==> (forall x :: x in r.value <==> x in s && x != c) && |r.value| == |s| - 1
  {
    if c in s then Ok(s - {c}) else Err(AuthorityNotFound)
  }

  /** `remove_authority(c)`: a no-op on an empty set, otherwise `set.remove`. */
  function RemoveAuthority<C(!new)>(b: X509Bundle<C>, c: C): (r: Result<X509Bundle<C>, BundleError>)
    ensures b.authorities == {} ==> r == Ok(b)
    ensures c in b.authorities ==> r.Ok? && r.value.trustDomain == b.trustDomain
    ensures c in b.authorities ==> forall x :: x in r.value.authorities <==> x in b.authorities && x != c
    ensures b.authorities != {} && c !in b.authorities ==> r == Err(AuthorityNotFound)
  {
    if b.authorities == {} then Ok(b)
    else
      match SetRemove(b.authorities, c)
      case Err(e) => Err(e)
      case Ok(rest) => Ok(b.(authorities := rest))
  }

  /** Adding the same certificate twice is the same as adding it once. */
  lemma AddIsIdempotent<C(!new)>(b: X509Bundle<C>, c: C)
    ensures AddAuthority(AddAuthority(b, c), c) == AddAuthority(b, c)
  {
  }

  /** The order in which certificates are added does not matter. */
  lemma AddCommutes<C(!new)>(b: X509Bundle<C>, c: C, d: C)
    ensures AddAuthority(AddAuthority(b, c), d) == AddAuthority(AddAuthority(b, d), c)
  {
  }

  /**
    Removing a just-added certificate succeeds (the set is non-empty) and
    gives back the original bundle exactly when the certificate was new.
  */
  lemma RemoveAfterAdd<C(!new)>(b: X509Bundle<C>, c: C)
    ensures RemoveAuthority(AddAuthority(b, c), c).Ok?
    ensures RemoveAuthority(AddAuthority(b, c), c).value.authorities == b.authorities - {c}
    ensures c !in b.authorities ==> RemoveAuthority(AddAuthority(b, c), c) == Ok(b)
  {
  }

  /** Re-adding a removed certificate restores the bundle. */
  lemma AddAfterRemove<C(!new)>(b: X509Bundle<C>, c: C)
    requires c in b.authorities
    ensures RemoveAuthority(b, c).Ok?
    ensures AddAuthority(RemoveAuthority(b, c).value, c) == b
  {
  }

  /** The asymmetric remove rule: absent certificates are tolerated only by an empty bundle. */
  lemma RemoveAbsentFailsUnlessEmpty<C(!new)>(b: X509Bundle<C>, c: C)
    requires c !in b.authorities
    ensures RemoveAuthority(b, c).Ok? <==> b.authorities == {}
  {
  }

  /** A mutation applied to a live bundle. */
  datatype Mutation<C> = Add(cert: C) | Remove(cert: C)

  function Apply<C(!new)>(b: X509Bundle<C>, m: Mutation<C>): Result<X509Bundle<C>, BundleError>
  {
    match m
    case Add(c) => Ok(AddAuthority(b, c))
    case Remove(c) => RemoveAuthority(b, c)
  }

  /** Applies mutations in order, stopping at the first one that raises. */
  function ApplyAll<C(!new)>(b: X509Bundle<C>, ms: seq<Mutation<C>>): (r: Result<X509Bundle<C>, BundleError>)
    ensures r.Ok? ==> r.value.trustDomain == b.trustDomain
    ensures r.Err? ==> r.error == AuthorityNotFound
    decreases |ms|
  {
    if |ms| == 0 then Ok(b)
    else
      match Apply(b, ms[0])
      case Err(e) => Err(e)
      case Ok(next) => ApplyAll(next, ms[1..])
  }

  /** A run of additions only never fails and yields the old set plus the added certificates. */
  lemma {:induction false} AddsOnlyAccumulate<C(!new)>(b: X509Bundle<C>, ms: seq<Mutation<C>>)
    requires forall i :: 0 <= i < |ms| ==> ms[i].Add?
    ensures ApplyAll(b, ms).Ok?
    ensures forall x :: x in ApplyAll(b, ms).value.authorities <==>
      x in b.authorities || exists i :: 0 <= i < |ms| && ms[i].cert == x
    decreases |ms|
  {
    if |ms| > 0 {
      var next := AddAuthority(b, ms[0].cert);
      AddsOnlyAccumulate(next, ms[1..]);
      forall x
        ensures x in ApplyAll(b, ms).value.authorities <==>
          x in b.authorities || exists i :: 0 <= i < |ms| && ms[i].cert == x
      {
        if exists i :: 0 <= i < |ms| && ms[i].cert == x {
          var i :| 0 <= i < |ms| && ms[i].cert == x;
          if i > 0 {
            assert ms[1..][i - 1].cert == x;
          }
        }
        if exists j :: 0 <= j < |ms[1..]| && ms[1..][j].cert == x {
          var j :| 0 <= j < |ms[1..]| && ms[1..][j].cert == x;
          assert ms[j + 1].cert == x;
        }
      }
    }
  }

  // ---------------------------------------------------------------------------
  // Save, parse and load
  // ---------------------------------------------------------------------------

  /** `save(bundle_path, encoding)`. */
  function Save<C(!new)>(env: Collaborators<C>, b: X509Bundle<C>, path: Path, enc: Encoding): (r: Outcome<BundleError>)
    ensures !IsSupported(enc) ==> r == Fail(UnsupportedEncoding(enc))
    ensures IsSupported(enc) ==> (r.Pass? <==> env.writeFile(path, enc, b.authorities).Pass?)
    ensures IsSupported(enc) && env.writeFile(path, enc, b.authorities).Fail? ==>
      r == Fail(SaveError(env.writeFile(path, enc, b.authorities).error))
    ensures r.Fail? ==> r.error.UnsupportedEncoding? || r.error.SaveError?
  {
    if !IsSupported(enc) then Fail(UnsupportedEncoding(enc))
    else
      match env.writeFile(path, enc, b.authorities)
      case Fail(cause) => Fail(SaveError(cause))
      case Pass => Pass
  }

  /** An unsupported encoding is rejected before the writer is consulted. */
  lemma SaveRejectsEncodingBeforeWriting<C(!new)>(env1: Collaborators<C>, env2: Collaborators<C>,
                                          b: X509Bundle<C>, path: Path, enc: Encoding)
    requires !IsSupported(enc)
    ensures Save(env1, b, path, enc) == Save(env2, b, path, enc)
  {
  }

  /** The outcome depends on the writer only through its answer for the bundle's path, encoding and authority set. */
  lemma SaveWritesTheAuthoritySet<C(!new)>(env1: Collaborators<C>, env2: Collaborators<C>,
                                    b: X509Bundle<C>, path: Path, enc: Encoding)
    requires env1.writeFile(path, enc, b.authorities) == env2.writeFile(path, enc, b.authorities)
    ensures Save(env1, b, path, enc) == Save(env2, b, path, enc)
  {
  }

  /** The shared body of `parse` and `parse_raw`: decode first, then construct. */
  function ParseWith<C(!new)>(decode: Bytes -> Result<seq<C>, Failure>, td: Option<TrustDomain>, bytes: Bytes)
    : (r: Result<X509Bundle<C>, BundleError>)
    ensures decode(bytes).Err? ==> r == Err(ParseError(decode(bytes).error))
    ensures decode(bytes).Ok? && !IsTruthy(td) ==> r == Err(MissingTrustDomain)
    ensures r.Ok? <==> decode(bytes).Ok? && IsTruthy(td)
    ensures r.Ok? ==> Valid(r.value) && td == Some(r.value.trustDomain)
    ensures r.Ok? ==> forall x :: x in r.value.authorities <==> x in decode(bytes).value
  {
    match decode(bytes)
    case Err(cause) => Err(ParseError(cause))
    case Ok(certs) => New(td, Some(Elements(certs)))
  }

  /** `parse(trust_domain, bundle_bytes)`: PEM blocks. */
  function Parse<C(!new)>(env: Collaborators<C>, td: Option<TrustDomain>, bytes: Bytes): (r: Result<X509Bundle<C>, BundleError>)
    ensures env.decodePem(bytes).Err? ==> r == Err(ParseError(env.decodePem(bytes).error))
    ensures env.decodePem(bytes).Ok? && !IsTruthy(td) ==> r == Err(MissingTrustDomain)
    ensures r.Ok? <==> env.decodePem(bytes).Ok? && IsTruthy(td)
    ensures r.Ok? ==> Valid(r.value) && td == Some(r.value.trustDomain)
    ensures r.Ok? ==> forall x :: x in r.value.authorities <==> x in env.decodePem(bytes).value
  {
    ParseWith(env.decodePem, td, bytes)
  }

  /** `parse_raw(trust_domain, bundle_bytes)`: concatenated DER certificates. */
  function ParseRaw<C(!new)>(env: Collaborators<C>, td: Option<TrustDomain>, bytes: Bytes): (r: Result<X509Bundle<C>, BundleError>)
    ensures env.decodeDer(bytes).Err? ==> r == Err(ParseError(env.decodeDer(bytes).error))
    ensures env.decodeDer(bytes).Ok? && !IsTruthy(td) ==> r == Err(MissingTrustDomain)
    ensures r.Ok? <==> env.decodeDer(bytes).Ok? && IsTruthy(td)
    ensures r.Ok? ==> Valid(r.value) && td == Some(r.value.trustDomain)
    ensures r.Ok? ==> forall x :: x in r.value.authorities <==> x in env.decodeDer(bytes).value
  {
    ParseWith(env.decodeDer, td, bytes)
  }

  /** `parse` and `parse_raw` differ only in the decoder they call. */
  lemma ParseAndParseRawAgree<C(!new)>(pem: Collaborators<C>, der: Collaborators<C>, td: Option<TrustDomain>, bytes: Bytes)
    requires pem.decodePem(bytes) == der.decodeDer(bytes)
    ensures Parse(pem, td, bytes) == ParseRaw(der, td, bytes)
  {
  }

  /** A decode failure wins over a missing trust domain, for both parsers. */
  lemma DecodeErrorBeatsMissingTrustDomain<C(!new)>(env: Collaborators<C>, td: Option<TrustDomain>, bytes: Bytes)
    requires !IsTruthy(td)
    ensures env.decodePem(bytes).Err? ==> Parse(env, td, bytes).error.ParseError?
    ensures env.decodePem(bytes).Ok? ==> Parse(env, td, bytes) == Err(MissingTrustDomain)
    ensures env.decodeDer(bytes).Err? ==> ParseRaw(env, td, bytes).error.ParseError?
    ensures env.decodeDer(bytes).Ok? ==> ParseRaw(env, td, bytes) == Err(MissingTrustDomain)
  {
  }

  /** `load(trust_domain, bundle_path, encoding)`. */
  function Load<C(!new)>(env: Collaborators<C>, td: Option<TrustDomain>, path: Path, enc: Encoding)
    : (r: Result<X509Bundle<C>, BundleError>)
    ensures env.readFile(path).Err? ==> r == Err(LoadError(env.readFile(path).error))
    ensures env.readFile(path).Ok? && enc.PEM? ==> r == Parse(env, td, env.readFile(path).value)
    ensures env.readFile(path).Ok? && enc.DER? ==> r == ParseRaw(env, td, env.readFile(path).value)
    ensures env.readFile(path).Ok? && !IsSupported(enc) ==> r == Err(UnsupportedEncoding(enc))
    ensures r.Ok? ==> Valid(r.value) && td == Some(r.value.trustDomain)
  {
    match env.readFile(path)
    case Err(cause) => Err(LoadError(cause))
    case Ok(bytes) =>
      if enc == PEM then Parse(env, td, bytes)
      else if enc == DER then ParseRaw(env, td, bytes)
      else Err(UnsupportedEncoding(enc))
  }

  /**
    Error precedence of `load`: reading, then the encoding selector, then
    decoding, then the trust domain.
  */
  lemma LoadErrorPrecedence<C(!new)>(env: Collaborators<C>, td: Option<TrustDomain>, path: Path, enc: Encoding)
    ensures Load(env, td, path, enc).Err? && Load(env, td, path, enc).error.LoadError?
      <==> env.readFile(path).Err?
    ensures Load(env, td, path, enc) == Err(UnsupportedEncoding(enc))
      <==> env.readFile(path).Ok? && !IsSupported(enc)
    ensures Load(env, td, path, enc).Err? && Load(env, td, path, enc).error.ParseError?
      <==> env.readFile(path).Ok? && IsSupported(enc)
           && (if enc.PEM? then env.decodePem(env.readFile(path).value).Err?
               else env.decodeDer(env.readFile(path).value).Err?)
  {
  }

  /** When reading fails, neither the encoding nor the decoders matter. */
  lemma LoadReadFailureIgnoresDecoders<C(!new)>(env1: Collaborators<C>, env2: Collaborators<C>,
                                         td: Option<TrustDomain>, path: Path, enc1: Encoding, enc2: Encoding)
    requires env1.readFile(path).Err? && env1.readFile(path) == env2.readFile(path)
    ensures Load(env1, td, path, enc1) == Load(env2, td, path, enc2)
  {
  }
}
