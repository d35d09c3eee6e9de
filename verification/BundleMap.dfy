/** The SPIFFE bundle map: the service's writer and the device's reader. JSON, base64 and certificate
    parsing are structural; the big-endian number formats are spelled out. */
module BundleMap {
  import opened Prelude

  type Octet = b: int | 0 <= b < 256

  const INT64 := 0x8000_0000_0000_0000

  // ---- Numbers ---------------------------------------------------------------------

  /** Big-endian without leading zeros; zero is empty. */
  function BigEndian(n: nat): seq<Octet> {
    if n == 0 then [] else BigEndian(n / 256) + [n % 256]
  }

  function FromBigEndian(b: seq<Octet>): nat {
    if b == [] then 0 else FromBigEndian(b[..|b| - 1]) * 256 + b[|b| - 1]
  }

  function Zeros(k: nat): seq<Octet> { seq(k, _ => 0) }

  /** Left-padded to the width of the curve; a wider number is not cut. */
  function Fixed(n: nat, size: nat): seq<Octet> {
    var b := BigEndian(n);
    if |b| < size then Zeros(size - |b|) + b else b
  }

  /** 256 to the k. */
  function Power(k: nat): (p: nat)
    ensures p > 0
  {
    if k == 0 then 1 else 256 * Power(k - 1)
  }

  lemma {:induction false} BigEndianRoundTrip(n: nat)
    ensures FromBigEndian(BigEndian(n)) == n
  {
    if n > 0 {
      BigEndianRoundTrip(n / 256);
      assert (BigEndian(n / 256) + [n % 256])[..|BigEndian(n / 256)|] == BigEndian(n / 256);
    }
  }

  lemma {:induction false} ZerosInFront(k: nat, b: seq<Octet>)
    ensures FromBigEndian(Zeros(k) + b) == FromBigEndian(b)
    decreases k + |b|
  {
    var s := Zeros(k) + b;
    if b != [] {
      assert s[..|s| - 1] == Zeros(k) + b[..|b| - 1];
      ZerosInFront(k, b[..|b| - 1]);
    } else if k > 0 {
      assert s[..|s| - 1] == Zeros(k - 1) + b;
      ZerosInFront(k - 1, b);
    }
  }

  lemma FixedRoundTrip(n: nat, size: nat)
    ensures FromBigEndian(Fixed(n, size)) == n
  {
    BigEndianRoundTrip(n);
    if |BigEndian(n)| < size { ZerosInFront(size - |BigEndian(n)|, BigEndian(n)); }
  }

  lemma {:induction false} LengthIff(n: nat, k: nat)
    ensures |BigEndian(n)| <= k <==> n < Power(k)
    decreases k
  {
    if n > 0 && k > 0 {
      LengthIff(n / 256, k - 1);
    }
  }

  /** A coordinate is written in exactly the curve's width when it fits it (section 6.2.1.2 of RFC 7518),
      and only then. */
  lemma FixedWidthIff(n: nat, size: nat)
    ensures |Fixed(n, size)| == size <==> n < Power(size)
  {
    LengthIff(n, size);
  }

  // ---- Keys ------------------------------------------------------------------------

  datatype Curve = P256 | P384 | P521 | OtherCurve

  /** `e` is a Go int. */
  datatype PublicKey = Ec(curve: Curve, x: nat, y: nat) | Rsa(n: nat, e: int) | OtherKey

  /** A text field: base64url of these octets, or text that does not decode. An absent field is empty. */
  datatype Text64 = Encoded(octets: seq<Octet>) | Undecodable

  datatype Certificate = Certificate(raw: string, key: PublicKey)

  datatype X5c = Der(certificate: Certificate) | NotDer

  datatype Jwk = Jwk(
    keyUse: string, kid: string, kty: string, crv: string,
    x: Text64, y: Text64, n: Text64, e: Text64, x5c: seq<X5c>)

  datatype Error =
    | MissingTrustDomain
    | NilCertificate
    | UnsupportedKey
    | UnsupportedCurve
    | NoEntry
    | NoX5c
    | BadX5c
    | NoAuthorities
    | BadText
    | BadKty

  function CurveSize(c: Curve): nat { match c case P256 => 32 case P384 => 48 case P521 => 66 case OtherCurve => 28 }

  function CurveName(c: Curve): string {
    match c case P256 => "P-256" case P384 => "P-384" case P521 => "P-521" case OtherCurve => ""
  }

  function CurveByName(s: string): Option<Curve> {
    if s == "P-256" then Some(P256) else if s == "P-384" then Some(P384) else if s == "P-521" then Some(P521) else None
  }

  const EMPTY := Encoded([])

  function Magnitude(i: int): nat { if i < 0 then -i else i }

  /** The low 64 bits as a signed number. */
  function ToInt64(n: nat): int {
    var low := n % (2 * INT64);
    if low >= INT64 then low - 2 * INT64 else low
  }

  function KeyParams(k: PublicKey): Result<Jwk, Error> {
    match k
    case Ec(curve, x, y) =>
      if curve == OtherCurve then Failure(UnsupportedCurve)
      else Success(Jwk("", "", "EC", CurveName(curve), Encoded(Fixed(x, CurveSize(curve))),
        Encoded(Fixed(y, CurveSize(curve))), EMPTY, EMPTY, []))
    case Rsa(n, e) =>
      Success(Jwk("", "", "RSA", "", EMPTY, EMPTY, Encoded(BigEndian(n)), Encoded(BigEndian(Magnitude(e))), []))
    case OtherKey => Failure(UnsupportedKey)
  }

  function DecodeKey(j: Jwk): Result<PublicKey, Error> {
    if j.kty == "EC" then
      if CurveByName(j.crv).None? then Failure(UnsupportedCurve)
      else if j.x.Undecodable? || j.y.Undecodable? then Failure(BadText)
      else Success(Ec(CurveByName(j.crv).value, FromBigEndian(j.x.octets), FromBigEndian(j.y.octets)))
    else if j.kty == "RSA" then
      if j.n.Undecodable? || j.e.Undecodable? then Failure(BadText)
      else Success(Rsa(FromBigEndian(j.n.octets), ToInt64(FromBigEndian(j.e.octets))))
    else Failure(BadKty)
  }

  lemma {:induction false} NoLeadingZero(n: nat)
    requires n > 0
    ensures BigEndian(n) != [] && BigEndian(n)[0] != 0
  {
    if n >= 256 { NoLeadingZero(n / 256); }
  }

  /** How a key is written: type and curve by the names of RFC 7518, coordinates in exactly the octets of the
      curve if they fit it, modulus and exponent without leading zeros. */
  lemma WrittenForm(k: PublicKey)
    requires KeyParams(k).Success?
    ensures var j := KeyParams(k).value;
      && (k.Ec? ==>
            var size := if k.curve == P256 then 32 else if k.curve == P384 then 48 else 66;
            && j.kty == "EC"
            && j.crv == (if k.curve == P256 then "P-256" else if k.curve == P384 then "P-384" else "P-521")
            && j.x.Encoded? && (|j.x.octets| == size <==> k.x < Power(size)) && FromBigEndian(j.x.octets) == k.x
            && j.y.Encoded? && (|j.y.octets| == size <==> k.y < Power(size)) && FromBigEndian(j.y.octets) == k.y)
      && (k.Rsa? ==>
            && j.kty == "RSA"
            && j.n.Encoded? && (j.n.octets != [] ==> j.n.octets[0] != 0) && FromBigEndian(j.n.octets) == k.n
            && j.e.Encoded? && (j.e.octets != [] ==> j.e.octets[0] != 0) && FromBigEndian(j.e.octets) == Magnitude(k.e))
  {
    match k {
      case Ec(curve, x, y) =>
        FixedWidthIff(x, CurveSize(curve));
        FixedWidthIff(y, CurveSize(curve));
        FixedRoundTrip(x, CurveSize(curve));
        FixedRoundTrip(y, CurveSize(curve));
      case Rsa(n, e) =>
        if n > 0 { NoLeadingZero(n); }
        if e != 0 { NoLeadingZero(Magnitude(e)); }
        BigEndianRoundTrip(n);
        BigEndianRoundTrip(Magnitude(e));
      case OtherKey =>
    }
  }

  /** A key cannot be written exactly if it is of another kind or on another curve. */
  lemma WritableIff(k: PublicKey)
    ensures KeyParams(k) == Failure(UnsupportedKey) <==> k.OtherKey?
    ensures KeyParams(k) == Failure(UnsupportedCurve) <==> k.Ec? && k.curve == OtherCurve
    ensures KeyParams(k).Success? <==> k.Rsa? || (k.Ec? && k.curve != OtherCurve)
  {
  }

  predicate FitsGoInt(k: PublicKey) { k.Rsa? ==> -INT64 <= k.e < INT64 }

  /** The exponents whose sign is lost: all negative ones but the least, which wraps back to itself. */
  predicate LosesSign(k: PublicKey) { k.Rsa? && -INT64 < k.e < 0 }

  lemma EcRoundTrip(curve: Curve, x: nat, y: nat)
    requires curve != OtherCurve
    ensures DecodeKey(KeyParams(Ec(curve, x, y)).value) == Success(Ec(curve, x, y))
  {
    FixedRoundTrip(x, CurveSize(curve));
    FixedRoundTrip(y, CurveSize(curve));
  }

  lemma RsaRoundTrip(n: nat, e: int)
    ensures DecodeKey(KeyParams(Rsa(n, e)).value) == Success(Rsa(n, ToInt64(Magnitude(e))))
  {
    BigEndianRoundTrip(n);
    BigEndianRoundTrip(Magnitude(e));
  }

  /** A magnitude of a 64-bit exponent reads as itself, but the largest as the least integer. */
  lemma MagnitudeToInt64(e: int)
    requires -INT64 <= e < INT64
    ensures ToInt64(Magnitude(e)) == if e == -INT64 then e else Magnitude(e)
  {
    var n := Magnitude(e);
    assert n < 2 * INT64 && n % (2 * INT64) == n;
  }

  /** A supported key always reads back, and as itself exactly when its exponent keeps its sign; EC keys
      always do. */
  lemma KeyRoundTripIff(k: PublicKey)
    requires KeyParams(k).Success? && FitsGoInt(k)
    ensures DecodeKey(KeyParams(k).value).Success?
    ensures DecodeKey(KeyParams(k).value) == Success(k) <==> !LosesSign(k)
  {
    match k {
      case Ec(curve, x, y) => EcRoundTrip(curve, x, y);
      case Rsa(n, e) =>
        RsaRoundTrip(n, e);
        MagnitudeToInt64(e);
    }
  }

  // ---- Writer ----------------------------------------------------------------------

  datatype JwtAuthority = JwtAuthority(keyId: string, key: PublicKey)

  datatype AnchorSet = AnchorSet(trustDomain: string, x509: seq<Option<Certificate>>, jwt: seq<JwtAuthority>)

  type Document = map<string, seq<Jwk>>

  function X509Jwk(c: Option<Certificate>): Result<Jwk, Error> {
    if c.None? then Failure(NilCertificate)
    else
      var p := KeyParams(c.value.key);
      if p.Failure? then p else Success(p.value.(keyUse := "x509-svid", x5c := [Der(c.value)]))
  }

  function JwtJwk(a: JwtAuthority): Result<Jwk, Error> {
    var p := KeyParams(a.key);
    if p.Failure? then p else Success(p.value.(keyUse := "jwt-svid", kid := a.keyId))
  }

  predicate Buildable(s: AnchorSet) {
    && s.trustDomain != ""
    && (forall c :: c in s.x509 ==> X509Jwk(c).Success?)
    && (forall a :: a in s.jwt ==> JwtJwk(a).Success?)
  }

  function KeysOf(s: AnchorSet): seq<Jwk>
    requires Buildable(s)
  {
    seq(|s.x509|, i requires 0 <= i < |s.x509| => X509Jwk(s.x509[i]).value) +
    seq(|s.jwt|, i requires 0 <= i < |s.jwt| => JwtJwk(s.jwt[i]).value)
  }

  /** Append one key for each authority, stopping at the first that cannot be written. */
  method Build(s: AnchorSet) returns (r: Result<Document, Error>)
    ensures r.Success? <==> Buildable(s)
    ensures r.Success? ==> r.value == Built(s)
    ensures s.trustDomain == "" <==> r == Failure(MissingTrustDomain)
    ensures r.Failure? && s.trustDomain != "" ==>
      || (exists i :: 0 <= i < |s.x509| && X509Jwk(s.x509[i]) == Failure(r.error) &&
            forall j :: 0 <= j < i ==> X509Jwk(s.x509[j]).Success?)
      || ((forall j :: 0 <= j < |s.x509| ==> X509Jwk(s.x509[j]).Success?) &&
          exists i :: 0 <= i < |s.jwt| && JwtJwk(s.jwt[i]) == Failure(r.error) &&
            forall j :: 0 <= j < i ==> JwtJwk(s.jwt[j]).Success?)
  {
    if s.trustDomain == "" { return Failure(MissingTrustDomain); }
    var keys: seq<Jwk> := [];
    for i := 0 to |s.x509|
      invariant |keys| == i && forall k :: 0 <= k < i ==> X509Jwk(s.x509[k]) == Success(keys[k])
    {
      var j := X509Jwk(s.x509[i]);
      if j.Failure? { return Failure(j.error); }
      keys := keys + [j.value];
    }
    var m := |keys|;
    for i := 0 to |s.jwt|
      invariant |keys| == m + i
      invariant forall k :: 0 <= k < m ==> X509Jwk(s.x509[k]) == Success(keys[k])
      invariant forall k :: 0 <= k < i ==> JwtJwk(s.jwt[k]) == Success(keys[m + k])
    {
      var j := JwtJwk(s.jwt[i]);
      if j.Failure? { return Failure(j.error); }
      keys := keys + [j.value];
    }
    assert Buildable(s);
    assert keys == KeysOf(s);
    return Success(map[s.trustDomain := keys]);
  }

  /** Left-pad into a fresh buffer. */
  method EncodeFixed(n: nat, size: nat) returns (b: seq<Octet>)
    ensures b == Fixed(n, size) && FromBigEndian(b) == n
  {
    b := BigEndian(n);
    FixedRoundTrip(n, size);
    if |b| < size {
      var pad := new Octet[size](_ => 0);
      var skip := size - |b|;
      for i := 0 to |b|
        invariant forall k :: 0 <= k < skip ==> pad[k] == 0
        invariant forall k :: 0 <= k < i ==> pad[skip + k] == b[k]
      {
        pad[skip + i] := b[i];
      }
      assert forall k :: skip <= k < size ==> pad[k] == b[k - skip];
      assert pad[..] == Zeros(skip) + b;
      b := pad[..];
    }
  }

  // ---- Reader ----------------------------------------------------------------------

  function X509In(keys: seq<Jwk>): Result<seq<Certificate>, Error> {
    if keys == [] then Success([])
    else
      var front, k := X509In(keys[..|keys| - 1]), keys[|keys| - 1];
      if front.Failure? || k.keyUse != "x509-svid" then front
      else if k.x5c == [] then Failure(NoX5c)
      else if k.x5c[0].NotDer? then Failure(BadX5c)
      else Success(front.value + [k.x5c[0].certificate])
  }

  function ReadJwt(k: Jwk): Result<JwtAuthority, Error> {
    var key := DecodeKey(k);
    if key.Failure? then Failure(key.error) else Success(JwtAuthority(k.kid, key.value))
  }

  function JwtIn(keys: seq<Jwk>): Result<seq<JwtAuthority>, Error> {
    if keys == [] then Success([])
    else
      var front, k := JwtIn(keys[..|keys| - 1]), keys[|keys| - 1];
      if front.Failure? || k.keyUse != "jwt-svid" then front
      else
        var a := ReadJwt(k);
        if a.Failure? then Failure(a.error) else Success(front.value + [a.value])
  }

  /** What the device reads as X.509 authorities; a domain without any is an error. */
  function X509Authorities(doc: Document, trustDomain: string): Result<seq<Certificate>, Error> {
    if trustDomain !in doc then Failure(NoEntry)
    else
      var found := X509In(doc[trustDomain]);
      if found == Success([]) then Failure(NoAuthorities) else found
  }

  /** What the device reads as JWT authorities, perhaps none. */
  function JwtAuthorities(doc: Document, trustDomain: string): Result<seq<JwtAuthority>, Error> {
    if trustDomain !in doc then Failure(NoEntry) else JwtIn(doc[trustDomain])
  }

  method ExtractX509Authorities(doc: Document, trustDomain: string) returns (r: Result<seq<Certificate>, Error>)
    ensures r == X509Authorities(doc, trustDomain)
  {
    if trustDomain !in doc { return Failure(NoEntry); }
    var keys, out := doc[trustDomain], [];
    for i := 0 to |keys|
      invariant X509In(keys[..i]) == Success(out)
    {
      assert keys[..i + 1][..i] == keys[..i];
      if keys[i].keyUse == "x509-svid" {
        if keys[i].x5c == [] { X509Stuck(keys, i + 1); return Failure(NoX5c); }
        if keys[i].x5c[0].NotDer? { X509Stuck(keys, i + 1); return Failure(BadX5c); }
        out := out + [keys[i].x5c[0].certificate];
      }
    }
    assert keys[..|keys|] == keys;
    if out == [] { return Failure(NoAuthorities); }
    return Success(out);
  }

  lemma {:induction false} X509Stuck(keys: seq<Jwk>, i: nat)
    requires i <= |keys| && X509In(keys[..i]).Failure?
    ensures X509In(keys) == X509In(keys[..i])
    decreases |keys|
  {
    if i == |keys| { assert keys[..i] == keys; } else {
      assert keys[..|keys| - 1][..i] == keys[..i];
      X509Stuck(keys[..|keys| - 1], i);
    }
  }

  method ExtractJwtAuthorities(doc: Document, trustDomain: string) returns (r: Result<seq<JwtAuthority>, Error>)
    ensures r == JwtAuthorities(doc, trustDomain)
  {
    if trustDomain !in doc { return Failure(NoEntry); }
    var keys, out := doc[trustDomain], [];
    for i := 0 to |keys|
      invariant JwtIn(keys[..i]) == Success(out)
    {
      assert keys[..i + 1][..i] == keys[..i];
      if keys[i].keyUse == "jwt-svid" {
        var key := DecodeKey(keys[i]);
        if key.Failure? { JwtStuck(keys, i + 1); return Failure(key.error); }
        out := out + [JwtAuthority(keys[i].kid, key.value)];
      }
    }
    assert keys[..|keys|] == keys;
    return Success(out);
  }

  lemma {:induction false} JwtStuck(keys: seq<Jwk>, i: nat)
    requires i <= |keys| && JwtIn(keys[..i]).Failure?
    ensures JwtIn(keys) == JwtIn(keys[..i])
    decreases |keys|
  {
    if i == |keys| { assert keys[..i] == keys; } else {
      assert keys[..|keys| - 1][..i] == keys[..i];
      JwtStuck(keys[..|keys| - 1], i);
    }
  }

  // ---- What can be read ------------------------------------------------------------

  /** A key reads exactly if it is an EC key on a known curve or an RSA key, and its numbers decode. */
  lemma DecodesIff(j: Jwk)
    ensures DecodeKey(j).Success? <==>
              || (j.kty == "EC" && j.crv in {"P-256", "P-384", "P-521"} && j.x.Encoded? && j.y.Encoded?)
              || (j.kty == "RSA" && j.n.Encoded? && j.e.Encoded?)
    ensures DecodeKey(j) == Failure(BadKty) <==> j.kty !in {"EC", "RSA"}
    ensures DecodeKey(j) == Failure(UnsupportedCurve) <==> j.kty == "EC" && j.crv !in {"P-256", "P-384", "P-521"}
  {
  }

  /** The X.509 keys of any document read exactly if each carries a certificate that parses. */
  lemma {:induction false} X509ReadsIff(keys: seq<Jwk>)
    ensures X509In(keys).Success? <==>
              forall i :: 0 <= i < |keys| && keys[i].keyUse == "x509-svid" ==> keys[i].x5c != [] && keys[i].x5c[0].Der?
  {
    if keys != [] {
      var front := keys[..|keys| - 1];
      X509ReadsIff(front);
      assert forall i :: 0 <= i < |front| ==> front[i] == keys[i];
    }
  }

  /** The JWT keys of any document read exactly if each of them does. */
  lemma {:induction false} JwtReadsIff(keys: seq<Jwk>)
    ensures JwtIn(keys).Success? <==>
              forall i :: 0 <= i < |keys| && keys[i].keyUse == "jwt-svid" ==> DecodeKey(keys[i]).Success?
  {
    if keys != [] {
      var front := keys[..|keys| - 1];
      JwtReadsIff(front);
      assert forall i :: 0 <= i < |front| ==> front[i] == keys[i];
    }
  }

  // ---- Round trip ------------------------------------------------------------------

  function Certificates(s: AnchorSet): seq<Certificate>
    requires Buildable(s)
  {
    assert forall i :: 0 <= i < |s.x509| ==> s.x509[i] in s.x509;
    seq(|s.x509|, i requires 0 <= i < |s.x509| => s.x509[i].value)
  }

  lemma {:induction false} JwtKeysSkipped(xs: seq<Jwk>, js: seq<Jwk>)
    requires forall i :: 0 <= i < |js| ==> js[i].keyUse == "jwt-svid"
    ensures X509In(xs + js) == X509In(xs)
    decreases |js|
  {
    if js == [] {
      assert xs + js == xs;
    } else {
      assert (xs + js)[..|xs + js| - 1] == xs + js[..|js| - 1];
      JwtKeysSkipped(xs, js[..|js| - 1]);
    }
  }

  lemma X509Step(keys: seq<Jwk>, out: seq<Certificate>, k: Jwk, c: Certificate)
    requires X509In(keys) == Success(out) && k.keyUse == "x509-svid" && k.x5c == [Der(c)]
    ensures X509In(keys + [k]) == Success(out + [c])
  {
    assert (keys + [k])[..|keys|] == keys;
  }

  lemma {:induction false} X509ReadBack(certs: seq<Option<Certificate>>, xs: seq<Jwk>, out: seq<Certificate>)
    requires |xs| == |certs| == |out|
    requires forall i :: 0 <= i < |certs| ==> X509Jwk(certs[i]) == Success(xs[i]) && certs[i] == Some(out[i])
    ensures X509In(xs) == Success(out)
    decreases |xs|
  {
    var n := |xs|;
    if n > 0 {
      X509ReadBack(certs[..n - 1], xs[..n - 1], out[..n - 1]);
      assert X509Jwk(certs[n - 1]) == Success(xs[n - 1]);
      X509Step(xs[..n - 1], out[..n - 1], xs[n - 1], out[n - 1]);
      assert xs == xs[..n - 1] + [xs[n - 1]] && out == out[..n - 1] + [out[n - 1]];
    }
  }

  lemma {:induction false} JwtInParts(auths: seq<JwtAuthority>, xs: seq<Jwk>, js: seq<Jwk>)
    requires |js| == |auths|
    requires forall i :: 0 <= i < |xs| ==> xs[i].keyUse == "x509-svid"
    requires forall i :: 0 <= i < |auths| ==> js[i].keyUse == "jwt-svid" && ReadJwt(js[i]) == Success(auths[i])
    ensures JwtIn(xs + js) == Success(auths)
    decreases |xs| + |js|
  {
    var keys, n := xs + js, |xs| + |js|;
    if js != [] {
      assert keys[..n - 1] == xs + js[..|js| - 1];
      JwtInParts(auths[..|js| - 1], xs, js[..|js| - 1]);
      assert auths == auths[..|js| - 1] + [auths[|js| - 1]];
    } else if xs != [] {
      assert keys[..n - 1] == xs[..n - 1] + [];
      JwtInParts(auths, xs[..n - 1], js);
    }
  }

  predicate SignsKept(s: AnchorSet) { forall a :: a in s.jwt ==> !LosesSign(a.key) }

  function Built(s: AnchorSet): Document
    requires Buildable(s)
  {
    map[s.trustDomain := KeysOf(s)]
  }

  /** Reading what was built for its trust domain gives back the same X.509 authorities in order exactly
      when there is one at all, and the same JWT key ids and keys in order exactly when no exponent loses
      its sign. Without an X.509 authority the set can be written and not read; no other domain is read. */
  lemma BuildThenExtract(s: AnchorSet, other: string)
    requires Buildable(s)
    requires forall a :: a in s.jwt ==> FitsGoInt(a.key)
    ensures X509Authorities(Built(s), s.trustDomain) == Success(Certificates(s)) <==> s.x509 != []
    ensures s.x509 == [] ==> X509Authorities(Built(s), s.trustDomain) == Failure(NoAuthorities)
    ensures JwtAuthorities(Built(s), s.trustDomain) == Success(s.jwt) <==> SignsKept(s)
    ensures other != s.trustDomain ==>
      X509Authorities(Built(s), other) == Failure(NoEntry) && JwtAuthorities(Built(s), other) == Failure(NoEntry)
  {
    KeysReadBack(s);
    assert |Certificates(s)| == |s.x509|;
    assert Built(s)[s.trustDomain] == KeysOf(s);
  }

  lemma KeysReadBack(s: AnchorSet)
    requires Buildable(s)
    requires forall a :: a in s.jwt ==> FitsGoInt(a.key)
    ensures X509In(KeysOf(s)) == Success(Certificates(s))
    ensures JwtIn(KeysOf(s)) == Success(s.jwt) <==> SignsKept(s)
  {
    var xs := seq(|s.x509|, i requires 0 <= i < |s.x509| => X509Jwk(s.x509[i]).value);
    var js := seq(|s.jwt|, i requires 0 <= i < |s.jwt| => JwtJwk(s.jwt[i]).value);
    forall i | 0 <= i < |s.x509|
      ensures X509Jwk(s.x509[i]) == Success(xs[i]) && s.x509[i] == Some(Certificates(s)[i]) &&
        xs[i].keyUse == "x509-svid"
    {
      assert s.x509[i] in s.x509;
    }
    forall i | 0 <= i < |s.jwt|
      ensures js[i].keyUse == "jwt-svid" && ReadJwt(js[i]).Success?
      ensures ReadJwt(js[i]) == Success(s.jwt[i]) <==> !LosesSign(s.jwt[i].key)
    {
      assert s.jwt[i] in s.jwt;
      KeyRoundTripIff(s.jwt[i].key);
    }
    var read := seq(|js|, i requires 0 <= i < |js| => ReadJwt(js[i]).value);
    JwtKeysSkipped(xs, js);
    X509ReadBack(s.x509, xs, Certificates(s));
    JwtInParts(read, xs, js);
    if read == s.jwt {
      forall a | a in s.jwt ensures !LosesSign(a.key) {
        var i :| 0 <= i < |s.jwt| && s.jwt[i] == a;
        assert read[i] == a;
      }
    } else {
      var i :| 0 <= i < |s.jwt| && read[i] != s.jwt[i];
      assert s.jwt[i] in s.jwt;
    }
  }
}
