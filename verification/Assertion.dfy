/**
 The assertion token: which keys an issuer publishes, what it signs, and what a verifier
 makes of it across a rotation of the signing key.

 The signature scheme, the hash and the JSON codec are parameters. Text is a string of
 bytes. What a result needs of a parameter is in its requires clause.
 */
module Assertion {
  import opened Prelude
  import opened Segment
  import opened Naming

  const PRIVATE_KEY_SIZE := 64
  const SIGNATURE_SIZE := 64
  const SECOND := 1_000_000_000

  const ALG := "EdDSA"
  const TYP := "JWT"

  datatype Risk = Risk(level: string, reasons: seq<string>)

  datatype Claims = Claims(
    issuer: string, subject: string, audience: string,
    issuedAt: int, notBefore: int, expiresAt: int,
    id: string, amr: seq<string>, credentialId: string, tenantId: string, risk: Option<Risk>)

  datatype Header = Header(alg: string, kid: string, typ: string, crit: seq<string>)

  datatype Env = Env(
    hash: string -> Digest,
    public: Key -> Key,
    sign: (Key, string) -> seq<Byte>,
    verify: (Key, string, seq<Byte>) -> bool,
    marshal: Claims -> seq<Byte>,
    unmarshal: seq<Byte> -> Option<Claims>,
    parseHeader: seq<Byte> -> Option<Header>)

  // Key identifiers

  function KeyText(pub: Key): string {
    "{\"crv\":\"Ed25519\",\"kty\":\"OKP\",\"x\":\"" + Encode(pub) + "\"}"
  }

  function Thumbprint(x: Env, pub: Key): string {
    Encode(x.hash(KeyText(pub)))
  }

  function KidBy(x: Env): Namer {
    k => Thumbprint(x, k)
  }

  /** Keys sharing an identifier are one key, or the hash has collided on their texts. */
  lemma SameKidSameKey(x: Env, a: Key, b: Key)
    requires |a| > 0 && |b| > 0 && Thumbprint(x, a) == Thumbprint(x, b) && a != b
    ensures KeyText(a) != KeyText(b) && x.hash(KeyText(a)) == x.hash(KeyText(b))
  {
    SegmentsAreBytes(a, Encode(a));
    SegmentsAreBytes(b, Encode(b));
    SegmentsAreBytes(x.hash(KeyText(a)), Thumbprint(x, a));
    SegmentsAreBytes(x.hash(KeyText(b)), Thumbprint(x, a));
    var open := "{\"crv\":\"Ed25519\",\"kty\":\"OKP\",\"x\":\"";
    Enclosed(open, Encode(a), "\"}");
    Enclosed(open, Encode(b), "\"}");
  }

  lemma Enclosed(open: string, s: string, close: string)
    ensures var t := open + s + close; |t| == |open| + |s| + |close| && t[|open|..|t| - |close|] == s
  {
  }

  // The issuer

  function HeaderText(kid: string): string {
    "{\"alg\":\"" + ALG + "\",\"kid\":\"" + kid + "\",\"typ\":\"" + TYP + "\"}"
  }

  function BytesOf(s: string): seq<Byte> {
    seq(|s|, i requires 0 <= i < |s| => s[i] as int % 256)
  }

  datatype Jwk = Jwk(kty: string, crv: string, x: string, use: Option<string>, alg: Option<string>, kid: string)

  function PublicJwk(pub: Key, kid: string): Jwk {
    Jwk("OKP", "Ed25519", Encode(pub), Some("sig"), Some(ALG), kid)
  }

  function Document(x: Env, published: seq<Key>): seq<Jwk> {
    seq(|published|, i requires 0 <= i < |published| => PublicJwk(published[i], Thumbprint(x, published[i])))
  }

  datatype Issued = Refused | Token(text: string, claims: Claims)

  predicate KnownFactor(f: string) {
    f == "webauthn" || f == "webauthn-uv" || f == "totp" || f == "recovery-code"
  }

  /** What a ceremony hands over to be asserted; an absent option sets nothing. */
  datatype Ceremony = Ceremony(
    subject: string, tenant: string, audience: string, factors: seq<string>, credential: seq<Byte>,
    jti: seq<Byte>, risks: seq<Option<Risk>>)

  predicate Assertable(c: Ceremony) {
    c.subject != "" && c.audience != "" && |c.factors| > 0 && forall f <- c.factors :: KnownFactor(f)
  }

  /** The second an instant in nanoseconds lies in. */
  function UnixOf(instant: int): int {
    instant / SECOND
  }

  function BaseClaims(issuer: string, ttl: int, skew: int, now: int, c: Ceremony): Claims {
    Claims(issuer, c.subject, c.audience, UnixOf(now), UnixOf(now - skew), UnixOf(now + ttl), Encode(c.jti),
           c.factors, if |c.credential| > 0 then Encode(c.credential) else "", c.tenant, None)
  }

  function ClaimsOf(issuer: string, ttl: int, skew: int, now: int, c: Ceremony): Claims {
    BaseClaims(issuer, ttl, skew, now, c).(risk := LastRisk(c.risks))
  }

  function LastRisk(risks: seq<Option<Risk>>): Option<Risk> {
    if |risks| == 0 then None
    else if risks[|risks| - 1].Some? then risks[|risks| - 1] else LastRisk(risks[..|risks| - 1])
  }

  lemma NextRisk(risks: seq<Option<Risk>>, i: nat)
    requires i < |risks|
    ensures LastRisk(risks[..i + 1]) == if risks[i].Some? then risks[i] else LastRisk(risks[..i])
  {
    assert risks[..i + 1][..i] == risks[..i];
  }

  function SigningInput(x: Env, priv: Key, claims: Claims): string {
    Encode(BytesOf(HeaderText(Thumbprint(x, x.public(priv))))) + "." + Encode(x.marshal(claims))
  }

  function IssuedBy(x: Env, priv: Key, issuer: string, ttl: int, skew: int, now: int, c: Ceremony): Issued {
    if !Assertable(c) then Refused
    else
      var claims := ClaimsOf(issuer, ttl, skew, now, c);
      var input := SigningInput(x, priv, claims);
      Token(input + "." + Encode(x.sign(priv, input)), claims)
  }

  // What an issued token says

  /** The whole second an instant in nanoseconds lies in. */
  predicate InSecond(second: int, instant: int) {
    second * SECOND <= instant < (second + 1) * SECOND
  }

  /** The assessment the last option gave that gave one. */
  predicate IsLast(risk: Option<Risk>, risks: seq<Option<Risk>>) {
    if risk.None? then forall i :: 0 <= i < |risks| ==> risks[i].None?
    else exists i :: 0 <= i < |risks| && risks[i] == risk && forall j :: i < j < |risks| ==> risks[j].None?
  }

  lemma {:induction false} LastRiskIsLast(risks: seq<Option<Risk>>)
    ensures IsLast(LastRisk(risks), risks)
  {
    if |risks| > 0 && risks[|risks| - 1].None? {
      var init := risks[..|risks| - 1];
      LastRiskIsLast(init);
      if LastRisk(init).Some? {
        var i :| 0 <= i < |init| && init[i] == LastRisk(init) && forall j :: i < j < |init| ==> init[j].None?;
        assert risks[i] == LastRisk(risks) && forall j :: i < j < |risks| ==> risks[j].None?;
      }
    }
  }

  /** The claims assert this ceremony, by this issuer and at this instant, and nothing else. */
  ghost predicate Asserts(claims: Claims, issuer: string, ttl: int, skew: int, now: int, c: Ceremony) {
    claims.issuer == issuer && claims.subject == c.subject && claims.audience == c.audience &&
    claims.tenantId == c.tenant && claims.amr == c.factors &&
    InSecond(claims.issuedAt, now) && InSecond(claims.notBefore, now - skew) && InSecond(claims.expiresAt, now + ttl) &&
    (|c.jti| > 0 ==> Decode(claims.id) == Some(c.jti)) &&
    (if |c.credential| > 0 then Decode(claims.credentialId) == Some(c.credential) else claims.credentialId == "") &&
    IsLast(claims.risk, c.risks)
  }

  lemma ClaimsAssert(issuer: string, ttl: int, skew: int, now: int, c: Ceremony)
    ensures Asserts(ClaimsOf(issuer, ttl, skew, now, c), issuer, ttl, skew, now, c)
  {
    LastRiskIsLast(c.risks);
    if |c.jti| > 0 {
      SegmentsAreBytes(c.jti, Encode(c.jti));
    }
    if |c.credential| > 0 {
      SegmentsAreBytes(c.credential, Encode(c.credential));
    }
    WholeSecond(now);
    WholeSecond(now - skew);
    WholeSecond(now + ttl);
  }

  lemma WholeSecond(instant: int)
    ensures InSecond(UnixOf(instant), instant)
  {
  }

  /** What a ceremony must have: a subject, an audience, and factors of the four kinds there are. */
  predicate Complete(c: Ceremony) {
    c.subject != "" && c.audience != "" && c.factors != [] &&
    forall f <- c.factors :: f in {"webauthn", "webauthn-uv", "totp", "recovery-code"}
  }

  /** The entry of a published key. */
  predicate Describes(x: Env, e: Jwk, pub: Key) {
    e == Jwk("OKP", "Ed25519", Encode(pub), Some("sig"), Some("EdDSA"), Thumbprint(x, pub))
  }

  /** A header names one key identifier. */
  lemma HeaderNamesItsKid(a: string, b: string)
    ensures HeaderText(a) == HeaderText(b) <==> a == b
  {
    var open, close := "{\"alg\":\"EdDSA\",\"kid\":\"", "\",\"typ\":\"JWT\"}";
    assert HeaderText(a) == open + a + close && HeaderText(b) == open + b + close;
    Enclosed(open, a, close);
    Enclosed(open, b, close);
  }

  /** A token is issued exactly for a complete ceremony, and asserts it. */
  lemma IssuedAsserts(x: Env, priv: Key, issuer: string, ttl: int, skew: int, now: int, c: Ceremony)
    ensures var issued := IssuedBy(x, priv, issuer, ttl, skew, now, c);
            (issued.Token? <==> Complete(c)) && (issued.Token? ==> Asserts(issued.claims, issuer, ttl, skew, now, c))
  {
    ClaimsAssert(issuer, ttl, skew, now, c);
  }

  class Issuer {
    const env: Env
    const priv: Key
    const pub: Key
    const issuer: string
    const ttl: int
    const skew: int
    const name: Namer
    const kid: string
    const header: string
    var retired: seq<Key>

    ghost predicate Valid()
      reads this
    {
      name == KidBy(env) && pub == env.public(priv) && kid == Thumbprint(env, pub) && header == Encode(BytesOf(HeaderText(kid))) &&
      issuer != "" && ttl > 0 && skew >= 0 &&
      Sorted(name, retired) && kid !in Names(name, retired) && forall k <- retired :: |k| == PUBLIC_KEY_SIZE
    }

    constructor (env: Env, priv: Key, issuer: string, ttl: int, skew: int)
      requires issuer != "" && ttl > 0 && skew >= 0
      ensures Valid() && retired == [] && this.env == env && this.priv == priv && this.issuer == issuer
      ensures this.ttl == ttl && this.skew == skew && pub == env.public(priv)
    {
      this.env, this.priv, this.issuer, this.ttl, this.skew := env, priv, issuer, ttl, skew;
      name := KidBy(env);
      pub := env.public(priv);
      kid := Thumbprint(env, env.public(priv));
      header := Encode(BytesOf(HeaderText(Thumbprint(env, env.public(priv)))));
      retired := [];
    }

    /** Appends a listing that repeats neither itself nor the signing key; it stops at the first key that does. */
    method AppendListed(keys: seq<Key>) returns (ok: bool)
      modifies this`retired
      ensures ok <==> Listable(name, kid, keys)
      ensures ok ==> retired == old(retired) + keys
    {
      var seen := {kid};
      for n := 0 to |keys|
        invariant retired == old(retired) + keys[..n]
        invariant seen == Seen(name, kid, keys, n) && Listable(name, kid, keys[..n])
      {
        NextListed(name, kid, keys, n);
        if |keys[n]| != PUBLIC_KEY_SIZE || name(keys[n]) in seen {
          return false;
        }
        seen := seen + {name(keys[n])};
        retired := retired + [keys[n]];
      }
      assert keys[..|keys|] == keys;
      ok := true;
    }

    /** Adds one listing of keys to publish, or refuses it; a refused issuer is not used. */
    method WithRetiredKeys(keys: seq<Key>) returns (ok: bool)
      requires Valid()
      modifies this`retired
      ensures ok <==> Listable(name, kid, keys)
      ensures ok ==> Valid() && multiset(retired) == multiset(old(retired) + keys)
    {
      ok := AppendListed(keys);
      if ok {
        SortKeepsListing(name, kid, old(retired), keys);
        retired := SortByName(name, retired);
      }
    }

    /** The keys of the document, the signing key first. */
    function Published(): seq<Key>
      reads this
    {
      [pub] + retired
    }

    method Jwks() returns (document: seq<Jwk>)
      ensures document == Document(env, Published())
      ensures |document| == 1 + |retired| && Describes(env, document[0], pub)
      ensures forall i :: 0 <= i < |retired| ==> Describes(env, document[i + 1], retired[i])
    {
      document := [PublicJwk(pub, Thumbprint(env, pub))];
      for n := 0 to |retired|
        invariant document == Document(env, Published()[..n + 1])
      {
        document := document + [PublicJwk(retired[n], Thumbprint(env, retired[n]))];
      }
      assert Published()[..|retired| + 1] == Published();
    }

    /** Whether a ceremony is one this issuer asserts. */
    method Accepts(ceremony: Ceremony) returns (ok: bool)
      ensures ok <==> Assertable(ceremony)
    {
      if ceremony.subject == "" || ceremony.audience == "" || |ceremony.factors| == 0 {
        return false;
      }
      for i := 0 to |ceremony.factors|
        invariant forall j :: 0 <= j < i ==> KnownFactor(ceremony.factors[j])
      {
        if !KnownFactor(ceremony.factors[i]) {
          assert ceremony.factors[i] in ceremony.factors;
          return false;
        }
      }
      ok := true;
    }

    /** The claims of a ceremony, as its options leave them. */
    method Fill(now: int, ceremony: Ceremony) returns (claims: Claims)
      ensures claims == ClaimsOf(issuer, ttl, skew, now, ceremony)
    {
      claims := BaseClaims(issuer, ttl, skew, now, ceremony);
      for i := 0 to |ceremony.risks|
        invariant claims == BaseClaims(issuer, ttl, skew, now, ceremony).(risk := LastRisk(ceremony.risks[..i]))
      {
        NextRisk(ceremony.risks, i);
        if ceremony.risks[i].Some? {
          claims := claims.(risk := ceremony.risks[i]);
        }
      }
      assert ceremony.risks[..|ceremony.risks|] == ceremony.risks;
    }

    /** Signs the claims of a completed ceremony. */
    method Issue(now: int, ceremony: Ceremony) returns (issued: Issued)
      requires Valid()
      ensures issued == IssuedBy(env, priv, issuer, ttl, skew, now, ceremony)
      ensures issued.Token? <==> Complete(ceremony)
      ensures issued.Token? ==> Asserts(issued.claims, issuer, ttl, skew, now, ceremony)
    {
      IssuedAsserts(env, priv, issuer, ttl, skew, now, ceremony);
      var ok := Accepts(ceremony);
      if !ok {
        return Refused;
      }
      var claims := Fill(now, ceremony);
      var signingInput := header + "." + Encode(env.marshal(claims));
      assert signingInput == SigningInput(env, priv, claims);
      issued := Token(signingInput + "." + Encode(env.sign(priv, signingInput)), claims);
    }
  }

  /** A new issuer, or null when an argument or a listing is refused. */
  method NewIssuer(env: Env, priv: Key, issuer: string, ttl: int, skew: int, listings: seq<seq<Key>>)
    returns (i: Issuer?)
    ensures i != null <==> |priv| == PRIVATE_KEY_SIZE && issuer != "" && ttl > 0 && skew >= 0 &&
                           AllListable(KidBy(env), Thumbprint(env, env.public(priv)), listings)
    ensures i != null ==> fresh(i) && i.Valid() && i.env == env && i.priv == priv && i.issuer == issuer
    ensures i != null ==> i.ttl == ttl && i.skew == skew && multiset(i.retired) == multiset(Flatten(listings))
  {
    i := null;
    if |priv| != PRIVATE_KEY_SIZE || issuer == "" || ttl <= 0 || skew < 0 {
      return;
    }
    var made := new Issuer(env, priv, issuer, ttl, skew);
    for n := 0 to |listings|
      invariant fresh(made) && made.Valid() && multiset(made.retired) == multiset(Flatten(listings[..n]))
      invariant AllListable(made.name, made.kid, listings[..n])
    {
      NextListing(made.name, made.kid, listings, n);
      AddedKeys(made.retired, Flatten(listings[..n]), listings[n]);
      var ok := made.WithRetiredKeys(listings[n]);
      if !ok {
        return;
      }
    }
    assert listings[..|listings|] == listings;
    i := made;
  }

  // What is published

  /** Another of some keys hashes to the identifier of a key: two different texts with one hash. */
  ghost predicate Collides(x: Env, keys: seq<Key>, pub: Key) {
    exists k <- keys :: KeyText(k) != KeyText(pub) && x.hash(KeyText(k)) == x.hash(KeyText(pub))
  }

  /** Identifiers tell keys apart, or the hash has collided on two of them. */
  lemma KidsTell(x: Env, keys: seq<Key>)
    requires forall k <- keys :: |k| == PUBLIC_KEY_SIZE
    ensures Telling(KidBy(x), keys) || exists k <- keys :: Collides(x, keys, k)
  {
    if !Telling(KidBy(x), keys) {
      var i, j :| 0 <= i < |keys| && 0 <= j < |keys| && KidBy(x)(keys[i]) == KidBy(x)(keys[j]) && keys[i] != keys[j];
      SameKidSameKey(x, keys[i], keys[j]);
      assert Collides(x, keys, keys[j]);
    }
  }

  /**
   Retired keys given in another order are taken or refused alike; and however often a key
   is among those taken, the document is the same, or the hash collides on two of them.
   */
  lemma DocumentIgnoresOrder(x: Env, pub: Key, a: seq<Key>, b: seq<Key>, ra: seq<Key>, rb: seq<Key>)
    requires multiset(a) == multiset(b)
    requires Sorted(KidBy(x), ra) && multiset(ra) == multiset(a) && Sorted(KidBy(x), rb) && multiset(rb) == multiset(b)
    ensures Listable(KidBy(x), Thumbprint(x, pub), a) <==> Listable(KidBy(x), Thumbprint(x, pub), b)
    ensures (forall k <- a :: |k| == PUBLIC_KEY_SIZE) ==>
              Document(x, [pub] + ra) == Document(x, [pub] + rb) || exists k <- ra :: Collides(x, ra, k)
  {
    SameKeysSameDistinctness(KidBy(x), a, b);
    forall k
      ensures k in a <==> k in b
      ensures k in a <==> k in ra
    {
      assert k in multiset(a) <==> k in multiset(b);
      assert k in multiset(a) <==> k in multiset(ra);
    }
    if forall k <- a :: |k| == PUBLIC_KEY_SIZE {
      KidsTell(x, ra);
      if Telling(KidBy(x), ra) {
        SortIsUnique(KidBy(x), ra, rb);
      }
    }
  }

  // The client's key set

  /** An entry the client keeps: an Ed25519 signing key under its own thumbprint. */
  predicate Usable(x: Env, e: Jwk) {
    e.kty == "OKP" && e.crv == "Ed25519" && (e.use == None || e.use == Some("sig")) &&
    (e.alg == None || e.alg == Some(ALG)) && e.kid != "" &&
    var pub := PyDecode(e.x); pub.Some? && |pub.value| == PUBLIC_KEY_SIZE && Thumbprint(x, pub.value) == e.kid
  }

  function KeysOf(x: Env, document: seq<Jwk>): map<string, Key> {
    if |document| == 0 then map[]
    else
      var keys, last := KeysOf(x, document[..|document| - 1]), document[|document| - 1];
      if Usable(x, last) then keys[last.kid := PyDecode(last.x).value] else keys
  }

  method LoadKeys(x: Env, document: seq<Jwk>) returns (keys: map<string, Key>)
    ensures keys == KeysOf(x, document)
    ensures forall kid <- keys :: |keys[kid]| == PUBLIC_KEY_SIZE && Thumbprint(x, keys[kid]) == kid
  {
    keys := map[];
    for n := 0 to |document|
      invariant keys == KeysOf(x, document[..n])
      invariant forall kid <- keys :: |keys[kid]| == PUBLIC_KEY_SIZE && Thumbprint(x, keys[kid]) == kid
    {
      assert document[..n + 1][..n] == document[..n];
      var e := document[n];
      if e.kty != "OKP" || e.crv != "Ed25519" {
        continue;
      }
      if !(e.use == None || e.use == Some("sig")) || !(e.alg == None || e.alg == Some("EdDSA")) || e.kid == "" {
        continue;
      }
      var pub := PyDecode(e.x);
      if pub.None? || |pub.value| != PUBLIC_KEY_SIZE || Thumbprint(x, pub.value) != e.kid {
        continue;
      }
      keys := keys[e.kid := pub.value];
    }
    assert document[..|document|] == document;
  }

  lemma PublishedEntryIsUsable(x: Env, k: Key)
    requires |k| == PUBLIC_KEY_SIZE
    ensures var e := PublicJwk(k, Thumbprint(x, k)); Usable(x, e) && PyDecode(e.x) == Some(k)
  {
    DecodersAgree(Encode(k));
    SegmentsAreBytes(k, Encode(k));
    var sum := x.hash(KeyText(k));
    SegmentsAreBytes(sum, Encode(sum));
    assert Decode("") == None;
  }

  lemma OneMoreEntry(x: Env, published: seq<Key>, k: Key)
    requires |k| == PUBLIC_KEY_SIZE
    ensures KeysOf(x, Document(x, published + [k])) == KeysOf(x, Document(x, published))[Thumbprint(x, k) := k]
  {
    PublishedEntryIsUsable(x, k);
    var longer := Document(x, published + [k]);
    assert longer[..|published|] == Document(x, published);
    LastEntry(x, longer, PublicJwk(k, Thumbprint(x, k)));
  }

  lemma LastEntry(x: Env, document: seq<Jwk>, e: Jwk)
    requires |document| > 0 && document[|document| - 1] == e && Usable(x, e)
    ensures KeysOf(x, document) == KeysOf(x, document[..|document| - 1])[e.kid := PyDecode(e.x).value]
  {
  }

  /** The client ends up with a published key for exactly the published identifiers. */
  lemma {:induction false} ClientHasPublishedKeys(x: Env, published: seq<Key>)
    requires forall i :: 0 <= i < |published| ==> |published[i]| == PUBLIC_KEY_SIZE
    ensures Keeps(KidBy(x), KeysOf(x, Document(x, published)), published)
  {
    if |published| > 0 {
      var init, last := published[..|published| - 1], published[|published| - 1];
      assert published == init + [last];
      ClientHasPublishedKeys(x, init);
      OneMoreEntry(x, init, last);
      KeepsOneMore(KidBy(x), KeysOf(x, Document(x, init)), init, last);
    }
  }

  // Verification

  predicate HeaderOk(h: Header) {
    h.alg == ALG && |h.crit| == 0 && (h.typ == "" || h.typ == TYP) && h.kid != ""
  }

  predicate ClaimsOk(c: Claims, expectedIssuer: string, audience: string) {
    c.issuer == expectedIssuer && c.audience == audience && c.subject != "" && |c.amr| > 0
  }

  /** Inside the lifetime, widened by the tolerance on both sides; no expiry means never. */
  predicate Timely(c: Claims, skew: int, now: int) {
    c.expiresAt != 0 && now <= c.expiresAt * SECOND + skew && (c.notBefore == 0 || now >= c.notBefore * SECOND - skew)
  }

  function Tolerance(skew: int): int {
    if skew < 0 then 0 else skew
  }

  function SignedPart(x: Env, keys: map<string, Key>, parts: seq<string>): Option<Claims>
    requires |parts| == 3
  {
    var rawHeader := Decode(parts[0]);
    var header := if rawHeader.None? then None else x.parseHeader(rawHeader.value);
    if header.None? || !HeaderOk(header.value) then None
    else
      var kid := header.value.kid;
      if kid !in keys || |keys[kid]| != PUBLIC_KEY_SIZE then None
      else
        var sig := Decode(parts[2]);
        if sig.None? || |sig.value| != SIGNATURE_SIZE then None
        else if !x.verify(keys[kid], parts[0] + "." + parts[1], sig.value) then None
        else
          var payload := Decode(parts[1]);
          if payload.None? then None else x.unmarshal(payload.value)
  }

  function Verify(x: Env, keys: map<string, Key>, expectedIssuer: string, skew: int, now: int,
                  token: string, audience: string): Option<Claims>
  {
    var parts := Split(token);
    if audience == "" || expectedIssuer == "" || |parts| != 3 then None
    else
      match SignedPart(x, keys, parts)
      case None => None
      case Some(c) =>
        if ClaimsOk(c, expectedIssuer, audience) && Timely(c, Tolerance(skew), now) then Some(c) else None
  }

  /** What makes a token of three parts acceptable: one named key signed the text as sent, for this audience, in time. */
  ghost predicate Genuine(x: Env, keys: map<string, Key>, expectedIssuer: string, skew: int, now: int, audience: string,
                          header: seq<Byte>, payload: seq<Byte>, sig: seq<Byte>, c: Claims) {
    |header| > 0 && |payload| > 0 && |sig| == SIGNATURE_SIZE && audience != "" && expectedIssuer != "" &&
    var h := x.parseHeader(header);
    h.Some? && h.value.alg == ALG && h.value.crit == [] && (h.value.typ == "" || h.value.typ == TYP) &&
    h.value.kid != "" && h.value.kid in keys && |keys[h.value.kid]| == PUBLIC_KEY_SIZE &&
    x.verify(keys[h.value.kid], Encode(header) + "." + Encode(payload), sig) && x.unmarshal(payload) == Some(c) &&
    c.issuer == expectedIssuer && c.audience == audience && c.subject != "" && |c.amr| > 0 &&
    InTime(c, if skew < 0 then 0 else skew, now)
  }

  /** Not past the expiry nor before the start, either moved out by the tolerance; a token without expiry is never in time. */
  predicate InTime(c: Claims, tolerance: nat, now: int) {
    c.expiresAt != 0 && !(c.expiresAt * SECOND < now - tolerance) && !(c.notBefore != 0 && now + tolerance < c.notBefore * SECOND)
  }

  /**
   A token verifies exactly when it is the text of three segments whose contents are
   genuine together; those contents fix the text.
   */
  lemma VerifyAcceptsExactly(x: Env, keys: map<string, Key>, expectedIssuer: string, skew: int, now: int,
                             token: string, audience: string, c: Claims)
    ensures Verify(x, keys, expectedIssuer, skew, now, token, audience) == Some(c) <==>
            var parts := DecodeToken(token);
            parts.Some? && Genuine(x, keys, expectedIssuer, skew, now, audience, parts.value.0, parts.value.1, parts.value.2, c)
  {
    var parts := Split(token);
    if |parts| == 3 && Decode(parts[0]).Some? && Decode(parts[1]).Some? && Decode(parts[2]).Some? {
      SegmentsAreBytes([], parts[0]);
      SegmentsAreBytes([], parts[1]);
      SegmentsAreBytes([], parts[2]);
    }
  }

  /** A token is good for one audience and one issuer, whoever checks it and whenever. */
  lemma OneAudience(x: Env, keys: map<string, Key>, token: string, issuer: string, audience: string, skew: int, now: int,
                    issuer': string, audience': string, skew': int, now': int)
    requires Verify(x, keys, issuer, skew, now, token, audience).Some?
    requires Verify(x, keys, issuer', skew', now', token, audience').Some?
    ensures issuer == issuer' && audience == audience'
    ensures Verify(x, keys, issuer, skew, now, token, audience) == Verify(x, keys, issuer', skew', now', token, audience')
  {
  }

  /** What signing and verifying with a key pair have to do with each other. */
  ghost predicate SchemeWorks(x: Env, priv: Key) {
    |x.public(priv)| == PUBLIC_KEY_SIZE &&
    forall m :: |x.sign(priv, m)| == SIGNATURE_SIZE && x.verify(x.public(priv), m, x.sign(priv, m))
  }

  /** The JSON codec gives back the header and these claims. */
  ghost predicate CodecWorks(x: Env, kid: string, c: Claims) {
    x.parseHeader(BytesOf(HeaderText(kid))) == Some(Header(ALG, kid, TYP, [])) &&
    |x.marshal(c)| > 0 && x.unmarshal(x.marshal(c)) == Some(c)
  }

  lemma KidIsNamed(x: Env, pub: Key)
    ensures Thumbprint(x, pub) != ""
  {
    SegmentsAreBytes(x.hash(KeyText(pub)), "");
    assert Decode("") == None;
  }

  /** What a verifier makes of a signed token: its claims, in time and under the signer's key, and nothing otherwise. */
  lemma VerifyIssued(x: Env, priv: Key, claims: Claims, keys: map<string, Key>, issuer: string, tolerance: int, now: int, audience: string)
    requires SchemeWorks(x, priv) && CodecWorks(x, Thumbprint(x, x.public(priv)), claims)
    requires issuer != "" && audience != "" && ClaimsOk(claims, issuer, audience)
    ensures var input, kid := SigningInput(x, priv, claims), Thumbprint(x, x.public(priv));
            var verified := Verify(x, keys, issuer, tolerance, now, input + "." + Encode(x.sign(priv, input)), audience);
            (kid in keys && keys[kid] == x.public(priv) ==>
               verified == if Timely(claims, Tolerance(tolerance), now) then Some(claims) else None) &&
            (kid !in keys ==> verified == None)
  {
    var header, payload := BytesOf(HeaderText(Thumbprint(x, x.public(priv)))), x.marshal(claims);
    var sig := x.sign(priv, SigningInput(x, priv, claims));
    var text := Segment.Token(header, payload, sig);
    DecodedPartsFixToken(text, header, payload, sig);
    KidIsNamed(x, x.public(priv));
    VerifyAcceptsExactly(x, keys, issuer, tolerance, now, text, audience, claims);
    var verified := Verify(x, keys, issuer, tolerance, now, text, audience);
    if verified.Some? {
      VerifyAcceptsExactly(x, keys, issuer, tolerance, now, text, audience, verified.value);
    }
  }

  lemma IssuedClaims(x: Env, priv: Key, issuer: string, ttl: int, skew: int, issuedAt: int, c: Ceremony)
    requires Assertable(c)
    ensures var issued := IssuedBy(x, priv, issuer, ttl, skew, issuedAt, c);
            var input := SigningInput(x, priv, issued.claims);
            issued.Token? && issued.text == input + "." + Encode(x.sign(priv, input)) &&
            ClaimsOk(issued.claims, issuer, c.audience)
  {
  }

  /** A client has a published key under its identifier exactly when it is published, unless the hash collides. */
  lemma ClientFindsKey(x: Env, published: seq<Key>, pub: Key)
    requires |pub| == PUBLIC_KEY_SIZE && forall i :: 0 <= i < |published| ==> |published[i]| == PUBLIC_KEY_SIZE
    ensures var keys, kid := KeysOf(x, Document(x, published)), Thumbprint(x, pub);
            Collides(x, published, pub) || if pub in published then kid in keys && keys[kid] == pub else kid !in keys
  {
    ClientHasPublishedKeys(x, published);
    var keys, kid := KeysOf(x, Document(x, published)), Thumbprint(x, pub);
    assert pub in published ==> KidBy(x)(pub) in Names(KidBy(x), published);
    if kid in keys && keys[kid] != pub {
      SameKidSameKey(x, keys[kid], pub);
    }
  }

  /** An issuer whose signature verifies and whose header and claims the codec gives back has signed for a complete ceremony. */
  ghost predicate Signs(x: Env, priv: Key, issuer: string, ttl: int, skew: int, issuedAt: int, c: Ceremony) {
    issuer != "" && SchemeWorks(x, priv) && Complete(c) &&
    CodecWorks(x, Thumbprint(x, x.public(priv)), ClaimsOf(issuer, ttl, skew, issuedAt, c))
  }

  /**
   Continuity across a rotation. Whatever an issuer has signed verifies exactly when its key
   is in the document at hand and the instant in the lifetime widened by the verifier's
   tolerance, and what comes back are the claims that were issued and assert the ceremony,
   unless the document exhibits a hash collision.
   */
  lemma TokenOutlivesRotation(x: Env, priv: Key, issuer: string, ttl: int, skew: int, issuedAt: int, c: Ceremony,
                              published: seq<Key>, tolerance: int, now: int)
    requires Signs(x, priv, issuer, ttl, skew, issuedAt, c)
    requires forall i :: 0 <= i < |published| ==> |published[i]| == PUBLIC_KEY_SIZE
    ensures var issued := IssuedBy(x, priv, issuer, ttl, skew, issuedAt, c);
            var keys := KeysOf(x, Document(x, published));
            issued.Token? && Asserts(issued.claims, issuer, ttl, skew, issuedAt, c) &&
            var verified := Verify(x, keys, issuer, tolerance, now, issued.text, c.audience);
            Collides(x, published, x.public(priv)) ||
            verified == if x.public(priv) in published && InTime(issued.claims, if tolerance < 0 then 0 else tolerance, now)
                        then Some(issued.claims) else None
  {
    var issued := IssuedBy(x, priv, issuer, ttl, skew, issuedAt, c);
    ClientFindsKey(x, published, x.public(priv));
    ClaimsAssert(issuer, ttl, skew, issuedAt, c);
    IssuedClaims(x, priv, issuer, ttl, skew, issuedAt, c);
    VerifyIssued(x, priv, issued.claims, KeysOf(x, Document(x, published)), issuer, tolerance, now, c.audience);
    TimelyIsInTime(issued.claims, tolerance, now);
  }

  lemma TimelyIsInTime(c: Claims, tolerance: int, now: int)
    ensures Timely(c, Tolerance(tolerance), now) <==> InTime(c, if tolerance < 0 then 0 else tolerance, now)
  {
  }

  lemma {:induction false} ListedIsFlattened(listings: seq<seq<Key>>, j: nat, k: Key)
    requires j < |listings| && k in listings[j]
    ensures k in Flatten(listings)
  {
    if j < |listings| - 1 {
      ListedIsFlattened(listings[..|listings| - 1], j, k);
    }
  }

  /**
   So an issuer made later, with any key of its own and the old one in any of its
   listings, even in several, publishes a document the old tokens verify against for as
   long as they would have.
   */
  lemma LaterIssuerHonoursTokens(later: Issuer, listings: seq<seq<Key>>, j: nat, priv: Key, issuer: string, ttl: int, skew: int,
                                 issuedAt: int, c: Ceremony, tolerance: int, now: int)
    requires later.Valid() && multiset(later.retired) == multiset(Flatten(listings))
    requires j < |listings| && later.env.public(priv) in listings[j]
    requires SchemeWorks(later.env, later.priv) && Signs(later.env, priv, issuer, ttl, skew, issuedAt, c)
    ensures var issued := IssuedBy(later.env, priv, issuer, ttl, skew, issuedAt, c);
            var keys := KeysOf(later.env, Document(later.env, later.Published()));
            issued.Token? && Asserts(issued.claims, issuer, ttl, skew, issuedAt, c) &&
            (Collides(later.env, later.Published(), later.env.public(priv)) ||
             Verify(later.env, keys, issuer, tolerance, now, issued.text, c.audience) ==
             if InTime(issued.claims, if tolerance < 0 then 0 else tolerance, now) then Some(issued.claims) else None)
  {
    var pub, published := later.env.public(priv), later.Published();
    ListedIsFlattened(listings, j, pub);
    assert pub in multiset(later.retired);
    forall i | 0 <= i < |published|
      ensures |published[i]| == PUBLIC_KEY_SIZE
    {
      assert i > 0 ==> published[i] in later.retired;
    }
    TokenOutlivesRotation(later.env, priv, issuer, ttl, skew, issuedAt, c, published, tolerance, now);
  }

  /**
   The lifetime in nanoseconds: under a published key a token verifies from its start on and
   until its expiry, both moved out by the tolerance, but for the last second, because the
   expiry is cut to a whole one.
   */
  lemma LifetimeIsCovered(x: Env, priv: Key, issuer: string, ttl: int, skew: int, issuedAt: int, c: Ceremony,
                          published: seq<Key>, tolerance: int, now: int)
    requires Signs(x, priv, issuer, ttl, skew, issuedAt, c) && x.public(priv) in published
    requires forall i :: 0 <= i < |published| ==> |published[i]| == PUBLIC_KEY_SIZE
    requires !InSecond(0, issuedAt + ttl)
    requires var wider := if tolerance < 0 then 0 else tolerance;
             issuedAt - skew - wider <= now <= issuedAt + ttl + wider - SECOND + 1
    ensures var issued := IssuedBy(x, priv, issuer, ttl, skew, issuedAt, c);
            issued.Token? && (Verify(x, KeysOf(x, Document(x, published)), issuer, tolerance, now, issued.text, c.audience).Some? ||
                              Collides(x, published, x.public(priv)))
  {
    TokenOutlivesRotation(x, priv, issuer, ttl, skew, issuedAt, c, published, tolerance, now);
  }

  /** Outside it a token is refused: later than its expiry, or more than a second too early. */
  lemma LifetimeEnds(x: Env, priv: Key, issuer: string, ttl: int, skew: int, issuedAt: int, c: Ceremony,
                     published: seq<Key>, tolerance: int, now: int)
    requires Signs(x, priv, issuer, ttl, skew, issuedAt, c)
    requires forall i :: 0 <= i < |published| ==> |published[i]| == PUBLIC_KEY_SIZE
    requires var wider := if tolerance < 0 then 0 else tolerance;
             now > issuedAt + ttl + wider || (!InSecond(0, issuedAt - skew) && now <= issuedAt - skew - wider - SECOND)
    ensures var issued := IssuedBy(x, priv, issuer, ttl, skew, issuedAt, c);
            issued.Token? && (Verify(x, KeysOf(x, Document(x, published)), issuer, tolerance, now, issued.text, c.audience).None? ||
                              Collides(x, published, x.public(priv)))
  {
    TokenOutlivesRotation(x, priv, issuer, ttl, skew, issuedAt, c, published, tolerance, now);
  }
}
