/** The verifier of identity assertions: the contract's steps, each stated on its own, and the
    procedure that runs them in their normative order. Base64 and JSON text, the signature
    algorithms and the trusted key sets are parameters. */
module Verifier {
  import opened Text
  import opened Decimal
  import opened Json
  import opened Names
  import opened Paths

  datatype Code =
    | Malformed | AlgNotAllowed | IssuerUntrusted | JwksUnavailable | KeyNotFound | SignatureInvalid
    | VersionUnsupported | ClaimsInvalid | Expired | NotYetValid | TtlExceeded | AudienceUnexpected
    | AudienceMismatch | DirMismatch

  const SUPPORTED_MAJOR := 2
  const DRIVEN_MAJOR := 2
  const MAX_LIFETIME := 43200
  const MAX_NUMERIC_DATE := 253402300799

  datatype Jwk = Jwk(kty: string, crv: string, kid: string, alg: string, usage: string, x: string, y: string)

  datatype Mode = Local | Peer

  datatype Params = Params(now: int, mode: Mode, peerId: string, observedDir: string, maxMajor: int)

  /** What a verification depends on besides the token and its parameters. `parse` decodes a segment
      that is exactly one JSON object and `decode` decodes base64url; `keys` is None when the key set
      cannot be had; `onCurve` takes the coordinates of a P-256 point. */
  datatype World = World(parse: string -> Option<Object>, decode: string -> Option<string>,
                         trusted: string -> bool, keys: string -> Option<seq<Jwk>>,
                         ed25519: (string, string, string) -> bool, ecdsa: (string, string, string, string) -> bool,
                         onCurve: (string, string) -> bool)

  datatype Verified = Verified(iss: string, actor: string, roles: seq<string>, grade: string)

  // -------------------------------------------------------------- values of claims

  function Field(m: Object, name: string): Option<Json> {
    if name in m then Some(m[name]) else None
  }

  /** The string at a key, empty when there is none. */
  function StringOf(m: Object, name: string): string {
    if name in m && m[name].Str? then m[name].s else ""
  }

  function AsInt(v: Option<Json>): Option<int> {
    if v.Some? && v.value.Num? then ParseInt64(v.value.text) else None
  }

  predicate NonEmpty(v: Option<Json>) {
    v.Some? && v.value.Str? && v.value.s != ""
  }

  /** Two's complement subtraction of 64-bit integers. */
  function Sub64(a: int, b: int): int {
    Wrap64(a - b)
  }

  function Wrap64(n: int): int {
    (n + TWO_63) % (2 * TWO_63) - TWO_63
  }

  /** Without the bound on the dates the wrapped lifetime check would let these pass. */
  lemma UnboundedDatesWouldPass()
    ensures var iat, exp := -TWO_63, 1; exp - iat > MAX_LIFETIME && Sub64(exp, iat) <= MAX_LIFETIME
  {
    assert (1 + TWO_63 + TWO_63) % (2 * TWO_63) == 1;
  }

  lemma Wrap64Keeps(n: int)
    requires -TWO_63 <= n < TWO_63
    ensures Wrap64(n) == n
  {
  }

  // -------------------------------------------------------------- keys and signatures

  predicate VerifySignature(w: World, k: Jwk, alg: string, input: string, sig: string) {
    if alg == "EdDSA" then
      && k.kty == "OKP" && k.crv == "Ed25519"
      && w.decode(k.x).Some? && |w.decode(k.x).value| == 32
      && w.ed25519(w.decode(k.x).value, input, sig)
    else if alg == "ES256" then
      && k.kty == "EC" && k.crv == "P-256" && |sig| == 64
      && w.decode(k.x).Some? && w.decode(k.y).Some?
      && w.onCurve(w.decode(k.x).value, w.decode(k.y).value)
      && w.ecdsa(w.decode(k.x).value, w.decode(k.y).value, input, sig)
    else false
  }

  /** A key that may verify a token whose header names `kid` and `alg`. */
  predicate MaySign(k: Jwk, kid: string, alg: string) {
    kid != "" && k.kid == kid && (k.usage == "" || k.usage == "sig") && (k.alg == "" || k.alg == alg)
  }

  /** The keys that may verify such a token, in the order published. */
  function Signing(keys: seq<Jwk>, kid: string, alg: string): seq<Jwk> {
    if keys == [] then []
    else
      var last := keys[|keys| - 1];
      Signing(keys[..|keys| - 1], kid, alg) + if MaySign(last, kid, alg) then [last] else []
  }

  lemma {:induction false} SigningExactly(keys: seq<Jwk>, kid: string, alg: string, k: Jwk)
    ensures k in Signing(keys, kid, alg) <==> k in keys && MaySign(k, kid, alg)
  {
    hide MaySign;
    if keys != [] {
      var init, last := keys[..|keys| - 1], keys[|keys| - 1];
      SigningExactly(init, kid, alg, k);
      assert keys == init + [last];
    }
  }

  lemma {:induction false} NoKidNoKeys(keys: seq<Jwk>, alg: string)
    ensures Signing(keys, "", alg) == []
  {
    if keys != [] { NoKidNoKeys(keys[..|keys| - 1], alg); }
  }

  method SigningKeys(keys: seq<Jwk>, kid: string, alg: string) returns (out: seq<Jwk>)
    ensures out == Signing(keys, kid, alg)
    ensures forall k :: k in out <==> k in keys && MaySign(k, kid, alg)
  {
    forall k ensures k in Signing(keys, kid, alg) <==> k in keys && MaySign(k, kid, alg) { SigningExactly(keys, kid, alg, k); }
    out := [];
    if kid == "" {
      NoKidNoKeys(keys, alg);
      return;
    }
    for i := 0 to |keys|
      invariant out == Signing(keys[..i], kid, alg)
    {
      var k := keys[i];
      assert keys[..i + 1][..i] == keys[..i];
      if k.kid != kid || (k.usage != "" && k.usage != "sig") || (k.alg != "" && k.alg != alg) {
        continue;
      }
      out := out + [k];
    }
    assert keys[..|keys|] == keys;
  }

  // -------------------------------------------------------------- the claim shape (section 3.1)

  predicate ValidActorChain(v: Json)
    decreases v
  {
    && v.Obj?
    && "sub" in v.members && v.members["sub"].Str? && ActorSub(v.members["sub"].s)
    && ("act" in v.members ==> ValidActorChain(v.members["act"]))
  }

  /** The value at each level of an act chain, outermost first. */
  function Levels(v: Json): (levels: seq<Json>)
    decreases v
  {
    if v.Obj? && "act" in v.members then [v] + Levels(v.members["act"]) else [v]
  }

  predicate ActorLevel(v: Json) {
    v.Obj? && "sub" in v.members && v.members["sub"].Str? && ActorSub(v.members["sub"].s)
  }

  predicate AllActors(levels: seq<Json>) {
    forall i :: 0 <= i < |levels| ==> ActorLevel(levels[i])
  }

  lemma AllActorsCons(v: Json, rest: seq<Json>)
    ensures AllActors([v] + rest) <==> ActorLevel(v) && AllActors(rest)
  {
    hide ActorLevel;
    assert ([v] + rest)[0] == v;
    assert forall i :: 0 <= i < |rest| ==> rest[i] == ([v] + rest)[i + 1];
  }

  /** A chain is valid exactly when every level of it is an actor. */
  lemma {:induction false} EveryLevelIsAnActor(v: Json)
    ensures ValidActorChain(v) <==> AllActors(Levels(v))
    decreases v
  {
    hide AllActors, ActorSub;
    if v.Obj? && "act" in v.members {
      EveryLevelIsAnActor(v.members["act"]);
      AllActorsCons(v, Levels(v.members["act"]));
    } else {
      AllActorsCons(v, []);
      assert [v] + [] == [v];
      assert AllActors([]) by { NoActors(); }
    }
  }

  lemma NoActors()
    ensures AllActors([])
  {
  }

  const REQUIRED := ["iss", "sub", "roles", "grade", "rt", "sid", "origin", "iat", "exp", "jti", "cia"]

  predicate AllRequired(c: Object) {
    forall i :: 0 <= i < |REQUIRED| ==> REQUIRED[i] in c
  }

  /** A list of distinct role names. */
  predicate RolesShape(v: Option<Json>) {
    && v.Some? && v.value.Arr?
    && (forall i :: 0 <= i < |v.value.items| ==> v.value.items[i].Str? && RoleName(v.value.items[i].s))
    && forall i, j :: 0 <= i < j < |v.value.items| ==> v.value.items[i] != v.value.items[j]
  }

  predicate SubShape(c: Object) {
    && "sub" in c && c["sub"].Str?
    && (ActorOf(c["sub"].s, "human") || ActorSub(c["sub"].s))
  }

  predicate GradeShape(c: Object) {
    StringOf(c, "grade") == "workload" || StringOf(c, "grade") == "harness"
  }

  predicate OriginShape(c: Object, cia: int) {
    var o := StringOf(c, "origin");
    || o == "human" || o == "scheduled" || o == "loop" || o == "trigger" || o == "agent"
    || (o == "driven" && cia >= DRIVEN_MAJOR && StringOf(c, "grade") == "workload" && !HasPrefix(StringOf(c, "sub"), "human:"))
  }

  predicate RuntimeShape(c: Object) {
    && "rt" in c && c["rt"].Obj?
    && NonEmpty(Field(c["rt"].members, "id")) && NonEmpty(Field(c["rt"].members, "version"))
  }

  predicate OptionalShapes(c: Object) {
    && ("act" in c ==> ValidActorChain(c["act"]))
    && ("spawn" in c ==> NonEmpty(Field(c, "spawn")))
    && ("aud" in c ==> NonEmpty(Field(c, "aud")))
    && ("dir" in c ==> c["dir"].Str? && HasPrefix(c["dir"].s, "/"))
  }

  predicate BindingShape(c: Object) {
    && ("aud" in c <==> "dir" !in c)
    && (StringOf(c, "grade") == "harness" ==> "act" in c && "spawn" in c)
  }

  predicate ClaimsShape(c: Object, cia: int) {
    && AllRequired(c)
    && NonEmpty(Field(c, "iss")) && NonEmpty(Field(c, "sid")) && NonEmpty(Field(c, "jti"))
    && SubShape(c) && RolesShape(Field(c, "roles")) && GradeShape(c) && OriginShape(c, cia) && RuntimeShape(c)
    && OptionalShapes(c) && BindingShape(c)
  }

  method RolesShapeValid(items: seq<Json>) returns (ok: bool)
    ensures ok <==> RolesShape(Some(Arr(items)))
  {
    hide RoleName;
    var seen: set<string> := {};
    for i := 0 to |items|
      invariant forall k :: 0 <= k < i ==> items[k].Str? && RoleName(items[k].s) && items[k].s in seen
      invariant forall s :: s in seen ==> exists k :: 0 <= k < i && items[k] == Str(s)
      invariant forall k, j :: 0 <= k < j < i ==> items[k] != items[j]
    {
      var r := items[i];
      if !r.Str? || !RoleName(r.s) || r.s in seen {
        return false;
      }
      seen := seen + {r.s};
    }
    return true;
  }

  method ClaimsShapeValid(c: Object, cia: int) returns (ok: bool)
    ensures ok <==> ClaimsShape(c, cia)
  {
    hide RoleName, ActorSub, ActorOf, ValidActorChain, RolesShape, HasPrefix;
    for i := 0 to |REQUIRED|
      invariant forall k :: 0 <= k < i ==> REQUIRED[k] in c
    {
      if REQUIRED[i] !in c { return false; }
    }
    if !NonEmpty(Field(c, "iss")) || !NonEmpty(Field(c, "sid")) || !NonEmpty(Field(c, "jti")) { return false; }
    if !SubShape(c) { return false; }
    if !("roles" in c && c["roles"].Arr?) {
      NoRoles(c);
      return false;
    }
    var roles := RolesShapeValid(c["roles"].items);
    assert Field(c, "roles") == Some(Arr(c["roles"].items));
    if !roles { return false; }
    ok := RestShapeValid(c, cia);
  }

  lemma NoRoles(c: Object)
    requires !("roles" in c && c["roles"].Arr?)
    ensures !RolesShape(Field(c, "roles"))
  {
  }

  method RestShapeValid(c: Object, cia: int) returns (ok: bool)
    ensures ok <==> GradeShape(c) && OriginShape(c, cia) && RuntimeShape(c) && OptionalShapes(c) && BindingShape(c)
  {
    hide ActorSub, ActorOf, ValidActorChain, HasPrefix;
    var g := StringOf(c, "grade");
    if g != "workload" && g != "harness" { return false; }
    var o := StringOf(c, "origin");
    if o == "driven" {
      if cia < DRIVEN_MAJOR || g != "workload" || HasPrefix(StringOf(c, "sub"), "human:") { return false; }
    } else if !(o == "human" || o == "scheduled" || o == "loop" || o == "trigger" || o == "agent") {
      return false;
    }
    if !("rt" in c && c["rt"].Obj?) { return false; }
    if !NonEmpty(Field(c["rt"].members, "id")) || !NonEmpty(Field(c["rt"].members, "version")) { return false; }
    if "act" in c && !ValidActorChain(c["act"]) { return false; }
    if "spawn" in c && !NonEmpty(Field(c, "spawn")) { return false; }
    if "aud" in c && !NonEmpty(Field(c, "aud")) { return false; }
    if "dir" in c {
      if !c["dir"].Str? || !HasPrefix(c["dir"].s, "/") { return false; }
    }
    if ("aud" in c) == ("dir" in c) { return false; }
    if g == "harness" {
      if "act" !in c { return false; }
      if "spawn" !in c { return false; }
    }
    return true;
  }

  // -------------------------------------------------------------- the steps of section 4

  function Part(token: string, i: nat): string {
    var parts := Split(token, '.');
    if i < |parts| then parts[i] else ""
  }

  function Header(w: World, token: string): Object {
    var h := w.parse(Part(token, 0));
    if h.Some? then h.value else map[]
  }

  function ClaimSet(w: World, token: string): Object {
    var c := w.parse(Part(token, 1));
    if c.Some? then c.value else map[]
  }

  function KeysOf(w: World, token: string): seq<Jwk> {
    var keys := w.keys(StringOf(ClaimSet(w, token), "iss"));
    if keys.Some? then keys.value else []
  }

  /** A key of the issuer's set that may sign for the header's kid and alg. */
  predicate Candidate(w: World, token: string, k: Jwk) {
    k in KeysOf(w, token) && MaySign(k, StringOf(Header(w, token), "kid"), StringOf(Header(w, token), "alg"))
  }

  predicate SignedBy(w: World, token: string, k: Jwk) {
    var sig := w.decode(Part(token, 2));
    sig.Some? && VerifySignature(w, k, StringOf(Header(w, token), "alg"), Part(token, 0) + "." + Part(token, 1), sig.value)
  }

  /** The integer at a name, zero when there is none. */
  function Date(w: World, token: string, name: string): int {
    var n := AsInt(Field(ClaimSet(w, token), name));
    if n.Some? then n.value else 0
  }

  function MaxMajor(p: Params): int {
    if p.maxMajor == 0 then SUPPORTED_MAJOR else p.maxMajor
  }

  ghost predicate WellFormed(w: World, token: string) {
    |Split(token, '.')| == 3 && w.parse(Part(token, 0)).Some? && w.parse(Part(token, 1)).Some? && "crit" !in Header(w, token)
  }

  ghost predicate AlgAllowed(w: World, token: string) {
    StringOf(Header(w, token), "alg") == "EdDSA" || StringOf(Header(w, token), "alg") == "ES256"
  }

  ghost predicate IssuerTrusted(w: World, token: string) {
    var iss := StringOf(ClaimSet(w, token), "iss");
    iss != "" && w.trusted(iss)
  }

  ghost predicate KeysAvailable(w: World, token: string) {
    w.keys(StringOf(ClaimSet(w, token), "iss")).Some?
  }

  ghost predicate HasKey(w: World, token: string) {
    exists k :: Candidate(w, token, k)
  }

  ghost predicate Authentic(w: World, token: string) {
    exists k :: Candidate(w, token, k) && SignedBy(w, token, k)
  }

  ghost predicate VersionSupported(w: World, token: string, p: Params) {
    var cia := AsInt(Field(ClaimSet(w, token), "cia"));
    cia.Some? && 1 <= cia.value <= MaxMajor(p)
  }

  /** The dates are integers, and iat and exp lie in the supported range. */
  ghost predicate DatesValid(w: World, token: string) {
    var c := ClaimSet(w, token);
    && ("nbf" in c ==> AsInt(Field(c, "nbf")).Some?)
    && AsInt(Field(c, "iat")).Some? && AsInt(Field(c, "exp")).Some?
    && 0 <= Date(w, token, "iat") <= MAX_NUMERIC_DATE && 0 <= Date(w, token, "exp") <= MAX_NUMERIC_DATE
  }

  ghost predicate NotExpired(w: World, token: string, p: Params) {
    p.now < Date(w, token, "exp")
  }

  ghost predicate AlreadyValid(w: World, token: string, p: Params) {
    Date(w, token, "iat") <= p.now && ("nbf" in ClaimSet(w, token) ==> Date(w, token, "nbf") <= p.now)
  }

  ghost predicate LifetimeCapped(w: World, token: string) {
    Date(w, token, "exp") - Date(w, token, "iat") <= MAX_LIFETIME
  }

  ghost predicate ShapeValid(w: World, token: string) {
    ClaimsShape(ClaimSet(w, token), Date(w, token, "cia"))
  }

  ghost predicate NoAudience(w: World, token: string, p: Params) {
    p.mode.Local? ==> "aud" !in ClaimSet(w, token)
  }

  ghost predicate AudienceIsUs(w: World, token: string, p: Params) {
    p.mode.Peer? ==> Field(ClaimSet(w, token), "aud") == Some(Str(p.peerId))
  }

  ghost predicate DirectoryMatches(w: World, token: string, p: Params) {
    p.mode.Local? ==> Clean(StringOf(ClaimSet(w, token), "dir")) == Clean(p.observedDir)
  }

  const STEPS := 15

  /** Whether the contract's step `k`, counted in the normative order, holds. */
  ghost predicate Holds(w: World, token: string, p: Params, k: int) {
    match k
    case 0 => WellFormed(w, token)
    case 1 => AlgAllowed(w, token)
    case 2 => IssuerTrusted(w, token)
    case 3 => KeysAvailable(w, token)
    case 4 => HasKey(w, token)
    case 5 => Authentic(w, token)
    case 6 => VersionSupported(w, token, p)
    case 7 => DatesValid(w, token)
    case 8 => NotExpired(w, token, p)
    case 9 => AlreadyValid(w, token, p)
    case 10 => LifetimeCapped(w, token)
    case 11 => ShapeValid(w, token)
    case 12 => NoAudience(w, token, p)
    case 13 => DirectoryMatches(w, token, p)
    case 14 => AudienceIsUs(w, token, p)
    case _ => true
  }

  /** The code that reports the failure of step `k`. */
  function CodeOf(k: int): Code {
    match k
    case 0 => Malformed
    case 1 => AlgNotAllowed
    case 2 => IssuerUntrusted
    case 3 => JwksUnavailable
    case 4 => KeyNotFound
    case 5 => SignatureInvalid
    case 6 => VersionUnsupported
    case 7 => ClaimsInvalid
    case 8 => Expired
    case 9 => NotYetValid
    case 10 => TtlExceeded
    case 11 => ClaimsInvalid
    case 12 => AudienceUnexpected
    case 13 => DirMismatch
    case _ => AudienceMismatch
  }

  ghost predicate HoldsBefore(w: World, token: string, p: Params, n: int) {
    forall k :: 0 <= k < n ==> Holds(w, token, p, k)
  }

  ghost predicate Accepts(w: World, token: string, p: Params) {
    HoldsBefore(w, token, p, STEPS)
  }

  /** Step `k` is the first that fails. */
  ghost predicate FailsFirstAt(w: World, token: string, p: Params, k: int) {
    0 <= k < STEPS && !Holds(w, token, p, k) && HoldsBefore(w, token, p, k)
  }

  /** What a verified token says. */
  function Says(c: Object): Verified {
    Verified(StringOf(c, "iss"),
             if "act" in c && c["act"].Obj? then StringOf(c["act"].members, "sub") else StringOf(c, "sub"),
             if "roles" in c && c["roles"].Arr? then RoleTexts(c["roles"].items) else [],
             StringOf(c, "grade"))
  }

  function RoleTexts(items: seq<Json>): seq<string> {
    seq(|items|, i requires 0 <= i < |items| => if items[i].Str? then items[i].s else "")
  }

  // -------------------------------------------------------------- the procedure

  /** Runs the steps in order and reports the first that fails: a token is accepted exactly when
      every step holds, and a refusal carries the code of the earliest step that does not. */
  method VerifyAssertion(w: World, token: string, p: Params) returns (r: Result<Verified, Code>, ghost failed: int)
    ensures r.Err? ==> FailsFirstAt(w, token, p, failed) && r.error == CodeOf(failed)
    ensures r.Ok? <==> Accepts(w, token, p)
    ensures r.Ok? ==> r.value == Says(ClaimSet(w, token))
  {
    hide Split, MaySign, VerifySignature, ClaimsShape, ParseInt64, Signing;
    failed := -1;
    var parts := Split(token, '.');
    assert |parts| == 3 ==> Part(token, 0) == parts[0] && Part(token, 1) == parts[1] && Part(token, 2) == parts[2];
    if |parts| != 3 { return Err(Malformed), 0; }
    var header := w.parse(parts[0]);
    var claims := w.parse(parts[1]);
    if header.None? || claims.None? { return Err(Malformed), 0; }
    if "crit" in header.value { return Err(Malformed), 0; }
    var alg := StringOf(header.value, "alg");
    if alg != "EdDSA" && alg != "ES256" { return Err(AlgNotAllowed), 1; }
    var iss := StringOf(claims.value, "iss");
    if iss == "" || !w.trusted(iss) { return Err(IssuerUntrusted), 2; }
    var keys := w.keys(iss);
    if keys.None? { return Err(JwksUnavailable), 3; }
    var candidates := SigningKeys(keys.value, StringOf(header.value, "kid"), alg);
    assert forall k :: k in candidates <==> Candidate(w, token, k);
    if |candidates| == 0 { return Err(KeyNotFound), 4; }
    assert Candidate(w, token, candidates[0]);
    var verified := AnySigns(w, candidates, alg, parts[0] + "." + parts[1], w.decode(parts[2]));
    assert verified <==> Authentic(w, token) by { SignaturesAgree(w, token, candidates, parts); }
    if !verified { return Err(SignatureInvalid), 5; }
    assert HoldsBefore(w, token, p, 6);
    r, failed := VerifyClaims(w, token, claims.value, p);
  }

  method AnySigns(w: World, candidates: seq<Jwk>, alg: string, input: string, sig: Option<string>) returns (verified: bool)
    ensures verified <==> sig.Some? && exists k :: k in candidates && VerifySignature(w, k, alg, input, sig.value)
  {
    hide VerifySignature;
    verified := false;
    if sig.Some? {
      for i := 0 to |candidates|
        invariant !verified && forall j :: 0 <= j < i ==> !VerifySignature(w, candidates[j], alg, input, sig.value)
      {
        if VerifySignature(w, candidates[i], alg, input, sig.value) {
          verified := true;
          break;
        }
      }
    }
  }

  lemma SignaturesAgree(w: World, token: string, candidates: seq<Jwk>, parts: seq<string>)
    requires parts == Split(token, '.') && |parts| == 3
    requires forall k :: k in candidates <==> Candidate(w, token, k)
    ensures Authentic(w, token) <==>
              var sig := w.decode(parts[2]);
              sig.Some? && exists k :: k in candidates && VerifySignature(w, k, StringOf(Header(w, token), "alg"), parts[0] + "." + parts[1], sig.value)
  {
    hide Split, VerifySignature, Candidate;
    forall k ensures SignedBy(w, token, k) <==>
        var sig := w.decode(parts[2]);
        sig.Some? && VerifySignature(w, k, StringOf(Header(w, token), "alg"), parts[0] + "." + parts[1], sig.value)
    {
    }
  }

  /** The steps after the signature. */
  method VerifyClaims(w: World, token: string, claims: Object, p: Params) returns (r: Result<Verified, Code>, ghost failed: int)
    requires claims == ClaimSet(w, token)
    requires HoldsBefore(w, token, p, 6)
    ensures r.Err? ==> FailsFirstAt(w, token, p, failed) && r.error == CodeOf(failed)
    ensures r.Ok? <==> Accepts(w, token, p)
    ensures r.Ok? ==> r.value == Says(claims)
  {
    hide Split, Part, ClaimSet, ClaimsShape, ParseInt64, WellFormed, AlgAllowed, IssuerTrusted, KeysAvailable, HasKey, Authentic;
    failed := -1;
    var cia := AsInt(Field(claims, "cia"));
    var maxMajor := if p.maxMajor == 0 then SUPPORTED_MAJOR else p.maxMajor;
    if cia.None? || cia.value < 1 || cia.value > maxMajor { return Err(VersionUnsupported), 6; }
    var iat := AsInt(Field(claims, "iat"));
    var exp := AsInt(Field(claims, "exp"));
    var nbf: Option<int> := None;
    if "nbf" in claims {
      nbf := AsInt(Field(claims, "nbf"));
      if nbf.None? { return Err(ClaimsInvalid), 7; }
    }
    if iat.None? || exp.None? { return Err(ClaimsInvalid), 7; }
    if iat.value < 0 || iat.value > MAX_NUMERIC_DATE || exp.value < 0 || exp.value > MAX_NUMERIC_DATE {
      return Err(ClaimsInvalid), 7;
    }
    if exp.value <= p.now { return Err(Expired), 8; }
    if (nbf.Some? && p.now < nbf.value) || iat.value > p.now { return Err(NotYetValid), 9; }
    Wrap64Keeps(exp.value - iat.value);
    if Sub64(exp.value, iat.value) > MAX_LIFETIME { return Err(TtlExceeded), 10; }
    var shape := ClaimsShapeValid(claims, cia.value);
    if !shape { return Err(ClaimsInvalid), 11; }
    assert HoldsBefore(w, token, p, 12);
    r, failed := VerifyBinding(w, token, claims, p, cia.value);
  }

  /** The audience and directory steps, and what the token says. */
  method VerifyBinding(w: World, token: string, claims: Object, p: Params, ghost cia: int)
    returns (r: Result<Verified, Code>, ghost failed: int)
    requires claims == ClaimSet(w, token) && ClaimsShape(claims, cia)
    requires HoldsBefore(w, token, p, 12)
    ensures r.Err? ==> FailsFirstAt(w, token, p, failed) && r.error == CodeOf(failed)
    ensures r.Ok? <==> Accepts(w, token, p)
    ensures r.Ok? ==> r.value == Says(claims)
  {
    hide Split, Part, ClaimSet, ParseInt64, Clean, WellFormed, AlgAllowed, IssuerTrusted, KeysAvailable, HasKey, Authentic,
         VersionSupported, DatesValid, NotExpired, AlreadyValid, LifetimeCapped, ShapeValid, ClaimsShape;
    Shaped(claims, cia);
    failed := -1;
    var hasAud := "aud" in claims && claims["aud"].Str?;
    match p.mode {
      case Local =>
        if hasAud { return Err(AudienceUnexpected), 12; }
        if Clean(claims["dir"].s) != Clean(p.observedDir) { return Err(DirMismatch), 13; }
      case Peer =>
        if !hasAud || claims["aud"].s != p.peerId { return Err(AudienceMismatch), 14; }
    }
    var actor := claims["sub"].s;
    if "act" in claims && claims["act"].Obj? { actor := claims["act"].members["sub"].s; }
    var roles := [];
    for i := 0 to |claims["roles"].items|
      invariant roles == RoleTexts(claims["roles"].items[..i])
    {
      assert claims["roles"].items[..i + 1] == claims["roles"].items[..i] + [claims["roles"].items[i]];
      roles := roles + [claims["roles"].items[i].s];
    }
    assert claims["roles"].items[..|claims["roles"].items|] == claims["roles"].items;
    r := Ok(Verified(StringOf(claims, "iss"), actor, roles, claims["grade"].s));
  }

  /** What a valid shape promises to the code that reads the claims without asking. */
  lemma Shaped(c: Object, cia: int)
    requires ClaimsShape(c, cia)
    ensures "sub" in c && c["sub"].Str? && "grade" in c && c["grade"].Str? && "iss" in c && c["iss"].Str?
    ensures "roles" in c && c["roles"].Arr? && forall i :: 0 <= i < |c["roles"].items| ==> c["roles"].items[i].Str?
    ensures "aud" in c ==> c["aud"].Str?
    ensures "aud" in c <==> "dir" !in c
    ensures "dir" in c ==> c["dir"].Str?
    ensures "act" in c ==> c["act"].Obj? && "sub" in c["act"].members && c["act"].members["sub"].Str?
  {
    hide RoleName, ActorSub, ActorOf, HasPrefix, AllRequired, OriginShape, RuntimeShape;
  }
}
