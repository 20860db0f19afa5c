/** The identity contract as its document has it, and the verifier against it: section 3.1 and the steps
    of section 4 told of the token's own text and members, with the meaning of every failure code. */
module Contract {
  import opened Text
  import opened Decimal
  import opened Json
  import opened Paths
  import opened Patterns
  import V = Verifier
  import Names

  // -------------------------------------------------------------- the claims (section 3)

  ghost predicate HasString(m: Object, name: string, s: string) {
    name in m && m[name] == Str(s)
  }

  /** A 64-bit integer without fraction or exponent. */
  ghost predicate HasInt(m: Object, name: string, n: int) {
    name in m && m[name].Num? && ParseInt64(m[name].text) == Some(n)
  }

  ghost predicate NonEmptyString(m: Object, name: string) {
    name in m && m[name].Str? && m[name].s != ""
  }

  ghost predicate ActorString(s: string, human: bool) {
    || Matches([Literal("agent:")] + NAME, s) || Matches([Literal("runtime:")] + NAME, s)
    || (human && Matches([Literal("human:")] + NAME, s))
  }

  /** The levels of the act chain `v`, outermost first: each an object that names an actor, each but the last
      holding the next. */
  ghost predicate ActChain(levels: seq<Json>, v: Json) {
    && levels != [] && levels[0] == v
    && (forall i :: 0 <= i < |levels| ==> levels[i].Obj? && "sub" in levels[i].members && levels[i].members["sub"].Str?
                                          && ActorString(levels[i].members["sub"].s, false))
    && (forall i :: 0 <= i < |levels| ==> ("act" in levels[i].members <==> i + 1 < |levels|))
    && (forall i :: 0 <= i < |levels| - 1 ==> levels[i].members["act"] == levels[i + 1])
  }

  ghost predicate RoleList(v: Json) {
    && v.Arr?
    && (forall i :: 0 <= i < |v.items| ==> v.items[i].Str? && Matches(ROLE_NAME, v.items[i].s))
    && forall i, j :: 0 <= i < j < |v.items| ==> v.items[i].s != v.items[j].s
  }

  /** Which members there must be, and of what type. */
  ghost predicate Members(m: Object) {
    && NonEmptyString(m, "iss") && NonEmptyString(m, "sid") && NonEmptyString(m, "jti")
    && "sub" in m && m["sub"].Str? && ActorString(m["sub"].s, true)
    && "roles" in m && RoleList(m["roles"])
    && "iat" in m && "exp" in m && "cia" in m
    && "rt" in m && m["rt"].Obj? && NonEmptyString(m["rt"].members, "id") && NonEmptyString(m["rt"].members, "version")
    && ("spawn" in m ==> NonEmptyString(m, "spawn"))
    && ("act" in m ==> exists levels :: ActChain(levels, m["act"]))
  }

  /** Sections 3.1 and 3.3: grade and origin, and what they require and forbid. */
  ghost predicate GradeAndOrigin(m: Object, cia: int) {
    && (HasString(m, "grade", "workload") || (HasString(m, "grade", "harness") && "spawn" in m && "act" in m))
    && (|| HasString(m, "origin", "human") || HasString(m, "origin", "scheduled") || HasString(m, "origin", "loop")
        || HasString(m, "origin", "trigger") || HasString(m, "origin", "agent")
        || (HasString(m, "origin", "driven") && cia >= 2 && HasString(m, "grade", "workload")
            && "sub" in m && m["sub"].Str? && !(|m["sub"].s| >= 6 && m["sub"].s[..6] == "human:")))
  }

  /** A local assertion names its directory and no audience, an exchanged one the reverse. */
  ghost predicate AudienceOrDirectory(m: Object) {
    || ("aud" !in m && "dir" in m && m["dir"].Str? && m["dir"].s != "" && m["dir"].s[0] == '/')
    || (NonEmptyString(m, "aud") && "dir" !in m)
  }

  lemma StartsWithSlash(s: string)
    ensures HasPrefix(s, "/") <==> s != "" && s[0] == '/'
  {
    if s != "" { assert s[..1] == [s[0]]; }
  }

  lemma RoleLists(v: Option<Json>)
    ensures V.RolesShape(v) <==> v.Some? && RoleList(v.value)
  {
    hide Names.RoleName, Matches;
    forall s ensures Names.RoleName(s) <==> Matches(ROLE_NAME, s) { RoleNameIs(s); }
  }

  lemma ActorLevels(v: Json)
    ensures V.ActorLevel(v) <==> v.Obj? && "sub" in v.members && v.members["sub"].Str? && ActorString(v.members["sub"].s, false)
  {
    hide Names.ActorSub, Matches;
    forall s ensures Names.ActorSub(s) <==> ActorString(s, false) { ActorSubIs(s); }
  }

  lemma {:induction false} ChainsOf(v: Json)
    requires V.ValidActorChain(v)
    ensures exists levels :: ActChain(levels, v)
    decreases v
  {
    hide Names.ActorSub, ActorString;
    ActorLevels(v);
    if "act" in v.members {
      ChainsOf(v.members["act"]);
      var rest :| ActChain(rest, v.members["act"]);
      assert ActChain([v] + rest, v);
    } else {
      assert ActChain([v], v);
    }
  }

  lemma {:induction false} ChainIsValid(levels: seq<Json>, v: Json)
    requires ActChain(levels, v)
    ensures V.ValidActorChain(v)
    decreases |levels|
  {
    hide Names.ActorSub, ActorString;
    ActorLevels(v);
    if |levels| > 1 {
      assert ActChain(levels[1..], levels[1]);
      ChainIsValid(levels[1..], levels[1]);
    }
  }

  lemma Subjects(s: string)
    ensures Names.ActorOf(s, "human") || Names.ActorSub(s) <==> ActorString(s, true)
  {
    ActorSubIs(s);
    ActorIs(s, "human");
    assert "human" + ":" == "human:";
  }

  /** The shape the verifier asks for is the one the contract has. */
  lemma ShapeIsTheContracts(m: Object, cia: int)
    ensures V.ClaimsShape(m, cia) <==> Members(m) && GradeAndOrigin(m, cia) && AudienceOrDirectory(m)
  {
    hide V.RolesShape, RoleList, ActorString, Names.ActorOf, Names.ActorSub, V.ValidActorChain, ActChain, HasPrefix, V.AllRequired;
    AllRequiredAre(m);
    RoleLists(V.Field(m, "roles"));
    if "sub" in m && m["sub"].Str? {
      Subjects(m["sub"].s);
      Human(m["sub"].s);
    }
    if "dir" in m && m["dir"].Str? { StartsWithSlash(m["dir"].s); }
    if "act" in m {
      if V.ValidActorChain(m["act"]) { ChainsOf(m["act"]); }
      if levels :| ActChain(levels, m["act"]) { ChainIsValid(levels, m["act"]); }
    }
  }

  lemma Human(s: string)
    ensures HasPrefix(s, "human:") <==> |s| >= 6 && s[..6] == "human:"
  {
  }

  lemma AllRequiredAre(m: Object)
    ensures V.AllRequired(m) <==> "iss" in m && "sub" in m && "roles" in m && "grade" in m && "rt" in m && "sid" in m && "origin" in m
                                  && "iat" in m && "exp" in m && "jti" in m && "cia" in m
  {
    var all := V.REQUIRED;
    if V.AllRequired(m) {
      assert all[0] in m && all[1] in m && all[2] in m && all[3] in m && all[4] in m && all[5] in m && all[6] in m;
      assert all[7] in m && all[8] in m && all[9] in m && all[10] in m;
    }
  }

  // -------------------------------------------------------------- the steps (section 4)

  /** The key that a token's header names: published under that kid, for signatures and for that alg, or
      for any. */
  ghost predicate NamedKey(k: V.Jwk, kid: string, alg: string) {
    kid != "" && k.kid == kid && k.usage in {"", "sig"} && k.alg in {"", alg}
  }

  /** The signature over `input` verifies with a key of the type that the alg asks for. */
  ghost predicate SignatureVerifies(w: V.World, k: V.Jwk, alg: string, input: string, sig: string) {
    || (alg == "EdDSA" && k.kty == "OKP" && k.crv == "Ed25519"
        && exists x :: w.decode(k.x) == Some(x) && |x| == 32 && w.ed25519(x, input, sig))
    || (alg == "ES256" && k.kty == "EC" && k.crv == "P-256" && |sig| == 64
        && exists x, y :: w.decode(k.x) == Some(x) && w.decode(k.y) == Some(y) && w.onCurve(x, y) && w.ecdsa(x, y, input, sig))
  }

  /** A token in three segments, with what its header and its payload decode to. */
  datatype Parts = Parts(h: string, c: string, s: string, header: Object, claims: Object)

  ghost predicate Read(w: V.World, token: string, t: Parts) {
    && '.' !in t.h && '.' !in t.c && '.' !in t.s && token == t.h + "." + t.c + "." + t.s
    && w.parse(t.h) == Some(t.header) && w.parse(t.c) == Some(t.claims) && "crit" !in t.header
  }

  /** Steps 1 to 5. */
  ghost predicate Signed(w: V.World, t: Parts) {
    exists alg, iss, kid, k, sig :: SignedWith(w, t, alg, iss, kid, k, sig)
  }

  ghost predicate SignedWith(w: V.World, t: Parts, alg: string, iss: string, kid: string, k: V.Jwk, sig: string) {
    && HasString(t.header, "alg", alg) && alg in {"EdDSA", "ES256"}
    && HasString(t.claims, "iss", iss) && iss != "" && w.trusted(iss)
    && HasString(t.header, "kid", kid) && w.keys(iss).Some? && k in w.keys(iss).value && NamedKey(k, kid, alg)
    && w.decode(t.s) == Some(sig) && SignatureVerifies(w, k, alg, t.h + "." + t.c, sig)
  }

  ghost predicate Dated(m: Object, now: int) {
    && (exists iat, exp :: HasInt(m, "iat", iat) && HasInt(m, "exp", exp)
                           && 0 <= iat <= now < exp <= 253402300799 && exp - iat <= 43200)
    && ("nbf" in m ==> exists nbf :: HasInt(m, "nbf", nbf) && nbf <= now)
  }

  /** Steps 6 to 8, for a verifier of majors 1 to `max`. */
  ghost predicate Claimed(m: Object, now: int, max: int) {
    exists cia ::
      HasInt(m, "cia", cia) && 1 <= cia <= max && Dated(m, now) && Members(m) && GradeAndOrigin(m, cia) && AudienceOrDirectory(m)
  }

  /** Steps 9 and 10. */
  ghost predicate Bound(m: Object, p: V.Params) {
    match p.mode
    case Local => "aud" !in m && "dir" in m && m["dir"].Str? && Clean(m["dir"].s) == Clean(p.observedDir)
    case Peer => HasString(m, "aud", p.peerId)
  }

  ghost predicate Meets(w: V.World, token: string, p: V.Params, t: Parts) {
    Read(w, token, t) && Signed(w, t) && Claimed(t.claims, p.now, if p.maxMajor == 0 then 2 else p.maxMajor) && Bound(t.claims, p)
  }

  lemma VerifiesWith(w: V.World, k: V.Jwk, alg: string, input: string, sig: string)
    ensures V.VerifySignature(w, k, alg, input, sig) <==> SignatureVerifies(w, k, alg, input, sig)
  {
  }

  lemma SplitReads(token: string)
    ensures |Split(token, '.')| == 3 ==>
              var parts := Split(token, '.');
              token == parts[0] + "." + parts[1] + "." + parts[2] && '.' !in parts[0] && '.' !in parts[1] && '.' !in parts[2]
  {
    hide Split;
    SplitHasNoSeparator(token, '.');
    if |Split(token, '.')| == 3 {
      var parts := Split(token, '.');
      var a := FirstPart(token);
      var rest := token[|a| + 1..];
      var b := FirstPart(rest);
      assert Split(rest, '.')[0] == parts[1] && |Split(rest, '.')| == 2;
      var last := rest[|b| + 1..];
      var c := FirstPart(last);
      assert Split(last, '.')[0] == Split(rest, '.')[1..][0] == parts[2] && |Split(last, '.')| == 1;
      assert token == a + "." + (b + "." + c);
    }
  }

  /** The first part of a split text, with what follows it. */
  lemma {:induction false} FirstPart(s: string) returns (a: string)
    ensures a == Split(s, '.')[0] && |a| <= |s|
    ensures |Split(s, '.')| == 1 ==> a == s
    ensures |Split(s, '.')| > 1 ==> |a| < |s| && s == a + "." + s[|a| + 1..] && Split(s[|a| + 1..], '.') == Split(s, '.')[1..]
    decreases |s|
  {
    if s == "" || s[0] == '.' {
      a := "";
    } else {
      var rest := FirstPart(s[1..]);
      a := [s[0]] + rest;
    }
  }

  lemma JoinedSplits(a: string, b: string, c: string)
    requires '.' !in a && '.' !in b && '.' !in c
    ensures Split(a + "." + b + "." + c, '.') == [a, b, c]
  {
    hide Split;
    SplitAt(a, '.', b + "." + c);
    SplitAt(b, '.', c);
    SplitOne(c, '.');
    assert a + "." + b + "." + c == a + ['.'] + (b + "." + c) && b + "." + c == b + ['.'] + c;
    assert [a] + ([b] + [c]) == [a, b, c];
  }

  /** The parts of a token as the verifier takes it apart. */
  function PartsOf(w: V.World, token: string): Parts {
    Parts(V.Part(token, 0), V.Part(token, 1), V.Part(token, 2), V.Header(w, token), V.ClaimSet(w, token))
  }

  lemma ReadsOneWay(w: V.World, token: string, t: Parts)
    ensures Read(w, token, t) <==> V.WellFormed(w, token) && t == PartsOf(w, token)
  {
    hide Split;
    SplitReads(token);
    if Read(w, token, t) { JoinedSplits(t.h, t.c, t.s); }
  }

  lemma SignedExactly(w: V.World, token: string)
    requires V.WellFormed(w, token)
    ensures Signed(w, PartsOf(w, token)) <==> V.AlgAllowed(w, token) && V.IssuerTrusted(w, token) && V.KeysAvailable(w, token) && V.Authentic(w, token)
  {
    hide Split, V.Part, V.VerifySignature, SignatureVerifies, NamedKey;
    var t := PartsOf(w, token);
    forall k, kid, alg ensures V.MaySign(k, kid, alg) <==> NamedKey(k, kid, alg) { KeysNamed(k, kid, alg); }
    forall k, alg, input, sig ensures V.VerifySignature(w, k, alg, input, sig) <==> SignatureVerifies(w, k, alg, input, sig) {
      VerifiesWith(w, k, alg, input, sig);
    }
    var alg, iss, kid := V.StringOf(t.header, "alg"), V.StringOf(t.claims, "iss"), V.StringOf(t.header, "kid");
    if V.AlgAllowed(w, token) && V.IssuerTrusted(w, token) && V.KeysAvailable(w, token) && V.Authentic(w, token) {
      var k :| V.Candidate(w, token, k) && V.SignedBy(w, token, k);
      KidIsNamed(k, kid, alg);
      assert SignedWith(w, t, alg, iss, kid, k, w.decode(t.s).value);
    }
    if Signed(w, t) {
      var alg', iss', kid', k, sig :| SignedWith(w, t, alg', iss', kid', k, sig);
      assert alg' == alg && iss' == iss && kid' == kid;
      assert V.Candidate(w, token, k) && V.SignedBy(w, token, k);
    }
  }

  lemma KidIsNamed(k: V.Jwk, kid: string, alg: string)
    ensures NamedKey(k, kid, alg) ==> kid != ""
  {
  }

  lemma KeysNamed(k: V.Jwk, kid: string, alg: string)
    ensures V.MaySign(k, kid, alg) <==> NamedKey(k, kid, alg)
  {
  }

  lemma ClaimedExactly(w: V.World, token: string, p: V.Params)
    ensures Claimed(V.ClaimSet(w, token), p.now, if p.maxMajor == 0 then 2 else p.maxMajor)
       <==> && V.VersionSupported(w, token, p) && V.DatesValid(w, token) && V.NotExpired(w, token, p)
            && V.AlreadyValid(w, token, p) && V.LifetimeCapped(w, token) && V.ShapeValid(w, token)
  {
    hide V.ClaimSet, ParseInt64, Members, GradeAndOrigin, AudienceOrDirectory, V.ClaimsShape;
    var m := V.ClaimSet(w, token);
    ShapeIsTheContracts(m, V.Date(w, token, "cia"));
    DatedExactly(w, token, p);
  }

  lemma DatedExactly(w: V.World, token: string, p: V.Params)
    ensures Dated(V.ClaimSet(w, token), p.now)
       <==> V.DatesValid(w, token) && V.NotExpired(w, token, p) && V.AlreadyValid(w, token, p) && V.LifetimeCapped(w, token)
  {
    hide V.ClaimSet, ParseInt64;
    var m := V.ClaimSet(w, token);
    assert forall name, n :: HasInt(m, name, n) <==> V.AsInt(V.Field(m, name)) == Some(n);
  }

  lemma BoundExactly(w: V.World, token: string, p: V.Params)
    requires AudienceOrDirectory(V.ClaimSet(w, token))
    ensures Bound(V.ClaimSet(w, token), p) <==> V.NoAudience(w, token, p) && V.DirectoryMatches(w, token, p) && V.AudienceIsUs(w, token, p)
  {
    hide V.ClaimSet, Clean;
  }

  /** The verifier accepts exactly the tokens that meet the contract. */
  lemma MeetsExactly(w: V.World, token: string, p: V.Params)
    ensures V.Accepts(w, token, p) <==> exists t :: Meets(w, token, p, t)
  {
    hide V.ClaimSet, Split, Signed, Claimed, Bound, Read, V.WellFormed, V.AlgAllowed, V.IssuerTrusted, V.KeysAvailable, V.HasKey, V.Authentic,
         V.VersionSupported, V.DatesValid, V.NotExpired, V.AlreadyValid, V.LifetimeCapped, V.ShapeValid, V.NoAudience, V.DirectoryMatches, V.AudienceIsUs;
    forall t ensures Read(w, token, t) <==> V.WellFormed(w, token) && t == PartsOf(w, token) { ReadsOneWay(w, token, t); }
    AllOf(w, token, p);
    if V.WellFormed(w, token) {
      SignedExactly(w, token);
      ClaimedExactly(w, token, p);
      var t := PartsOf(w, token);
      if Claimed(t.claims, p.now, if p.maxMajor == 0 then 2 else p.maxMajor) {
        ClaimedHasOne(t.claims, p.now, if p.maxMajor == 0 then 2 else p.maxMajor);
        BoundExactly(w, token, p);
      }
      if V.Accepts(w, token, p) { assert Meets(w, token, p, t); }
    }
  }

  lemma ClaimedHasOne(m: Object, now: int, max: int)
    requires Claimed(m, now, max)
    ensures AudienceOrDirectory(m)
  {
  }

  lemma AllOf(w: V.World, token: string, p: V.Params)
    ensures V.Accepts(w, token, p) <==>
      && V.WellFormed(w, token) && V.AlgAllowed(w, token) && V.IssuerTrusted(w, token) && V.KeysAvailable(w, token) && V.Authentic(w, token)
      && V.VersionSupported(w, token, p) && V.DatesValid(w, token) && V.NotExpired(w, token, p)
      && V.AlreadyValid(w, token, p) && V.LifetimeCapped(w, token) && V.ShapeValid(w, token)
      && V.NoAudience(w, token, p) && V.DirectoryMatches(w, token, p) && V.AudienceIsUs(w, token, p)
  {
    hide V.ClaimSet, V.WellFormed, V.AlgAllowed, V.IssuerTrusted, V.KeysAvailable, V.Candidate, V.SignedBy,
         V.VersionSupported, V.DatesValid, V.NotExpired, V.AlreadyValid, V.LifetimeCapped, V.ShapeValid, V.NoAudience, V.DirectoryMatches, V.AudienceIsUs;
    if V.Accepts(w, token, p) {
      assert V.Holds(w, token, p, 0) && V.Holds(w, token, p, 1) && V.Holds(w, token, p, 2) && V.Holds(w, token, p, 3) && V.Holds(w, token, p, 5);
      assert V.Holds(w, token, p, 6) && V.Holds(w, token, p, 7) && V.Holds(w, token, p, 8) && V.Holds(w, token, p, 9) && V.Holds(w, token, p, 10);
      assert V.Holds(w, token, p, 11) && V.Holds(w, token, p, 12) && V.Holds(w, token, p, 13) && V.Holds(w, token, p, 14);
    }
  }

  // -------------------------------------------------------------- the failure codes (section 4.1)

  /** What a failure code says of the token. */
  ghost predicate Says(code: V.Code, w: V.World, token: string, p: V.Params) {
    var t := PartsOf(w, token);
    match code
    case Malformed => forall u :: !Read(w, token, u)
    case AlgNotAllowed => forall alg :: HasString(t.header, "alg", alg) ==> alg != "EdDSA" && alg != "ES256"
    case IssuerUntrusted => forall iss :: HasString(t.claims, "iss", iss) ==> iss == "" || !w.trusted(iss)
    case JwksUnavailable => exists iss :: HasString(t.claims, "iss", iss) && w.keys(iss).None?
    case KeyNotFound =>
      forall iss, kid, alg, k :: HasString(t.claims, "iss", iss) && HasString(t.header, "kid", kid) && HasString(t.header, "alg", alg)
        && w.keys(iss).Some? && k in w.keys(iss).value
        ==> !NamedKey(k, kid, alg)
    case SignatureInvalid => !Signed(w, t)
    case VersionUnsupported => forall cia :: HasInt(t.claims, "cia", cia) ==> cia < 1 || cia > if p.maxMajor == 0 then 2 else p.maxMajor
    case Expired => exists exp :: HasInt(t.claims, "exp", exp) && exp <= p.now
    case NotYetValid => (exists iat :: HasInt(t.claims, "iat", iat) && p.now < iat) || exists nbf :: HasInt(t.claims, "nbf", nbf) && p.now < nbf
    case TtlExceeded => exists iat, exp :: HasInt(t.claims, "iat", iat) && HasInt(t.claims, "exp", exp) && exp - iat > 43200
    case ClaimsInvalid =>
      || (forall iat :: HasInt(t.claims, "iat", iat) ==> iat < 0 || iat > 253402300799)
      || (forall exp :: HasInt(t.claims, "exp", exp) ==> exp < 0 || exp > 253402300799)
      || ("nbf" in t.claims && forall nbf :: !HasInt(t.claims, "nbf", nbf))
      || (exists cia :: HasInt(t.claims, "cia", cia) && !(Members(t.claims) && GradeAndOrigin(t.claims, cia) && AudienceOrDirectory(t.claims)))
    case AudienceUnexpected => p.mode.Local? && "aud" in t.claims
    case AudienceMismatch => p.mode.Peer? && !HasString(t.claims, "aud", p.peerId)
    case DirMismatch => p.mode.Local? && forall d :: HasString(t.claims, "dir", d) ==> Clean(d) != Clean(p.observedDir)
  }

  lemma NoKeyNamed(w: V.World, token: string, p: V.Params)
    requires !V.HasKey(w, token)
    ensures Says(V.KeyNotFound, w, token, p)
  {
    hide Split, V.Part, V.Header, V.ClaimSet, NamedKey;
    var t := PartsOf(w, token);
    forall iss, kid, alg, k | HasString(t.claims, "iss", iss) && HasString(t.header, "kid", kid) && HasString(t.header, "alg", alg)
                              && w.keys(iss).Some? && k in w.keys(iss).value
      ensures !NamedKey(k, kid, alg)
    {
      assert !V.Candidate(w, token, k);
      KeysNamed(k, kid, alg);
    }
  }

  lemma EarlyCodesMean(w: V.World, token: string, p: V.Params, k: int)
    requires V.FailsFirstAt(w, token, p, k) && k < 6
    ensures Says(V.CodeOf(k), w, token, p)
  {
    hide Split, V.Part, V.VerifySignature, SignatureVerifies, NamedKey, ParseInt64;
    forall k, kid, alg ensures V.MaySign(k, kid, alg) <==> NamedKey(k, kid, alg) { KeysNamed(k, kid, alg); }
    assert forall j :: 0 <= j < k ==> V.Holds(w, token, p, j);
    if k == 0 { forall t ensures !Read(w, token, t) { ReadsOneWay(w, token, t); } }
    assert k > 0 ==> V.Holds(w, token, p, 0) && V.WellFormed(w, token);
    assert k > 2 ==> V.Holds(w, token, p, 2) && V.IssuerTrusted(w, token);
    if k == 4 { NoKeyNamed(w, token, p); }
    if k == 5 { SignedExactly(w, token); }
  }

  lemma DateCodesMean(w: V.World, token: string, p: V.Params, k: int)
    requires V.FailsFirstAt(w, token, p, k) && 6 <= k < 11
    ensures Says(V.CodeOf(k), w, token, p)
  {
    hide Split, V.ClaimSet, ParseInt64, Members, GradeAndOrigin, AudienceOrDirectory, V.ClaimsShape, Clean, Signed, Read;
    var m := V.ClaimSet(w, token);
    assert forall name, n :: HasInt(m, name, n) <==> V.AsInt(V.Field(m, name)) == Some(n);
    assert !V.Holds(w, token, p, k);
    if k > 7 {
      assert V.Holds(w, token, p, 7) && V.DatesValid(w, token);
      var t := PartsOf(w, token);
      var iat, exp, nbf := V.Date(w, token, "iat"), V.Date(w, token, "exp"), V.Date(w, token, "nbf");
      assert HasInt(t.claims, "iat", iat) && HasInt(t.claims, "exp", exp);
      if k == 9 && iat <= p.now {
        assert !V.AlreadyValid(w, token, p);
        assert HasInt(t.claims, "nbf", nbf) && p.now < nbf;
      }
      assert k == 8 ==> Says(V.Expired, w, token, p);
      assert k == 9 ==> Says(V.NotYetValid, w, token, p);
      assert k == 10 ==> Says(V.TtlExceeded, w, token, p);
    }
  }

  lemma ShapeCodesMean(w: V.World, token: string, p: V.Params, k: int)
    requires V.FailsFirstAt(w, token, p, k) && 11 <= k
    ensures Says(V.CodeOf(k), w, token, p)
  {
    hide Split, V.ClaimSet, ParseInt64, Members, GradeAndOrigin, AudienceOrDirectory, V.ClaimsShape, Clean, Signed, Read;
    var m := V.ClaimSet(w, token);
    assert !V.Holds(w, token, p, k);
    assert V.Holds(w, token, p, 6) && V.VersionSupported(w, token, p);
    ShapeIsTheContracts(m, V.Date(w, token, "cia"));
    if k == 11 {
      assert HasInt(m, "cia", V.Date(w, token, "cia"));
    } else {
      assert V.Holds(w, token, p, 11) && V.ShapeValid(w, token);
    }
  }

  lemma FailsWithin(w: V.World, token: string, p: V.Params, k: int)
    requires V.FailsFirstAt(w, token, p, k)
    ensures 0 <= k < V.STEPS
  {
  }

  /** A refusal names the earliest step that fails by a code that says what is wrong with the token. */
  lemma RefusalsMean(w: V.World, token: string, p: V.Params, k: int)
    requires V.FailsFirstAt(w, token, p, k)
    ensures Says(V.CodeOf(k), w, token, p)
  {
    hide V.FailsFirstAt, Says;
    assert 0 <= k < V.STEPS by { FailsWithin(w, token, p, k); }
    if k < 6 {
      EarlyCodesMean(w, token, p, k);
    } else if k < 11 {
      DateCodesMean(w, token, p, k);
    } else {
      ShapeCodesMean(w, token, p, k);
    }
  }

  /** When every key under a token's kid is for something else, or for another alg, no token is accepted. */
  lemma UnusableKeysRefuse(w: V.World, token: string, p: V.Params)
    requires var header, claims := V.Header(w, token), V.ClaimSet(w, token);
             forall iss, kid, alg, k: V.Jwk ::
               HasString(claims, "iss", iss) && HasString(header, "kid", kid) && HasString(header, "alg", alg)
               && w.keys(iss).Some? && k in w.keys(iss).value && k.kid == kid
               ==> k.usage !in {"", "sig"} || k.alg !in {"", alg}
    ensures !V.Accepts(w, token, p)
  {
    hide V.Header, V.ClaimSet, Claimed, Bound, Read, SignatureVerifies, V.Accepts;
    MeetsExactly(w, token, p);
    if t :| Meets(w, token, p, t) {
      ReadsOneWay(w, token, t);
    }
  }

  /** What is returned for an accepted token: its issuer, its outermost actor, its roles in order, its grade. */
  lemma AcceptedSays(w: V.World, token: string, p: V.Params, t: Parts)
    requires Meets(w, token, p, t)
    ensures var m, r := t.claims, V.Says(t.claims);
            && HasString(m, "iss", r.iss) && HasString(m, "grade", r.grade)
            && (if "act" in m then m["act"].Obj? && HasString(m["act"].members, "sub", r.actor) else HasString(m, "sub", r.actor))
            && "roles" in m && m["roles"].Arr? && |r.roles| == |m["roles"].items|
            && forall i :: 0 <= i < |r.roles| ==> m["roles"].items[i] == Str(r.roles[i])
  {
    hide ParseInt64, ActorString, Signed, Read, Bound, Dated, AudienceOrDirectory, Matches;
  }
}
