/** The issuer and the verifier, written apart, agree: which of the issuer's tokens the verifier
    accepts, and as what. */
module Acceptance {
  import opened Text
  import opened Decimal
  import opened Json
  import opened Names
  import opened Paths
  import opened Claims
  import opened Tokens
  import opened Delegation
  import N = Narrowing
  import D = SpawnDirs
  import V = Verifier
  import R = Registry

  // -------------------------------------------------------------- the claims have the contract's shape

  lemma {:induction false} ActorJsonIsValid(a: Actor)
    requires forall k :: 0 <= k < |Subjects(Some(a))| ==> ActorSub(Subjects(Some(a))[k])
    ensures V.ValidActorChain(ActorJson(a))
    decreases a
  {
    hide ActorSub;
    assert Subjects(Some(a))[0] == a.sub;
    if a.act.Some? {
      var inner := a.act.value;
      assert Subjects(Some(a))[1..] == Subjects(Some(inner));
      assert forall k :: 0 <= k < |Subjects(Some(inner))| ==> Subjects(Some(inner))[k] == Subjects(Some(a))[k + 1];
      ActorJsonIsValid(inner);
      assert ActorJson(a) == Obj(map["sub" := Str(a.sub), "act" := ActorJson(inner)]);
    }
  }

  /** Every level of an issued chain is an agent or a runtime. */
  lemma {:induction false} ActorsAreActors(cfg: Config, log: seq<Issuance>, i: nat)
    requires History(cfg, log) && i < |log|
    ensures ActorOf(log[i].claims.sub, "runtime")
    ensures forall k :: 0 <= k < |Subjects(log[i].claims.act)| ==> ActorSub(Subjects(log[i].claims.act)[k])
    decreases i
  {
    hide D.RandomId, DeliveryDir, N.Kept, N.ReportOf, Name, Version, HasPrefix;
    assert EntryAt(cfg, log, i);
    var c := log[i].claims;
    if log[i].definition.Some? { PrefixedName("agent", log[i].definition.value.name); }
    match log[i].parent {
      case None =>
        PrefixedName("runtime", c.rt.id);
        assert Subjects(c.act) == [c.act.value.sub] + Subjects(None);
        assert c.sub == "runtime" + ":" + c.rt.id;
        assert log[i].definition.Some? ==> c.act.value.sub == "agent" + ":" + log[i].definition.value.name;
      case Some(p) =>
        ActorsAreActors(cfg, log, p);
        assert Subjects(c.act) == [c.act.value.sub] + Subjects(log[p].claims.act);
        assert c.act.value.sub == "agent" + ":" + log[i].definition.value.name;
        assert forall k :: 1 <= k < |Subjects(c.act)| ==> Subjects(c.act)[k] == Subjects(log[p].claims.act)[k - 1];
    }
  }

  lemma SubsequenceIsDistinct(sub: seq<string>, want: seq<string>, at: seq<nat>)
    requires N.Embeds(sub, want, at) && Distinct(want)
    ensures Distinct(sub)
  {
  }

  /** The roles of an issued assertion are role names; they are distinct unless they are the runtime
      roles as configured. */
  lemma RolesAreDistinct(cfg: Config, log: seq<Issuance>, i: nat)
    requires ValidConfig(cfg) && History(cfg, log) && i < |log|
    ensures AllRoleNames(log[i].claims.roles)
    ensures Distinct(log[i].claims.roles) <==> (log[i].definition.Some? || Distinct(cfg.runtimeRoles))
  {
    hide D.RandomId, DeliveryDir, N.ReportOf, Name, Version, HasPrefix, Distinct, N.Kept, RoleName;
    assert EntryAt(cfg, log, i);
    if log[i].parent.Some? {
      var want := log[i].definition.value.roles;
      var policies := Policies(cfg, log[log[i].parent.value].claims.roles);
      var at := N.KeptKeepsOrder(want, policies);
      SubsequenceIsDistinct(N.Kept(want, policies), want, at);
      forall k | 0 <= k < |log[i].claims.roles| ensures RoleName(log[i].claims.roles[k]) {
        assert want[at[k]] == log[i].claims.roles[k];
      }
    }
  }

  lemma RolesShapeIs(roles: seq<string>)
    requires AllRoleNames(roles)
    ensures V.RolesShape(Some(RolesJson(roles))) <==> Distinct(roles)
  {
    hide RoleName;
    var items := RolesJson(roles).items;
    assert forall k :: 0 <= k < |items| ==> items[k] == Str(roles[k]);
    if !Distinct(roles) {
      var a, b :| 0 <= a < b < |roles| && roles[a] == roles[b];
      assert items[a] == items[b];
    }
  }

  lemma ActorPrefix(sub: string)
    requires ActorOf(sub, "runtime")
    ensures !HasPrefix(sub, "human:")
  {
    assert forall s: string :: HasPrefix(s, "human:") ==> s[..6] == "human:" && s[0] == s[..6][0];
    assert "runtime" + ":" == "runtime:";
    assert sub[0] == sub[..8][0];
  }

  lemma RequiredArePresent(c: Claims)
    ensures V.AllRequired(Payload(c))
  {
    hide Payload, RolesJson, Itoa, ActorJson;
    PayloadTexts(c);
    PayloadOthers(c);
  }

  /** The required claims are present and well formed in a payload. */
  lemma BasicShape(cfg: Config, log: seq<Issuance>, i: nat)
    requires ValidConfig(cfg) && cfg.iss != "" && History(cfg, log) && i < |log|
    ensures var m := Payload(log[i].claims);
            && V.AllRequired(m)
            && V.NonEmpty(V.Field(m, "iss")) && V.NonEmpty(V.Field(m, "sid")) && V.NonEmpty(V.Field(m, "jti"))
            && V.SubShape(m) && V.GradeShape(m)
  {
    hide DeliveryDir, N.ReportOf, Name, Version, HasPrefix, Distinct, N.Kept, Payload, ActorOf, RolesJson, Itoa, V.AllRequired, ActorJson,
         D.CreatedName, ContractFor;
    var c := log[i].claims;
    assert EntryAt(cfg, log, i);
    RequiredArePresent(c);
    PayloadTexts(c);
    ActorsAreActors(cfg, log, i);
  }

  lemma RuntimeShapeHolds(cfg: Config, log: seq<Issuance>, i: nat)
    requires History(cfg, log) && i < |log|
    ensures log[i].claims.rt.id != "" && log[i].claims.rt.version != ""
    ensures V.RuntimeShape(Payload(log[i].claims))
    decreases i
  {
    RuntimeIsNamed(cfg, log, i);
    hide Payload, ActorJson, RolesJson, Itoa, History;
    PayloadOthers(log[i].claims);
  }

  lemma {:induction false} RuntimeIsNamed(cfg: Config, log: seq<Issuance>, i: nat)
    requires History(cfg, log) && i < |log|
    ensures log[i].claims.rt.id != "" && log[i].claims.rt.version != ""
    decreases i
  {
    hide DeliveryDir, N.ReportOf, N.Kept, D.RandomId;
    assert EntryAt(cfg, log, i);
    if log[i].parent.Some? { RuntimeIsNamed(cfg, log, log[i].parent.value); }
  }

  lemma OriginAndBinding(cfg: Config, log: seq<Issuance>, i: nat)
    requires ValidConfig(cfg) && History(cfg, log) && i < |log|
    ensures var m := Payload(log[i].claims);
            V.OriginShape(m, log[i].claims.cia) && V.BindingShape(m) && V.OptionalShapes(m)
  {
    hide N.ReportOf, Name, Version, HasPrefix, Distinct, N.Kept, Payload, ActorOf, RolesJson, Itoa, ActorJson, V.ValidActorChain, D.RandomId, Subjects, DeliveryDir;
    var c := log[i].claims;
    assert EntryAt(cfg, log, i);
    PayloadTexts(c);
    PayloadOthers(c);
    ActorsAreActors(cfg, log, i);
    ActorPrefix(c.sub);
    ActorJsonIsValid(c.act.value);
    DirIsAbsolute(cfg, D.CreatedName(c.iat, log[i].dirId));
    assert c.spawn != "" || log[i].parent.None? by { SpawnIsNamed(cfg, log, i); }
  }

  lemma SpawnIsNamed(cfg: Config, log: seq<Issuance>, i: nat)
    requires History(cfg, log) && i < |log|
    ensures log[i].parent.None? || log[i].claims.spawn != ""
  {
    hide N.ReportOf, N.Kept, DeliveryDir, D.RandomId;
    assert EntryAt(cfg, log, i);
  }

  lemma DirIsAbsolute(cfg: Config, name: string)
    requires ValidConfig(cfg)
    ensures HasPrefix(DeliveryDir(cfg.root, name), "/")
  {
    assert (cfg.root + "/" + name)[0] == '/';
  }

  /** A payload has the contract's shape exactly when its roles are distinct. */
  lemma ShapeHolds(cfg: Config, log: seq<Issuance>, i: nat)
    requires ValidConfig(cfg) && cfg.iss != "" && History(cfg, log) && i < |log|
    ensures V.ClaimsShape(Payload(log[i].claims), log[i].claims.cia) <==> (log[i].definition.Some? || Distinct(cfg.runtimeRoles))
  {
    hide Payload, V.AllRequired, V.NonEmpty, V.SubShape, V.GradeShape, V.OriginShape, V.BindingShape, V.OptionalShapes, V.RuntimeShape,
         V.RolesShape, RolesJson, History, Distinct, AllRoleNames, ValidConfig;
    BasicShape(cfg, log, i);
    RuntimeShapeHolds(cfg, log, i);
    OriginAndBinding(cfg, log, i);
    RolesAreDistinct(cfg, log, i);
    RolesShapeIs(log[i].claims.roles);
    PayloadOthers(log[i].claims);
  }

  // -------------------------------------------------------------- the steps hold

  /** The public half of an issuer's key. */
  datatype PublicKey = Ed(x: string) | Ec(x: string, y: string)

  /** How it is published, and the header of what it signs. */
  function Published(key: PublicKey, kid: string): V.Jwk {
    match key
    case Ed(x) => V.Jwk("OKP", "Ed25519", kid, "EdDSA", "sig", x, "")
    case Ec(x, y) => V.Jwk("EC", "P-256", kid, "ES256", "sig", x, y)
  }

  function HeaderOf(key: PublicKey, kid: string): Object {
    map["alg" := Str(if key.Ed? then "EdDSA" else "ES256"), "kid" := Str(kid)]
  }

  /** `sig` is the key's signature over `input`. */
  ghost predicate SignatureOf(w: V.World, key: PublicKey, input: string, sig: string) {
    match key
    case Ed(x) => w.decode(x).Some? && |w.decode(x).value| == 32 && w.ed25519(w.decode(x).value, input, sig)
    case Ec(x, y) =>
      && w.decode(x).Some? && w.decode(y).Some? && w.onCurve(w.decode(x).value, w.decode(y).value)
      && |sig| == 64 && w.ecdsa(w.decode(x).value, w.decode(y).value, input, sig)
  }

  /** The verifier reads segments as the issuer writes them, trusts the issuer and has its key set, among
      any other keys; the key verifies the signature over `input`. */
  ghost predicate Publishes(w: V.World, codec: Codec, cfg: Config, key: PublicKey, kid: string, input: string) {
    && Faithful(codec) && w.parse == codec.parse && w.decode == codec.decode
    && cfg.iss != "" && w.trusted(cfg.iss) && w.keys(cfg.iss).Some? && Published(key, kid) in w.keys(cfg.iss).value && kid != ""
    && codec.decode(codec.seal(input)).Some? && SignatureOf(w, key, input, codec.decode(codec.seal(input)).value)
  }

  lemma TokenIsRead(w: V.World, codec: Codec, s: Signed)
    requires Faithful(codec) && w.parse == codec.parse && w.decode == codec.decode
    ensures var t := Token(codec, s);
            && |Split(t, '.')| == 3 && w.parse(V.Part(t, 0)).Some? && w.parse(V.Part(t, 1)).Some?
            && V.Header(w, t) == s.header && V.ClaimSet(w, t) == Payload(s.claims)
            && V.Part(t, 0) + "." + V.Part(t, 1) == Input(codec, s) && V.Part(t, 2) == codec.seal(Input(codec, s))
  {
    TokenParts(codec, s);
    hide Split, Payload, UrlText, Token;
  }

  lemma PublishedVerifies(w: V.World, codec: Codec, cfg: Config, key: PublicKey, kid: string, input: string)
    requires Publishes(w, codec, cfg, key, kid, input)
    ensures V.StringOf(HeaderOf(key, kid), "alg") == (if key.Ed? then "EdDSA" else "ES256") && V.StringOf(HeaderOf(key, kid), "kid") == kid
    ensures "crit" !in HeaderOf(key, kid)
    ensures V.MaySign(Published(key, kid), kid, if key.Ed? then "EdDSA" else "ES256")
    ensures V.VerifySignature(w, Published(key, kid), if key.Ed? then "EdDSA" else "ES256", input, codec.decode(codec.seal(input)).value)
  {
  }

  lemma EarlySteps(w: V.World, codec: Codec, cfg: Config, s: Signed, key: PublicKey, kid: string, p: V.Params)
    requires s.header == HeaderOf(key, kid)
    requires Publishes(w, codec, cfg, key, kid, Input(codec, s)) && s.claims.iss == cfg.iss
    ensures V.HoldsBefore(w, Token(codec, s), p, 6)
  {
    hide Split, Payload, UrlText, Token, Input, V.MaySign, V.VerifySignature, Faithful, HeaderOf, Published;
    PublishedVerifies(w, codec, cfg, key, kid, Input(codec, s));
    TokenIsRead(w, codec, s);
    PayloadTexts(s.claims);
    var k := Published(key, kid);
    var t := Token(codec, s);
    assert V.WellFormed(w, t) && V.AlgAllowed(w, t) && V.IssuerTrusted(w, t) && V.KeysAvailable(w, t);
    assert V.Candidate(w, t, k) && V.SignedBy(w, t, k);
  }

  lemma ReadDate(m: Object, name: string, n: int)
    requires name in m && m[name] == Num(Itoa(n)) && Int64(n)
    ensures V.AsInt(V.Field(m, name)) == Some(n)
  {
    ItoaReads(n);
  }

  /** The date steps hold exactly from iat up to but excluding exp. */
  lemma DateSteps(w: V.World, codec: Codec, s: Signed, p: V.Params)
    requires Faithful(codec) && w.parse == codec.parse && w.decode == codec.decode
    requires 0 <= s.claims.iat < s.claims.exp <= s.claims.iat + MAX_LIFETIME_SECONDS && s.claims.exp <= V.MAX_NUMERIC_DATE
    requires 1 <= s.claims.cia <= V.MaxMajor(p) && s.claims.cia <= 2
    ensures (forall k :: 6 <= k < 11 ==> V.Holds(w, Token(codec, s), p, k)) <==> s.claims.iat <= p.now < s.claims.exp
    ensures V.Date(w, Token(codec, s), "cia") == s.claims.cia
  {
    hide Split, Payload, UrlText, Token, Input, Itoa, ParseInt64, Faithful, V.AsInt, V.Field;
    TokenIsRead(w, codec, s);
    PayloadOthers(s.claims);
    var m := Payload(s.claims);
    ReadDate(m, "iat", s.claims.iat);
    ReadDate(m, "exp", s.claims.exp);
    ReadDate(m, "cia", s.claims.cia);
    var t := Token(codec, s);
    assert V.VersionSupported(w, t, p) && V.DatesValid(w, t) && V.LifetimeCapped(w, t);
    assert V.Holds(w, t, p, 8) <==> p.now < s.claims.exp;
    assert V.Holds(w, t, p, 9) <==> s.claims.iat <= p.now;
  }

  lemma LateSteps(w: V.World, codec: Codec, s: Signed, p: V.Params)
    requires Faithful(codec) && w.parse == codec.parse && w.decode == codec.decode
    requires p.mode.Local? && p.observedDir == s.claims.dir
    ensures forall k :: 12 <= k < V.STEPS ==> V.Holds(w, Token(codec, s), p, k)
  {
    hide Split, Payload, UrlText, Token, Input, Itoa, Faithful, Clean;
    TokenIsRead(w, codec, s);
    PayloadOthers(s.claims);
    PayloadTexts(s.claims);
  }

  /** A verifier that reads and trusts an issuer and has its published key, of either algorithm, accepts a token the issuer returned,
      in the directory it was delivered to, exactly from its iat up to but excluding its exp, provided
      the runtime roles are free of duplicates where the session names no definition. It reads the
      same actor, grade and role list. */
  lemma IssuedTokensAreAccepted(w: V.World, codec: Codec, cfg: Config, key: PublicKey, kid: string, log: seq<Issuance>, i: nat, p: V.Params)
    requires ValidConfig(cfg) && History(cfg, log) && i < |log|
    requires Publishes(w, codec, cfg, key, kid, Input(codec, Signed(HeaderOf(key, kid), log[i].claims)))
    requires p.mode.Local? && p.observedDir == log[i].claims.dir && log[i].claims.cia <= V.MaxMajor(p)
    requires 0 <= log[i].claims.iat && log[i].claims.exp <= V.MAX_NUMERIC_DATE
    ensures var t := Token(codec, Signed(HeaderOf(key, kid), log[i].claims));
            V.Accepts(w, t, p) <==>
              && log[i].claims.iat <= p.now < log[i].claims.exp
              && (log[i].definition.Some? || Distinct(cfg.runtimeRoles))
    ensures var c := log[i].claims;
            c.act.Some? && V.Says(V.ClaimSet(w, Token(codec, Signed(HeaderOf(key, kid), c)))) == V.Verified(c.iss, c.act.value.sub, c.roles, c.grade)
  {
    hide Payload, UrlText, Token, Input, Faithful, V.ClaimsShape, History, ValidConfig, V.Says, V.ClaimSet, Distinct, HeaderOf;
    var s := Signed(HeaderOf(key, kid), log[i].claims);
    var t := Token(codec, s);
    EntryFacts(cfg, log, i);
    Lifetimes(cfg, log, i, i);
    MajorTwoIsDriven(cfg, log, i);
    EarlySteps(w, codec, cfg, s, key, kid, p);
    DateSteps(w, codec, s, p);
    LateSteps(w, codec, s, p);
    ShapeHolds(cfg, log, i);
    TokenIsRead(w, codec, s);
    assert V.Holds(w, t, p, 11) <==> V.ClaimsShape(Payload(log[i].claims), log[i].claims.cia);
    AllSteps(w, t, p);
    SaysTheClaims(s.claims);
  }

  lemma EntryFacts(cfg: Config, log: seq<Issuance>, i: nat)
    requires History(cfg, log) && i < |log|
    ensures log[i].claims.iss == cfg.iss && log[i].claims.act.Some? && 1 <= log[i].claims.cia <= 2
  {
    hide N.ReportOf, N.Kept, DeliveryDir, D.RandomId, Name, Version;
    assert EntryAt(cfg, log, i);
  }

  lemma AllSteps(w: V.World, t: string, p: V.Params)
    requires V.HoldsBefore(w, t, p, 6) && forall k :: 12 <= k < V.STEPS ==> V.Holds(w, t, p, k)
    ensures V.Accepts(w, t, p) <==> (forall k :: 6 <= k < 11 ==> V.Holds(w, t, p, k)) && V.Holds(w, t, p, 11)
  {
    hide V.Holds;
  }

  lemma SaysTheClaims(c: Claims)
    requires c.act.Some?
    ensures V.Says(Payload(c)) == V.Verified(c.iss, c.act.value.sub, c.roles, c.grade)
  {
    hide Payload, Itoa;
    PayloadTexts(c);
    PayloadOthers(c);
    assert V.RoleTexts(RolesJson(c.roles).items) == c.roles;
    assert ActorJson(c.act.value).Obj? && V.StringOf(ActorJson(c.act.value).members, "sub") == c.act.value.sub;
  }

  /** Runtime roles may be configured with a duplicate, and then a session that names no definition is
      issued with a role list the contract does not allow. */
  lemma DuplicateRuntimeRoles() returns (cfg: Config, x: Issuance)
    ensures ValidConfig(cfg) && History(cfg, [x]) && cfg.iss != "" && x.claims.roles == ["a", "a"]
    ensures !V.ClaimsShape(Payload(x.claims), x.claims.cia)
  {
    hide Clean, D.CreatedName, V.ClaimsShape, Payload;
    var id := D.Zeros(32);
    cfg := Config("i", ["a", "a"], None, 60 * SECOND, 0, "/");
    var c := Claims("i", "runtime:r", Some(Actor("runtime:r", None)), ["a", "a"], "workload", Runtime("r", "v"), "s", "", "loop",
                    DeliveryDir("/", D.CreatedName(0, id)), 0, 60, id, 1);
    x := Issuance(c, R.IssuedTo(0, 0, 0, 0, 0, 60), None, None, 0, id, None);
    RootIsClean();
    assert EntryAt(cfg, [x], 0);
    ShapeHolds(cfg, [x], 0);
    assert cfg.runtimeRoles[0] == cfg.runtimeRoles[1];
  }

  lemma RootIsClean()
    ensures Clean("/") == "/"
  {
    assert Split("/"[1..], '/') == [""] && "/"[1..] == "";
    assert Split("/", '/') == ["", ""];
    assert ["", ""][1..] == [""] && [""][1..] == [];
    assert Resolve([""], true, []) == [];
  }
}
