/** The issuer: sessions and children over an unbounded run of requests, with a registry that
    prunes itself. The clock, the outcome of binding the peer to its runtime, the definition files,
    random ids and the outcome of signing and publishing come with each request. */
module Issuer {
  import opened Text
  import opened Decimal
  import opened Json
  import opened Names
  import opened Paths
  import opened Claims
  import opened Tokens
  import opened Narrowing
  import opened Delegation
  import opened SpawnDirs
  import R = Registry
  import B = Binding

  datatype Code =
    | PeerUidRefused | PeerUnattested | RuntimeUnbound | RuntimeMismatch | BadRequest | OriginForbidden
    | DefinitionUnknown | ParentInvalid | ParentExpired | ParentUnknown | UidMismatch | PidMismatch
    | ExeMismatch | LifetimeEmpty | SpawnDirFailed | Internal

  datatype SessionRequest = SessionRequest(runtime: Option<Runtime>, origin: string, definition: string)

  datatype ChildRequest = ChildRequest(parentToken: string, agentType: string, agentId: string)

  /** A definition file as parsed: the name it declares and the roles it lists. */
  datatype Frontmatter = Frontmatter(name: string, roles: seq<string>)

  /** What a request meets: the clock in nanoseconds, the runtime bound, the definition files, the
      random ids drawn, whether the directory could be made, and whether signing, publishing and, if
      it comes to that, discarding the directory succeed. */
  datatype Env = Env(now: int, bound: Result<B.Link, B.Refusal>, files: string -> Option<Frontmatter>,
                     jti: Option<string>, sid: Option<string>, dirId: Option<string>,
                     made: bool, signs: bool, published: bool, discarded: bool)

  datatype Issued = Issued(token: string, dir: string, expiresAt: int, subject: string, actor: string, grade: string,
                           roles: seq<string>, narrowed: Option<Report>)

  // -------------------------------------------------------------- definitions

  function DefinitionOf(files: string -> Option<Frontmatter>, name: string): Option<Definition> {
    if !Name(name) || files(name).None? then None
    else
      var f := files(name).value;
      if f.name != name || !AllRoleNames(f.roles) then None else Some(Definition(name, FirstOf(f.roles)))
  }

  method Load(files: string -> Option<Frontmatter>, name: string) returns (d: Option<Definition>)
    ensures d == DefinitionOf(files, name)
    ensures d.Some? ==> ValidDefinition(d.value) && d.value.name == name
  {
    hide Name, AllRoleNames, FirstOf, Distinct;
    if !Name(name) { return None; }
    var f := files(name);
    if f.None? || f.value.name != name { return None; }
    var roles := DefinitionRoles(f.value.roles);
    if roles.None? { return None; }
    return Some(Definition(name, roles.value));
  }

  // -------------------------------------------------------------- what finishing a request takes

  /** Claims as far as the caller of finish has filled them in, the time they end in nanoseconds, and
      the report of how they were narrowed. */
  datatype Draft = Draft(claims: Claims, exp: int, report: Option<Report>)

  /** The log entry and the definition a draft comes from. */
  datatype Source = Source(parent: Option<nat>, definition: Option<Definition>)

  function Or(o: Option<string>, default: string): string {
    if o.Some? then o.value else default
  }

  function NameIn(env: Env): string {
    CreatedName(Unix(env.now), Or(env.dirId, Zeros(32)))
  }

  /** The claims that finish signs. */
  function Final(cfg: Config, env: Env, d: Draft): Claims {
    d.claims.(sid := if d.claims.sid == "" then "s-" + Or(env.sid, "") else d.claims.sid,
              iat := Unix(env.now), exp := Unix(d.exp), jti := Or(env.jti, ""), cia := ContractFor(d.claims.orig),
              dir := DeliveryDir(cfg.root, NameIn(env)))
  }

  function HolderOf(peer: B.Peer, bound: B.Link, exp: int): R.IssuedTo {
    R.IssuedTo(peer.uid, bound.pid, bound.info.start, bound.info.dev, bound.info.ino, exp)
  }

  function Entry(cfg: Config, peer: B.Peer, bound: B.Link, env: Env, d: Draft, o: Source): Issuance {
    var c := Final(cfg, env, d);
    Issuance(c, HolderOf(peer, bound, c.exp), o.parent, o.definition, env.now, Or(env.dirId, ""), d.report)
  }

  const FINISH_STEPS := 5

  /** Whether step `k` of finish succeeds, with these directory names taken. */
  ghost predicate Finishes(env: Env, d: Draft, taken: set<string>, k: int) {
    match k
    case 0 => Unix(env.now) < Unix(d.exp)
    case 1 => env.jti.Some? && (d.claims.sid == "" ==> env.sid.Some?)
    case 2 => d.claims.orig == ORIGIN_DRIVEN ==> d.claims.grade == "workload" && !NamesHuman(d.claims.sub) && !SomeHuman(d.claims.act)
    case 3 => env.dirId.Some? && env.made && NameIn(env) !in taken
    case 4 => env.signs && env.published
    case _ => true
  }

  function FinishCode(k: int): Code {
    match k
    case 0 => LifetimeEmpty
    case 3 => SpawnDirFailed
    case _ => Internal
  }

  ghost predicate FinishesBefore(env: Env, d: Draft, taken: set<string>, n: int) {
    forall k :: 0 <= k < n ==> Finishes(env, d, taken, k)
  }

  // -------------------------------------------------------------- what a session takes

  const SESSION_STEPS := 9

  function ProcOf(env: Env): B.ProcInfo {
    if env.bound.Ok? then env.bound.value.info else B.ProcInfo("", [], 0, 0, 0, 0, 0, false)
  }

  ghost function RuntimeIn(env: Env): string {
    Or(RuntimeIdOf(ProcOf(env).exe, ProcOf(env).args), "")
  }

  predicate KnownOrigin(origin: string) {
    origin == "human" || SessionOrigin(origin)
  }

  /** Whether check `k` of a session request passes. */
  ghost predicate SessionPasses(cfg: Config, peer: B.Peer, req: SessionRequest, env: Env, k: int) {
    match k
    case 0 => peer.uid == cfg.uid
    case 1 => env.bound != Err(B.PeerUnattested)
    case 2 => env.bound != Err(B.RuntimeUnbound)
    case 3 => RuntimeIdOf(ProcOf(env).exe, ProcOf(env).args).Some?
    case 4 => req.runtime.Some? && req.runtime.value.id != "" ==> req.runtime.value.id == RuntimeIn(env)
    case 5 => req.runtime.Some? && req.runtime.value.version != "" ==> Version(req.runtime.value.version)
    case 6 => req.origin == "" || KnownOrigin(req.origin)
    case 7 => req.origin != "human"
    case 8 => req.definition == "" || DefinitionOf(env.files, req.definition).Some?
    case _ => true
  }

  function SessionCode(k: int): Code {
    match k
    case 0 => PeerUidRefused
    case 1 => PeerUnattested
    case 2 => RuntimeUnbound
    case 3 => PeerUnattested
    case 4 => RuntimeMismatch
    case 5 => BadRequest
    case 6 => BadRequest
    case 7 => OriginForbidden
    case _ => DefinitionUnknown
  }

  ghost predicate SessionPassesBefore(cfg: Config, peer: B.Peer, req: SessionRequest, env: Env, n: int) {
    forall k :: 0 <= k < n ==> SessionPasses(cfg, peer, req, env, k)
  }

  const NO_CLAIMS := Claims("", "", None, [], "", Runtime("", ""), "", "", "", "", 0, 0, "", 0)

  /** The draft of a session. */
  ghost function SessionDraft(cfg: Config, req: SessionRequest, env: Env): Draft {
    var id := RuntimeIn(env);
    var version := if req.runtime.Some? && req.runtime.value.version != "" then req.runtime.value.version else "unknown";
    var d := if req.definition == "" then None else DefinitionOf(env.files, req.definition);
    Draft(NO_CLAIMS.(iss := cfg.iss, sub := "runtime:" + id, grade := "workload", rt := Runtime(id, version),
                     orig := if req.origin == "" then "trigger" else req.origin,
                     roles := if d.Some? then d.value.roles else cfg.runtimeRoles,
                     act := Some(Actor(if d.Some? then "agent:" + d.value.name else "runtime:" + id, None))),
          env.now + cfg.ttl, None)
  }

  function SessionSource(req: SessionRequest, env: Env): Source {
    Source(None, if req.definition == "" then None else DefinitionOf(env.files, req.definition))
  }

  // -------------------------------------------------------------- what a child takes

  const CHILD_STEPS := 12

  /** What the issuer holds when a child is requested. */
  datatype Held = Held(parent: Option<Claims>, holder: Option<R.IssuedTo>)

  function ParentExp(h: Held): int { if h.parent.Some? then h.parent.value.exp else 0 }

  function HolderPart(h: Held): R.IssuedTo {
    if h.holder.Some? then h.holder.value else R.IssuedTo(0, 0, 0, 0, 0, 0)
  }

  function PidIn(env: Env): int { if env.bound.Ok? then env.bound.value.pid else 0 }

  /** Whether check `k` of a child request passes. */
  ghost predicate ChildPasses(cfg: Config, h: Held, peer: B.Peer, req: ChildRequest, env: Env, k: int) {
    match k
    case 0 => peer.uid == cfg.uid
    case 1 => Name(req.agentType) && Name(req.agentId)
    case 2 => h.parent.Some?
    case 3 => ParentExp(h) > Unix(env.now)
    case 4 => h.holder.Some?
    case 5 => HolderPart(h).uid == peer.uid
    case 6 => env.bound != Err(B.PeerUnattested)
    case 7 => env.bound != Err(B.RuntimeUnbound)
    case 8 => HolderPart(h).pid == PidIn(env)
    case 9 => HolderPart(h).start == ProcOf(env).start
    case 10 => HolderPart(h).dev == ProcOf(env).dev && HolderPart(h).ino == ProcOf(env).ino
    case 11 => DefinitionOf(env.files, req.agentType).Some?
    case _ => true
  }

  function ChildCode(k: int): Code {
    match k
    case 0 => PeerUidRefused
    case 1 => BadRequest
    case 2 => ParentInvalid
    case 3 => ParentExpired
    case 4 => ParentUnknown
    case 5 => UidMismatch
    case 6 => PeerUnattested
    case 7 => RuntimeUnbound
    case 8 => PidMismatch
    case 9 => PidMismatch
    case 10 => ExeMismatch
    case _ => DefinitionUnknown
  }

  ghost predicate ChildPassesBefore(cfg: Config, h: Held, peer: B.Peer, req: ChildRequest, env: Env, n: int) {
    forall k :: 0 <= k < n ==> ChildPasses(cfg, h, peer, req, env, k)
  }

  function DefinitionIn(req: ChildRequest, env: Env): Definition {
    var d := DefinitionOf(env.files, req.agentType);
    if d.Some? then d.value else Definition("", [])
  }

  function ParentIn(h: Held): Claims { if h.parent.Some? then h.parent.value else NO_CLAIMS }

  /** The draft of a child. */
  function ChildDraft(cfg: Config, h: Held, req: ChildRequest, env: Env): Draft {
    var parent, d := ParentIn(h), DefinitionIn(req, env);
    Draft(NO_CLAIMS.(iss := cfg.iss, sub := parent.sub, roles := Kept(d.roles, Policies(cfg, parent.roles)), grade := "harness",
                     rt := parent.rt, sid := parent.sid, spawn := req.agentId, orig := "agent",
                     act := Some(Actor("agent:" + d.name, parent.act))),
          Min(parent.exp * SECOND, env.now + cfg.ttl), ReportOf(d.roles, Policies(cfg, parent.roles)))
  }

  // -------------------------------------------------------------- the state

  ghost predicate SignaturesDistinct(made: set<Signed>) {
    && (forall s, t :: s in made && t in made && s.claims.jti == t.claims.jti ==> s.claims == t.claims)
    && (forall s :: s in made ==> DatesFit(s.claims))
  }

  ghost predicate LoggedAreSigned(log: seq<Issuance>, header: Object, made: set<Signed>) {
    && (forall i :: 0 <= i < |log| ==> Signed(header, log[i].claims) in made)
    && (forall i, j :: 0 <= i < j < |log| ==> log[i].claims.jti != log[j].claims.jti)
  }

  ghost predicate IsFor(x: Issuance, jti: string, e: R.IssuedTo) {
    x.claims.jti == jti && x.holder == e
  }

  /** Every registry entry is the holder of an assertion in the log. */
  ghost predicate Recorded(log: seq<Issuance>, entries: map<string, R.IssuedTo>) {
    forall jti :: jti in entries ==> exists i :: 0 <= i < |log| && IsFor(log[i], jti, entries[jti])
  }

  /** Every assertion still alive by all the clock samples so far is in the registry, unchanged. */
  ghost predicate LiveAreFound(log: seq<Issuance>, entries: map<string, R.IssuedTo>, clock: int) {
    forall i :: 0 <= i < |log| && log[i].claims.exp > Unix(clock) ==>
      log[i].claims.jti in entries && entries[log[i].claims.jti] == log[i].holder
  }

  function Max(a: int, b: int): int { if a < b then b else a }

  predicate ClockFits(now: int) {
    -0x4000_0000_0000_0000 <= Unix(now) <= 0x4000_0000_0000_0000
  }

  /** Random ids are drawn fresh. */
  ghost predicate Fresh(env: Env, made: set<Signed>) {
    && (env.jti.Some? ==> RandomId(env.jti.value) && forall s :: s in made ==> s.claims.jti != env.jti.value)
    && (env.sid.Some? ==> RandomId(env.sid.value)) && (env.dirId.Some? ==> RandomId(env.dirId.value))
  }

  lemma RecordedGrows(log: seq<Issuance>, x: Issuance, entries: map<string, R.IssuedTo>, unix: int)
    requires Recorded(log, entries)
    ensures Recorded(log + [x], R.Live(entries, unix)[x.claims.jti := x.holder])
  {
    var log' := log + [x];
    var entries' := R.Live(entries, unix)[x.claims.jti := x.holder];
    forall jti | jti in entries' ensures exists i :: 0 <= i < |log'| && IsFor(log'[i], jti, entries'[jti]) {
      if jti == x.claims.jti {
        assert IsFor(log'[|log|], jti, entries'[jti]);
      } else {
        var i :| 0 <= i < |log| && IsFor(log[i], jti, entries[jti]);
        assert IsFor(log'[i], jti, entries'[jti]);
      }
    }
  }

  lemma LiveStayFound(log: seq<Issuance>, x: Issuance, entries: map<string, R.IssuedTo>, clock: int, now: int)
    requires LiveAreFound(log, entries, clock)
    requires forall i :: 0 <= i < |log| ==> log[i].claims.jti != x.claims.jti && log[i].holder.exp == log[i].claims.exp
    ensures LiveAreFound(log + [x], R.Live(entries, Unix(now))[x.claims.jti := x.holder], Max(clock, now))
  {
    UnixGrows(clock, Max(clock, now));
    UnixGrows(now, Max(clock, now));
    hide Unix;
  }

  lemma UnixGrows(a: int, b: int)
    requires a <= b
    ensures Unix(a) <= Unix(b)
  {
  }

  lemma SignaturesGrow(log: seq<Issuance>, x: Issuance, header: Object, made: set<Signed>)
    requires SignaturesDistinct(made) && LoggedAreSigned(log, header, made) && DatesFit(x.claims)
    requires forall s :: s in made ==> s.claims.jti != x.claims.jti
    ensures SignaturesDistinct(made + {Signed(header, x.claims)})
    ensures LoggedAreSigned(log, header, made + {Signed(header, x.claims)})
    ensures LoggedAreSigned(log + [x], header, made + {Signed(header, x.claims)})
    ensures forall i :: 0 <= i < |log| ==> log[i].claims.jti != x.claims.jti
  {
    hide DatesFit;
    forall i | 0 <= i < |log| ensures log[i].claims.jti != x.claims.jti {
      assert Signed(header, log[i].claims) in made;
    }
  }

  lemma JtiIsFresh(cfg: Config, peer: B.Peer, bound: B.Link, env: Env, d: Draft, o: Source, made: set<Signed>)
    requires Fresh(env, made) && env.jti.Some? && ClockFits(env.now) && ClockFits(d.exp)
    ensures var x := Entry(cfg, peer, bound, env, d, o);
            DatesFit(x.claims) && forall s :: s in made ==> s.claims.jti != x.claims.jti
  {
    hide Unix, DeliveryDir, CreatedName, RandomId;
  }

  lemma EntryHolds(cfg: Config, peer: B.Peer, bound: B.Link, env: Env, d: Draft, o: Source, taken: set<string>)
    requires FinishesBefore(env, d, taken, 4) && RandomIds(env)
    requires peer.uid == cfg.uid && d.claims.iss == cfg.iss && (o.definition.Some? ==> ValidDefinition(o.definition.value))
    ensures EveryEntry(cfg, Entry(cfg, peer, bound, env, d, o))
  {
    hide Unix, DeliveryDir, CreatedName, RandomId, ValidDefinition, SomeHuman;
    assert Finishes(env, d, taken, 0) && Finishes(env, d, taken, 1) && Finishes(env, d, taken, 3);
  }

  ghost predicate RandomIds(env: Env) {
    (env.jti.Some? ==> RandomId(env.jti.value)) && (env.sid.Some? ==> RandomId(env.sid.value)) && (env.dirId.Some? ==> RandomId(env.dirId.value))
  }

  lemma FreshAreRandom(env: Env, made: set<Signed>)
    requires Fresh(env, made)
    ensures RandomIds(env)
  {
  }

  lemma HoldersExpire(cfg: Config, log: seq<Issuance>)
    requires History(cfg, log)
    ensures forall i :: 0 <= i < |log| ==> log[i].holder.exp == log[i].claims.exp
  {
    hide SessionEntry, ChildEntry, RandomId, DeliveryDir, Unix;
    forall i | 0 <= i < |log| ensures log[i].holder.exp == log[i].claims.exp {
      assert EntryAt(cfg, log, i);
    }
  }

  /** The checks of a session request, and its claims as far as they are known. */
  method DraftSession(cfg: Config, peer: B.Peer, req: SessionRequest, env: Env) returns (out: Result<Draft, Code>, ghost failed: int)
    ensures out.Err? ==> 0 <= failed < SESSION_STEPS && !SessionPasses(cfg, peer, req, env, failed)
                         && SessionPassesBefore(cfg, peer, req, env, failed) && out.error == SessionCode(failed)
    ensures out.Ok? ==> SessionPassesBefore(cfg, peer, req, env, SESSION_STEPS) && env.bound.Ok? && out.value == SessionDraft(cfg, req, env)
    ensures out.Ok? ==> var o := SessionSource(req, env); o.definition.Some? ==> ValidDefinition(o.definition.value)
  {
    hide ValidDefinition, RuntimeIdOf, Version, DefinitionOf;
    failed := -1;
    if peer.uid != cfg.uid { return Err(PeerUidRefused), 0; }
    if env.bound.Err? {
      match env.bound.error {
        case PeerUnattested => return Err(PeerUnattested), 1;
        case RuntimeUnbound => return Err(RuntimeUnbound), 2;
      }
    }
    var bound := env.bound.value;
    var rtId := RuntimeId(bound.info.exe, bound.info.args);
    if rtId.None? { return Err(PeerUnattested), 3; }
    var version := "unknown";
    if req.runtime.Some? {
      var declared := req.runtime.value;
      if declared.id != "" && declared.id != rtId.value { return Err(RuntimeMismatch), 4; }
      if declared.version != "" {
        if !Version(declared.version) { return Err(BadRequest), 5; }
        version := declared.version;
      }
    }
    var origin := req.origin;
    if origin == "" {
      origin := "trigger";
    } else if !KnownOrigin(origin) {
      return Err(BadRequest), 6;
    } else if origin == "human" {
      return Err(OriginForbidden), 7;
    }
    var actor := "runtime:" + rtId.value;
    var c := NO_CLAIMS.(iss := cfg.iss, sub := actor, grade := "workload", rt := Runtime(rtId.value, version), orig := origin);
    var definition: Option<Definition> := None;
    if req.definition != "" {
      definition := Load(env.files, req.definition);
      if definition.None? { return Err(DefinitionUnknown), 8; }
      c := c.(roles := definition.value.roles, act := Some(Actor("agent:" + definition.value.name, None)));
    } else {
      c := c.(roles := cfg.runtimeRoles, act := Some(Actor(actor, None)));
    }
    var d := Draft(c, env.now + cfg.ttl, None);
    out := Ok(d);
  }

  /** The checks of a child request and its claims as far as they are known. */
  method DraftChild(cfg: Config, h: Held, peer: B.Peer, req: ChildRequest, env: Env) returns (out: Result<Draft, Code>, ghost failed: int)
    ensures out.Err? ==> 0 <= failed < CHILD_STEPS && !ChildPasses(cfg, h, peer, req, env, failed)
                         && ChildPassesBefore(cfg, h, peer, req, env, failed) && out.error == ChildCode(failed)
    ensures out.Ok? ==> ChildPassesBefore(cfg, h, peer, req, env, CHILD_STEPS) && env.bound.Ok? && out.value == ChildDraft(cfg, h, req, env)
    ensures out.Ok? ==> ValidDefinition(DefinitionIn(req, env))
  {
    hide ValidDefinition, DefinitionOf, Name, Kept, ReportOf;
    failed := -1;
    if peer.uid != cfg.uid { return Err(PeerUidRefused), 0; }
    if !Name(req.agentType) || !Name(req.agentId) { return Err(BadRequest), 1; }
    if h.parent.None? { return Err(ParentInvalid), 2; }
    var parent := h.parent.value;
    if parent.exp <= Unix(env.now) { return Err(ParentExpired), 3; }
    if h.holder.None? { return Err(ParentUnknown), 4; }
    var issued := h.holder.value;
    if issued.uid != peer.uid { return Err(UidMismatch), 5; }
    if env.bound.Err? {
      match env.bound.error {
        case PeerUnattested => return Err(PeerUnattested), 6;
        case RuntimeUnbound => return Err(RuntimeUnbound), 7;
      }
    }
    var bound := env.bound.value;
    var proc := bound.info;
    if issued.pid != bound.pid { return Err(PidMismatch), 8; }
    if proc.start != issued.start { return Err(PidMismatch), 9; }
    if proc.dev != issued.dev || proc.ino != issued.ino { return Err(ExeMismatch), 10; }
    var definition := Load(env.files, req.agentType);
    if definition.None? { return Err(DefinitionUnknown), 11; }
    var roles, narrowed := Narrow(definition.value.roles, Policies(cfg, parent.roles));
    var child := NO_CLAIMS.(iss := cfg.iss, sub := parent.sub, roles := roles, grade := "harness", rt := parent.rt,
                            sid := parent.sid, spawn := req.agentId, orig := "agent",
                            act := Some(Actor("agent:" + definition.value.name, parent.act)));
    var exp := env.now + cfg.ttl;
    var parentEnd := parent.exp * SECOND;
    if parentEnd < exp { exp := parentEnd; }
    out := Ok(Draft(child, exp, View(narrowed)));
  }

  class Service {
    const cfg: Config
    const codec: Codec
    const header: Object
    const table: R.Table
    const dirs: SpawnDirs.Root
    ghost var log: seq<Issuance>
    ghost var made: set<Signed>
    ghost var clock: int

    /** A service starts with an empty registry; its key may have signed before. */
    constructor (cfg: Config, codec: Codec, header: Object, ghost earlier: set<Signed>, now: int)
      requires ValidConfig(cfg) && Faithful(codec) && SignaturesDistinct(earlier)
      ensures Valid() && fresh(table) && fresh(dirs)
      ensures this.cfg == cfg && this.codec == codec && this.header == header
      ensures log == [] && made == earlier && clock == now
    {
      this.cfg, this.codec, this.header := cfg, codec, header;
      table := new R.Table();
      dirs := new SpawnDirs.Root(cfg.root);
      log, made, clock := [], earlier, now;
    }

    ghost predicate Valid()
      reads this, table
    {
      && ValidConfig(cfg) && Faithful(codec)
      && History(cfg, log) && SignaturesDistinct(made) && LoggedAreSigned(log, header, made)
      && Recorded(log, table.entries) && LiveAreFound(log, table.entries, clock)
    }

    /** What a caller learns of a log entry. */
    function Answer(x: Issuance): Issued {
      var c := x.claims;
      Issued(Token(codec, Signed(header, c)), c.dir, c.exp, c.sub, if c.act.Some? then c.act.value.sub else c.sub, c.grade, c.roles, x.report)
    }

    /** The steps of finish up to making the directory. */
    method Prepare(d: Draft, env: Env) returns (out: Result<(Claims, string), Code>, ghost failed: int)
      requires RandomIds(env)
      modifies dirs
      ensures out.Err? ==> 0 <= failed < 4 && !Finishes(env, d, old(dirs.entries), failed)
                           && FinishesBefore(env, d, old(dirs.entries), failed) && out.error == FinishCode(failed)
                           && dirs.entries == old(dirs.entries)
      ensures out.Ok? ==> FinishesBefore(env, d, old(dirs.entries), 4) && out.value == (Final(cfg, env, d), NameIn(env))
                          && dirs.entries == old(dirs.entries) + {NameIn(env)}
    {
      hide CreatedName, Clean, Unix, SomeHuman, ContractFor, RandomId, NamesHuman;
      failed := -1;
      if Unix(env.now) >= Unix(d.exp) { return Err(LifetimeEmpty), 0; }
      if env.jti.None? { return Err(Internal), 1; }
      var c := d.claims;
      if c.sid == "" {
        if env.sid.None? { return Err(Internal), 1; }
        c := c.(sid := "s-" + env.sid.value);
      }
      if c.orig == ORIGIN_DRIVEN {
        var human := ActorChainNamesHuman(c.act);
        if c.grade != "workload" || NamesHuman(c.sub) || human { return Err(Internal), 2; }
      }
      c := c.(iat := Unix(env.now), exp := Unix(d.exp), jti := env.jti.value, cia := ContractFor(c.orig));
      if env.dirId.None? { return Err(SpawnDirFailed), 3; }
      var name := dirs.Create(Unix(env.now), env.dirId.value, env.made);
      if name.None? { return Err(SpawnDirFailed), 3; }
      var dir := DeliveryDir(cfg.root, name.value);
      CleanTwice(cfg.root + "/" + name.value);
      out := Ok((c.(dir := Clean(dir)), name.value));
    }

    /** Allocates the directory, signs, publishes and records. Every refusal leaves the registry and
        the log of what was returned as they were. */
    method Finish(peer: B.Peer, bound: B.Link, d: Draft, ghost o: Source, env: Env) returns (out: Result<Issued, Code>, ghost failed: int)
      requires Valid() && ClockFits(env.now) && ClockFits(d.exp) && env.now <= clock && Fresh(env, made)
      requires peer.uid == cfg.uid && d.claims.iss == cfg.iss && (o.definition.Some? ==> ValidDefinition(o.definition.value))
      requires var x := Entry(cfg, peer, bound, env, d, o);
               FinishesBefore(env, d, dirs.entries, 4) ==>
                 match o.parent case None => SessionEntry(cfg, x) case Some(p) => p < |log| && ChildEntry(cfg, log[p], x)
      modifies this, table, dirs
      ensures Valid() && clock == old(clock)
      ensures out.Err? ==> 0 <= failed < FINISH_STEPS && !Finishes(env, d, old(dirs.entries), failed)
                           && FinishesBefore(env, d, old(dirs.entries), failed) && out.error == FinishCode(failed)
      ensures out.Ok? ==> FinishesBefore(env, d, old(dirs.entries), FINISH_STEPS)
      ensures out.Err? ==> log == old(log) && table.entries == old(table.entries)
                           && (dirs.entries == old(dirs.entries) || (failed == 4 && !env.discarded))
      ensures out.Ok? ==> var x := Entry(cfg, peer, bound, env, d, o);
                          log == old(log) + [x] && out.value == Answer(x) && dirs.entries == old(dirs.entries) + {NameIn(env)}
    {
      hide History, SignaturesDistinct, LoggedAreSigned, Recorded, LiveAreFound, Faithful, Fresh, NameIn, Final, Unix, SomeHuman,
           Token, ContractFor, ValidDefinition, SessionEntry, ChildEntry, RandomIds, EveryEntry, ValidConfig, ClockFits, DatesFit, R.Live;
      FreshAreRandom(env, made);
      var ready;
      ready, failed := Prepare(d, env);
      if ready.Err? { return Err(ready.error), failed; }
      var c, name := ready.value.0, ready.value.1;
      assert Finishes(env, d, old(dirs.entries), 1) && Finishes(env, d, old(dirs.entries), 3);
      ghost var x := Entry(cfg, peer, bound, env, d, o);
      var token := Token(codec, Signed(header, c));
      if env.signs {
        JtiIsFresh(cfg, peer, bound, env, d, o, made);
        SignaturesGrow(log, x, header, made);
        made := made + {Signed(header, c)};
      }
      if !(env.signs && env.published) {
        if env.discarded { dirs.Discard(name); }
        return Err(Internal), 4;
      }
      EntryHolds(cfg, peer, bound, env, d, o, old(dirs.entries));
      HoldersExpire(cfg, log);
      RecordedGrows(log, x, table.entries, Unix(env.now));
      LiveStayFound(log, x, table.entries, clock, env.now);
      HistoryGrows(cfg, log, x);
      table.Put(c.jti, R.IssuedTo(peer.uid, bound.pid, bound.info.start, bound.info.dev, bound.info.ino, c.exp), Unix(env.now));
      log := log + [x];
      var actor := c.sub;
      if c.act.Some? { actor := c.act.value.sub; }
      out := Ok(Issued(token, c.dir, c.exp, c.sub, actor, c.grade, c.roles, d.report));
    }

    /** Answers a session request: refused with the code of the first check that fails, and otherwise
        a session that the log records. */
    method IssueSession(peer: B.Peer, req: SessionRequest, env: Env) returns (out: Result<Issued, Code>, ghost failed: int)
      requires Valid() && ClockFits(env.now) && ClockFits(env.now + cfg.ttl) && Fresh(env, made)
      modifies this, table, dirs
      ensures Valid() && clock == Max(old(clock), env.now)
      ensures out.Err? ==> 0 <= failed < SESSION_STEPS + FINISH_STEPS
                           && !SessionHolds(cfg, peer, req, env, old(dirs.entries), failed)
                           && SessionHoldsBefore(cfg, peer, req, env, old(dirs.entries), failed)
                           && out.error == SessionRefusal(failed)
      ensures out.Ok? ==> SessionHoldsBefore(cfg, peer, req, env, old(dirs.entries), SESSION_STEPS + FINISH_STEPS)
      ensures out.Err? ==> log == old(log) && table.entries == old(table.entries)
      ensures out.Ok? ==> env.bound.Ok? && var x := Entry(cfg, peer, env.bound.value, env, SessionDraft(cfg, req, env), SessionSource(req, env));
                          log == old(log) + [x] && out.value == Answer(x)
      ensures out.Ok? ==> SessionFor(cfg, peer, req, env, log[|old(log)|]) && AnswerFor(codec, header, log[|old(log)|], out.value)
      ensures out.Err? ==> SessionRefusedFor(cfg, peer, req, env, old(dirs.entries), out.error)
    {
      hide History, SignaturesDistinct, LoggedAreSigned, Recorded, LiveAreFound, Faithful, Fresh, SessionDraft, ClockFits, SessionFor,
           SessionRefusedFor, ValidDefinition, SessionEntry, ChildEntry, ValidConfig, Finishes, SessionPasses, SessionCode, FinishCode, NameIn, Final, HolderOf;
      LaterStaysFound(log, table.entries, clock, Max(clock, env.now));
      clock := Max(clock, env.now);
      var ready;
      ready, failed := DraftSession(cfg, peer, req, env);
      if ready.Err? {
        SessionRefused(cfg, peer, req, env, dirs.entries, failed);
        return Err(ready.error), failed;
      }
      SessionObeys(cfg, peer, req, env);
      out, failed := Finish(peer, env.bound.value, ready.value, SessionSource(req, env), env);
      SessionFinishes(cfg, peer, req, env, old(dirs.entries), if out.Err? then failed else FINISH_STEPS);
      failed := failed + SESSION_STEPS;
      if out.Ok? { SessionAnswered(cfg, peer, req, env, old(dirs.entries)); } else { SessionRefused(cfg, peer, req, env, old(dirs.entries), failed); }
    }

    /** What the issuer holds for a token: its claims, if the token is one of ours, and the process it
        was recorded for, if the registry still has it. */
    ghost function HeldFor(verifies: (Object, string, string) -> bool, token: string): Held
      reads table
    {
      var parent := ParseOwn(codec, verifies, token);
      Held(parent, if parent.Some? && parent.value.jti in table.entries then Some(table.entries[parent.value.jti]) else None)
    }

    /** Answers a child request: refused with the code of the first check that fails, and otherwise a
        child of the log entry `p` that the parent token stands for. */
    method IssueChild(verifies: (Object, string, string) -> bool, peer: B.Peer, req: ChildRequest, env: Env)
      returns (out: Result<Issued, Code>, ghost failed: int, ghost p: int)
      requires Valid() && ClockFits(env.now) && ClockFits(env.now + cfg.ttl) && Fresh(env, made)
      requires Unforgeable(codec, verifies, made)
      modifies this, table, dirs
      ensures Valid() && clock == Max(old(clock), env.now)
      ensures out.Err? ==> 0 <= failed < CHILD_STEPS + FINISH_STEPS
                           && !ChildHolds(cfg, old(HeldFor(verifies, req.parentToken)), peer, req, env, old(dirs.entries), failed)
                           && ChildHoldsBefore(cfg, old(HeldFor(verifies, req.parentToken)), peer, req, env, old(dirs.entries), failed)
                           && out.error == ChildRefusal(failed)
      ensures out.Ok? ==> ChildHoldsBefore(cfg, old(HeldFor(verifies, req.parentToken)), peer, req, env, old(dirs.entries), CHILD_STEPS + FINISH_STEPS)
      ensures out.Err? ==> log == old(log) && table.entries == old(table.entries)
      ensures out.Ok? ==> 0 <= p < |old(log)| && ParseOwn(codec, verifies, req.parentToken) == Some(old(log)[p].claims)
      ensures out.Ok? ==> env.bound.Ok? &&
                          var h := old(HeldFor(verifies, req.parentToken));
                          var x := Entry(cfg, peer, env.bound.value, env, ChildDraft(cfg, h, req, env), Source(Some(p), Some(DefinitionIn(req, env))));
                          log == old(log) + [x] && out.value == Answer(x)
      ensures out.Ok? ==> ChildFor(cfg, old(log)[p], peer, req, env, log[|old(log)|]) && AnswerFor(codec, header, log[|old(log)|], out.value)
      ensures out.Err? ==> ChildRefusedFor(cfg, old(HeldFor(verifies, req.parentToken)), peer, req, env, old(dirs.entries), out.error)
    {
      hide History, SignaturesDistinct, LoggedAreSigned, Recorded, LiveAreFound, Faithful, Fresh, ChildDraft, ClockFits, Unforgeable, ChildFor,
           ChildRefusedFor,
           ValidDefinition, SessionEntry, ChildEntry, ValidConfig, Finishes, ChildPasses, ChildCode, FinishCode, NameIn, Final, HolderOf,
           ParseOwn, DefinitionIn;
      p := -1;
      ghost var h := HeldFor(verifies, req.parentToken);
      LaterStaysFound(log, table.entries, clock, Max(clock, env.now));
      clock := Max(clock, env.now);
      var parent := ParseOwn(codec, verifies, req.parentToken);
      var holder: Option<R.IssuedTo> := None;
      if parent.Some? { holder := table.Get(parent.value.jti); }
      var ready;
      ready, failed := DraftChild(cfg, Held(parent, holder), peer, req, env);
      if ready.Err? {
        ChildStops(cfg, h, peer, req, env, dirs.entries, failed);
        ChildRefused(cfg, h, peer, req, env, dirs.entries, failed);
        return Err(ready.error), failed, p;
      }
      p := ParentEntry(cfg, codec, header, verifies, log, made, table.entries, h, peer, req, env);
      ChildObeys(cfg, log, p, h, peer, req, env);
      out, failed := Finish(peer, env.bound.value, ready.value, Source(Some(p), Some(DefinitionIn(req, env))), env);
      ChildFinishes(cfg, h, peer, req, env, old(dirs.entries), if out.Err? then failed else FINISH_STEPS);
      failed := failed + CHILD_STEPS;
      SessionIsNamed(cfg, old(log), p);
      if out.Ok? { ChildAnswered(cfg, old(log), p, h, peer, req, env, old(dirs.entries)); } else { ChildRefused(cfg, h, peer, req, env, old(dirs.entries), failed); }
    }
  }

  // -------------------------------------------------------------- what a request is answered with

  /** What a definition file says, when it may be used. */
  ghost predicate DefinedBy(files: string -> Option<Frontmatter>, name: string, d: Definition) {
    && Name(name) && files(name).Some? && files(name).value.name == name && AllRoleNames(files(name).value.roles)
    && d == Definition(name, FirstOf(files(name).value.roles))
  }

  /** The session logged for a request: whom it is for, what the request asked for, and from when to when. */
  ghost predicate SessionFor(cfg: Config, peer: B.Peer, req: SessionRequest, env: Env, x: Issuance) {
    var c := x.claims;
    && env.bound.Ok? && RuntimeIdOf(env.bound.value.info.exe, env.bound.value.info.args) == Some(c.rt.id)
    && c.iss == cfg.iss && c.sub == "runtime:" + c.rt.id && c.grade == "workload" && c.spawn == ""
    && c.orig == (if req.origin == "" then "trigger" else req.origin)
    && c.orig in {"scheduled", "loop", "trigger", "agent", "driven"} && c.cia == (if req.origin == "driven" then 2 else 1)
    && c.rt.version == (if req.runtime.Some? && req.runtime.value.version != "" then req.runtime.value.version else "unknown")
    && (req.runtime.Some? ==> req.runtime.value.id == "" || req.runtime.value.id == c.rt.id)
    && (if req.definition == "" then x.definition.None? && c.roles == cfg.runtimeRoles && c.act == Some(Actor("runtime:" + c.rt.id, None))
        else x.definition.Some? && DefinedBy(env.files, req.definition, x.definition.value)
             && c.roles == x.definition.value.roles && c.act == Some(Actor("agent:" + req.definition, None)))
    && env.sid.Some? && c.sid == "s-" + env.sid.value && c.exp == (env.now + cfg.ttl) / 1_000_000_000
    && x.parent.None? && x.report.None? && MadeFor(cfg, peer, env, x)
  }

  /** The child of `parent` logged for a request, likewise. */
  ghost predicate ChildFor(cfg: Config, parent: Issuance, peer: B.Peer, req: ChildRequest, env: Env, x: Issuance) {
    var c := x.claims;
    && c.iss == cfg.iss && c.sub == parent.claims.sub && c.rt == parent.claims.rt && c.sid == parent.claims.sid
    && c.grade == "harness" && c.orig == "agent" && c.cia == 1 && c.spawn == req.agentId
    && x.definition.Some? && DefinedBy(env.files, req.agentType, x.definition.value)
    && c.act == Some(Actor("agent:" + req.agentType, parent.claims.act))
    && (forall r :: r in c.roles <==> r in x.definition.value.roles && r in parent.claims.roles && (cfg.delegable.Some? ==> r in cfg.delegable.value))
    && c.exp == (if parent.claims.exp <= (env.now + cfg.ttl) / 1_000_000_000 then parent.claims.exp else (env.now + cfg.ttl) / 1_000_000_000)
    && MadeFor(cfg, peer, env, x)
    && x.holder.(exp := 0) == parent.holder.(exp := 0)
  }

  /** What every entry owes to the request it answers: the clock sample, the ids drawn, the directory made
      and the process bound. */
  ghost predicate MadeFor(cfg: Config, peer: B.Peer, env: Env, x: Issuance) {
    var c := x.claims;
    && x.now == env.now && c.iat == env.now / 1_000_000_000 && env.jti == Some(c.jti) && env.dirId == Some(x.dirId)
    && c.dir == Clean(cfg.root + "/" + CreatedName(c.iat, x.dirId))
    && env.bound.Ok? && peer.uid == cfg.uid
    && x.holder == R.IssuedTo(peer.uid, env.bound.value.pid, env.bound.value.info.start, env.bound.value.info.dev, env.bound.value.info.ino, c.exp)
  }

  /** The answer a caller gets for an entry. */
  ghost predicate AnswerFor(codec: Codec, header: Object, x: Issuance, a: Issued) {
    var c := x.claims;
    && a.token == Token(codec, Signed(header, c)) && a.dir == c.dir && a.expiresAt == c.exp && a.subject == c.sub
    && a.grade == c.grade && a.roles == c.roles && a.narrowed == x.report
    && c.act.Some? && a.actor == c.act.value.sub
  }

  /** What a refusal of a session request means. */
  ghost predicate SessionRefusedFor(cfg: Config, peer: B.Peer, req: SessionRequest, env: Env, taken: set<string>, code: Code) {
    match code
    case PeerUidRefused => peer.uid != cfg.uid
    case PeerUnattested => peer.uid == cfg.uid && (env.bound == Err(B.PeerUnattested) || RuntimeIdOf(ProcOf(env).exe, ProcOf(env).args).None?)
    case RuntimeUnbound => peer.uid == cfg.uid && env.bound == Err(B.RuntimeUnbound)
    case RuntimeMismatch => req.runtime.Some? && req.runtime.value.id != "" && Some(req.runtime.value.id) != RuntimeIdOf(ProcOf(env).exe, ProcOf(env).args)
    case BadRequest =>
      || (req.runtime.Some? && req.runtime.value.version != "" && !Version(req.runtime.value.version))
      || req.origin !in {"", "human", "scheduled", "loop", "trigger", "agent", "driven"}
    case OriginForbidden => req.origin == "human"
    case DefinitionUnknown => req.definition != "" && forall d :: !DefinedBy(env.files, req.definition, d)
    case SpawnDirFailed => env.dirId.None? || !env.made || CreatedName(env.now / 1_000_000_000, env.dirId.value) in taken
    case Internal => env.jti.None? || env.sid.None? || !env.signs || !env.published
    case _ => false
  }

  /** What a refusal of a child request means, given what the issuer holds for the parent token. */
  ghost predicate ChildRefusedFor(cfg: Config, h: Held, peer: B.Peer, req: ChildRequest, env: Env, taken: set<string>, code: Code) {
    match code
    case PeerUidRefused => peer.uid != cfg.uid
    case BadRequest => !Name(req.agentType) || !Name(req.agentId)
    case ParentInvalid => h.parent.None?
    case ParentExpired => h.parent.Some? && h.parent.value.exp <= env.now / 1_000_000_000
    case ParentUnknown => h.parent.Some? && h.holder.None?
    case UidMismatch => h.holder.Some? && h.holder.value.uid != peer.uid
    case PeerUnattested => env.bound == Err(B.PeerUnattested)
    case RuntimeUnbound => env.bound == Err(B.RuntimeUnbound)
    case PidMismatch =>
      && env.bound.Ok? && h.holder.Some?
      && (h.holder.value.pid != env.bound.value.pid || h.holder.value.start != env.bound.value.info.start)
    case ExeMismatch =>
      && env.bound.Ok? && h.holder.Some?
      && (h.holder.value.dev != env.bound.value.info.dev || h.holder.value.ino != env.bound.value.info.ino)
    case DefinitionUnknown => forall d :: !DefinedBy(env.files, req.agentType, d)
    case SpawnDirFailed => env.dirId.None? || !env.made || CreatedName(env.now / 1_000_000_000, env.dirId.value) in taken
    case Internal => env.jti.None? || !env.signs || !env.published
    case _ => false
  }

  lemma DefinitionIsDefined(files: string -> Option<Frontmatter>, name: string)
    ensures DefinitionOf(files, name).Some? ==> DefinedBy(files, name, DefinitionOf(files, name).value)
    ensures DefinitionOf(files, name).None? ==> forall d :: !DefinedBy(files, name, d)
  {
    hide Name, AllRoleNames, FirstOf;
  }

  lemma SessionAnswered(cfg: Config, peer: B.Peer, req: SessionRequest, env: Env, taken: set<string>)
    requires SessionHoldsBefore(cfg, peer, req, env, taken, SESSION_STEPS + FINISH_STEPS) && env.bound.Ok?
    ensures var x := Entry(cfg, peer, env.bound.value, env, SessionDraft(cfg, req, env), SessionSource(req, env));
            SessionFor(cfg, peer, req, env, x) && x.claims.act.Some?
  {
    hide CreatedName, RandomId, RuntimeIdOf, Version, DefinitionOf, DefinedBy, Clean, SomeHuman;
    assert SessionHolds(cfg, peer, req, env, taken, 0) && SessionHolds(cfg, peer, req, env, taken, 3) && SessionHolds(cfg, peer, req, env, taken, 4);
    assert SessionHolds(cfg, peer, req, env, taken, 6) && SessionHolds(cfg, peer, req, env, taken, 7) && SessionHolds(cfg, peer, req, env, taken, 8);
    assert SessionHolds(cfg, peer, req, env, taken, 10) && SessionHolds(cfg, peer, req, env, taken, 12);
    DefinitionIsDefined(env.files, req.definition);
    DefinitionIsNamed(env.files, req.definition);
  }

  lemma DefinitionIsNamed(files: string -> Option<Frontmatter>, name: string)
    ensures DefinitionOf(files, name).Some? ==> DefinitionOf(files, name).value.name == name
  {
  }

  lemma SessionRefused(cfg: Config, peer: B.Peer, req: SessionRequest, env: Env, taken: set<string>, failed: int)
    requires ValidConfig(cfg) && 0 <= failed < SESSION_STEPS + FINISH_STEPS
    requires !SessionHolds(cfg, peer, req, env, taken, failed) && SessionHoldsBefore(cfg, peer, req, env, taken, failed)
    ensures SessionRefusedFor(cfg, peer, req, env, taken, SessionRefusal(failed))
  {
    hide CreatedName, RandomId, RuntimeIdOf, Version, DefinitionOf, DefinedBy, SessionDraft;
    SessionsNeverHitTheGuards(cfg, peer, req, env, taken);
    DefinitionIsDefined(env.files, req.definition);
    assert failed > 0 ==> SessionHolds(cfg, peer, req, env, taken, 0);
    assert failed > 3 ==> SessionHolds(cfg, peer, req, env, taken, 3);
  }

  lemma ChildAnswered(cfg: Config, log: seq<Issuance>, p: nat, h: Held, peer: B.Peer, req: ChildRequest, env: Env, taken: set<string>)
    requires p < |log| && h.parent == Some(log[p].claims) && h.holder == Some(log[p].holder) && env.bound.Ok? && log[p].claims.sid != ""
    requires ChildHoldsBefore(cfg, h, peer, req, env, taken, CHILD_STEPS + FINISH_STEPS)
    ensures var x := Entry(cfg, peer, env.bound.value, env, ChildDraft(cfg, h, req, env), Source(Some(p), Some(DefinitionIn(req, env))));
            ChildFor(cfg, log[p], peer, req, env, x) && x.claims.act.Some?
  {
    hide CreatedName, RandomId, DefinitionOf, DefinedBy, Clean, SomeHuman, Kept, ReportOf, Name;
    assert ChildHolds(cfg, h, peer, req, env, taken, 0) && ChildHolds(cfg, h, peer, req, env, taken, 5) && ChildHolds(cfg, h, peer, req, env, taken, 8);
    assert ChildHolds(cfg, h, peer, req, env, taken, 9) && ChildHolds(cfg, h, peer, req, env, taken, 10) && ChildHolds(cfg, h, peer, req, env, taken, 11);
    assert ChildHolds(cfg, h, peer, req, env, taken, 13) && ChildHolds(cfg, h, peer, req, env, taken, 15);
    DefinitionIsDefined(env.files, req.agentType);
    DefinitionIsNamed(env.files, req.agentType);
    UnixOfMin(log[p].claims.exp, env.now + cfg.ttl);
    var d := DefinitionIn(req, env);
    forall r ensures r in Kept(d.roles, Policies(cfg, log[p].claims.roles))
                <==> r in d.roles && r in log[p].claims.roles && (cfg.delegable.Some? ==> r in cfg.delegable.value)
    {
      BothAllow(cfg, d.roles, log[p].claims.roles, r);
    }
  }

  lemma BothAllow(cfg: Config, want: seq<string>, parentRoles: seq<string>, r: string)
    ensures r in Kept(want, Policies(cfg, parentRoles)) <==> r in want && r in parentRoles && (cfg.delegable.Some? ==> r in cfg.delegable.value)
  {
    hide Kept;
    var policies := Policies(cfg, parentRoles);
    KeptExactly(want, policies, r);
    assert Allows(policies[0].allow, r) <==> (cfg.delegable.Some? ==> r in cfg.delegable.value);
    assert Allows(policies[1].allow, r) <==> r in parentRoles;
  }

  lemma ChildRefused(cfg: Config, h: Held, peer: B.Peer, req: ChildRequest, env: Env, taken: set<string>, failed: int)
    requires ValidConfig(cfg) && 0 <= failed < CHILD_STEPS + FINISH_STEPS && ClockFits(env.now) && ClockFits(env.now + cfg.ttl)
    requires !ChildHolds(cfg, h, peer, req, env, taken, failed) && ChildHoldsBefore(cfg, h, peer, req, env, taken, failed)
    requires failed >= CHILD_STEPS && h.parent.Some? ==> h.parent.value.sid != ""
    ensures ChildRefusedFor(cfg, h, peer, req, env, taken, ChildRefusal(failed))
  {
    hide CreatedName, RandomId, DefinitionOf, DefinedBy, ChildDraft, Name, ClockFits;
    if failed >= CHILD_STEPS {
      ChildFinishRefused(cfg, h, peer, req, env, taken, failed);
    } else {
      DefinitionIsDefined(env.files, req.agentType);
      assert !ChildPasses(cfg, h, peer, req, env, failed);
      assert failed > 2 ==> ChildHolds(cfg, h, peer, req, env, taken, 2) && ChildPasses(cfg, h, peer, req, env, 2);
      assert failed > 4 ==> ChildHolds(cfg, h, peer, req, env, taken, 4) && ChildPasses(cfg, h, peer, req, env, 4);
      assert failed > 6 ==> ChildHolds(cfg, h, peer, req, env, taken, 6) && ChildPasses(cfg, h, peer, req, env, 6);
      if env.bound.Err? {
        match env.bound.error {
          case PeerUnattested => assert env.bound == Err(B.PeerUnattested);
          case RuntimeUnbound => assert env.bound == Err(B.RuntimeUnbound);
        }
      }
      assert failed > 7 ==> ChildHolds(cfg, h, peer, req, env, taken, 7) && ChildPasses(cfg, h, peer, req, env, 7);
    }
  }

  lemma SessionIsNamed(cfg: Config, log: seq<Issuance>, i: nat)
    requires History(cfg, log) && i < |log|
    ensures log[i].claims.sid != ""
  {
    hide SessionEntry, ChildEntry;
    assert EntryAt(cfg, log, i);
  }

  lemma ChildFinishRefused(cfg: Config, h: Held, peer: B.Peer, req: ChildRequest, env: Env, taken: set<string>, failed: int)
    requires ValidConfig(cfg) && CHILD_STEPS <= failed < CHILD_STEPS + FINISH_STEPS && ClockFits(env.now) && ClockFits(env.now + cfg.ttl)
    requires !ChildHolds(cfg, h, peer, req, env, taken, failed) && ChildHoldsBefore(cfg, h, peer, req, env, taken, failed)
    requires h.parent.Some? ==> h.parent.value.sid != ""
    ensures ChildRefusedFor(cfg, h, peer, req, env, taken, ChildRefusal(failed))
  {
    hide CreatedName, RandomId, DefinitionOf, DefinedBy, Name, ClockFits, ChildPasses, Kept, ReportOf;
    forall k | 0 <= k < CHILD_STEPS ensures ChildPasses(cfg, h, peer, req, env, k) { assert ChildHolds(cfg, h, peer, req, env, taken, k); }
    ChildrenNeverHitTheGuards(cfg, h, peer, req, env, taken);
    assert ChildPasses(cfg, h, peer, req, env, 2);
    ParentIsThere(cfg, h, peer, req, env);
  }

  lemma ParentIsThere(cfg: Config, h: Held, peer: B.Peer, req: ChildRequest, env: Env)
    requires ChildPasses(cfg, h, peer, req, env, 2)
    ensures h.parent.Some?
  {
  }

  /** Whether step `k` of a session request succeeds: its checks, then the steps of finish. */
  ghost predicate SessionHolds(cfg: Config, peer: B.Peer, req: SessionRequest, env: Env, taken: set<string>, k: int) {
    if k < SESSION_STEPS then SessionPasses(cfg, peer, req, env, k)
    else Finishes(env, SessionDraft(cfg, req, env), taken, k - SESSION_STEPS)
  }

  ghost predicate SessionHoldsBefore(cfg: Config, peer: B.Peer, req: SessionRequest, env: Env, taken: set<string>, n: int) {
    forall k :: 0 <= k < n ==> SessionHolds(cfg, peer, req, env, taken, k)
  }

  function SessionRefusal(k: int): Code {
    if k < SESSION_STEPS then SessionCode(k) else FinishCode(k - SESSION_STEPS)
  }

  lemma SessionFinishes(cfg: Config, peer: B.Peer, req: SessionRequest, env: Env, taken: set<string>, n: int)
    requires SessionPassesBefore(cfg, peer, req, env, SESSION_STEPS)
    requires FinishesBefore(env, SessionDraft(cfg, req, env), taken, n)
    ensures SessionHoldsBefore(cfg, peer, req, env, taken, SESSION_STEPS + n)
  {
    hide SessionPasses, Finishes, SessionDraft;
    forall k | 0 <= k < SESSION_STEPS + n ensures SessionHolds(cfg, peer, req, env, taken, k) {
      if k >= SESSION_STEPS { assert Finishes(env, SessionDraft(cfg, req, env), taken, k - SESSION_STEPS); }
    }
  }

  /** A session draft that passes its checks obeys the rule of sessions once finished. */
  lemma SessionObeys(cfg: Config, peer: B.Peer, req: SessionRequest, env: Env)
    requires SessionPassesBefore(cfg, peer, req, env, SESSION_STEPS) && env.bound.Ok?
    ensures SessionEntry(cfg, Entry(cfg, peer, env.bound.value, env, SessionDraft(cfg, req, env), SessionSource(req, env)))
    ensures var d := SessionDraft(cfg, req, env); d.claims.iss == cfg.iss && d.exp == env.now + cfg.ttl
    ensures peer.uid == cfg.uid
  {
    hide Unix, DeliveryDir, CreatedName, RandomId, ValidDefinition, SomeHuman, RuntimeIdOf, Name, AllRoleNames, FirstOf;
    assert forall k :: 0 <= k < SESSION_STEPS ==> SessionPasses(cfg, peer, req, env, k);
    assert SessionPasses(cfg, peer, req, env, 0) && SessionPasses(cfg, peer, req, env, 3) && SessionPasses(cfg, peer, req, env, 5);
    assert SessionPasses(cfg, peer, req, env, 6) && SessionPasses(cfg, peer, req, env, 7) && SessionPasses(cfg, peer, req, env, 8);
    assert Version("unknown");
  }

  /** A session's lifetime is never empty and the guard on driven sessions never refuses one. */
  lemma SessionsNeverHitTheGuards(cfg: Config, peer: B.Peer, req: SessionRequest, env: Env, taken: set<string>)
    requires ValidConfig(cfg)
    ensures Finishes(env, SessionDraft(cfg, req, env), taken, 0) && Finishes(env, SessionDraft(cfg, req, env), taken, 2)
  {
    hide DeliveryDir, CreatedName, RandomId, NamesHuman, DefinitionOf, RuntimeIdOf;
    var c := SessionDraft(cfg, req, env).claims;
    NobodyIsHuman(RuntimeIn(env));
    if req.definition != "" && DefinitionOf(env.files, req.definition).Some? {
      NobodyIsHuman(DefinitionOf(env.files, req.definition).value.name);
    }
    assert Subjects(c.act) == [c.act.value.sub] + Subjects(None);
  }

  lemma LaterStaysFound(log: seq<Issuance>, entries: map<string, R.IssuedTo>, clock: int, later: int)
    requires LiveAreFound(log, entries, clock) && clock <= later
    ensures LiveAreFound(log, entries, later)
  {
    UnixGrows(clock, later);
    hide Unix;
  }

  /** Whether step `k` of a child request succeeds: its checks, then the steps of finish. */
  ghost predicate ChildHolds(cfg: Config, h: Held, peer: B.Peer, req: ChildRequest, env: Env, taken: set<string>, k: int) {
    if k < CHILD_STEPS then ChildPasses(cfg, h, peer, req, env, k)
    else Finishes(env, ChildDraft(cfg, h, req, env), taken, k - CHILD_STEPS)
  }

  ghost predicate ChildHoldsBefore(cfg: Config, h: Held, peer: B.Peer, req: ChildRequest, env: Env, taken: set<string>, n: int) {
    forall k :: 0 <= k < n ==> ChildHolds(cfg, h, peer, req, env, taken, k)
  }

  function ChildRefusal(k: int): Code {
    if k < CHILD_STEPS then ChildCode(k) else FinishCode(k - CHILD_STEPS)
  }

  lemma ChildStops(cfg: Config, h: Held, peer: B.Peer, req: ChildRequest, env: Env, taken: set<string>, n: int)
    requires ChildPassesBefore(cfg, h, peer, req, env, n) && 0 <= n < CHILD_STEPS
    ensures ChildHoldsBefore(cfg, h, peer, req, env, taken, n)
  {
    hide ChildPasses, Finishes, ChildDraft;
  }

  lemma ChildFinishes(cfg: Config, h: Held, peer: B.Peer, req: ChildRequest, env: Env, taken: set<string>, n: int)
    requires ChildPassesBefore(cfg, h, peer, req, env, CHILD_STEPS)
    requires FinishesBefore(env, ChildDraft(cfg, h, req, env), taken, n)
    ensures ChildHoldsBefore(cfg, h, peer, req, env, taken, CHILD_STEPS + n)
  {
    hide ChildPasses, Finishes, ChildDraft;
    forall k | 0 <= k < CHILD_STEPS + n ensures ChildHolds(cfg, h, peer, req, env, taken, k) {
      if k >= CHILD_STEPS { assert Finishes(env, ChildDraft(cfg, h, req, env), taken, k - CHILD_STEPS); }
    }
  }

  /** A token that reads back as ours and whose jti the registry has is an entry of the log, with the
      claims and the holder that entry has. */
  lemma ParentEntry(cfg: Config, codec: Codec, header: Object, verifies: (Object, string, string) -> bool, log: seq<Issuance>,
                    made: set<Signed>, entries: map<string, R.IssuedTo>, h: Held, peer: B.Peer, req: ChildRequest, env: Env) returns (p: nat)
    requires Faithful(codec) && Unforgeable(codec, verifies, made) && SignaturesDistinct(made)
    requires LoggedAreSigned(log, header, made) && Recorded(log, entries)
    requires h.parent == ParseOwn(codec, verifies, req.parentToken)
    requires h.holder == if h.parent.Some? && h.parent.value.jti in entries then Some(entries[h.parent.value.jti]) else None
    requires ChildPassesBefore(cfg, h, peer, req, env, CHILD_STEPS)
    ensures p < |log| && h.parent == Some(log[p].claims) && h.holder == Some(log[p].holder)
  {
    hide Unforgeable, Faithful, ParseOwn, DefinitionOf, Name, Unix;
    assert ChildPasses(cfg, h, peer, req, env, 2) && ChildPasses(cfg, h, peer, req, env, 4);
    var s := ParsedWasSigned(codec, verifies, made, req.parentToken);
    p :| 0 <= p < |log| && IsFor(log[p], h.parent.value.jti, entries[h.parent.value.jti]);
    assert Signed(header, log[p].claims) in made;
  }

  lemma UnixOfMin(exp: int, t: int)
    ensures Unix(Min(exp * SECOND, t)) == Min(exp, Unix(t))
  {
  }

  /** A child draft that passes its checks obeys the rule of children once finished. */
  lemma ChildObeys(cfg: Config, log: seq<Issuance>, p: nat, h: Held, peer: B.Peer, req: ChildRequest, env: Env)
    requires ValidConfig(cfg) && History(cfg, log) && p < |log| && h.parent == Some(log[p].claims) && h.holder == Some(log[p].holder)
    requires ChildPassesBefore(cfg, h, peer, req, env, CHILD_STEPS) && env.bound.Ok?
    requires ClockFits(env.now) && ClockFits(env.now + cfg.ttl)
    ensures ChildEntry(cfg, log[p], Entry(cfg, peer, env.bound.value, env, ChildDraft(cfg, h, req, env), Source(Some(p), Some(DefinitionIn(req, env)))))
    ensures var d := ChildDraft(cfg, h, req, env); d.claims.iss == cfg.iss && ClockFits(d.exp)
    ensures peer.uid == cfg.uid
  {
    hide DeliveryDir, CreatedName, RandomId, Name, AllRoleNames, FirstOf, Kept, ReportOf, SessionEntry, DefinitionOf, Unix, ClockFits;
    assert ChildPasses(cfg, h, peer, req, env, 0) && ChildPasses(cfg, h, peer, req, env, 1) && ChildPasses(cfg, h, peer, req, env, 3);
    assert ChildPasses(cfg, h, peer, req, env, 5) && ChildPasses(cfg, h, peer, req, env, 8) && ChildPasses(cfg, h, peer, req, env, 9);
    assert ChildPasses(cfg, h, peer, req, env, 10) && ChildPasses(cfg, h, peer, req, env, 11);
    assert EntryAt(cfg, log, p);
    UnixOfMin(log[p].claims.exp, env.now + cfg.ttl);
    MinFits(cfg, log[p].claims.exp, env.now);
  }

  lemma MinFits(cfg: Config, exp: int, now: int)
    requires ValidConfig(cfg) && exp > Unix(now) && ClockFits(now) && ClockFits(now + cfg.ttl)
    ensures ClockFits(Min(exp * SECOND, now + cfg.ttl)) && Unix(now) < Unix(Min(exp * SECOND, now + cfg.ttl))
  {
    UnixOfMin(exp, now + cfg.ttl);
    UnixGrows(now + 60 * SECOND, now + cfg.ttl);
  }

  /** A child's lifetime is never empty and the guard on driven sessions never refuses a child. */
  lemma ChildrenNeverHitTheGuards(cfg: Config, h: Held, peer: B.Peer, req: ChildRequest, env: Env, taken: set<string>)
    requires ValidConfig(cfg) && ClockFits(env.now) && ClockFits(env.now + cfg.ttl)
    requires ChildPassesBefore(cfg, h, peer, req, env, CHILD_STEPS)
    ensures Finishes(env, ChildDraft(cfg, h, req, env), taken, 0) && Finishes(env, ChildDraft(cfg, h, req, env), taken, 2)
  {
    hide DeliveryDir, CreatedName, Kept, ReportOf, DefinitionOf, Name, ClockFits, Unix;
    assert ChildPasses(cfg, h, peer, req, env, 2) && ChildPasses(cfg, h, peer, req, env, 3);
    MinFits(cfg, h.parent.value.exp, env.now);
  }

  /** A token stays usable while it lives: for every assertion returned whose end lies after all clock
      samples used so far and the one of this request, its token still stands for it, and a request by
      the process it went to passes every check. */
  lemma LiveTokenDelegates(s: Service, verifies: (Object, string, string) -> bool, i: nat, peer: B.Peer, req: ChildRequest, env: Env)
    requires s.Valid() && i < |s.log| && s.log[i].claims.exp > Unix(Max(s.clock, env.now))
    requires var mine := Signed(s.header, s.log[i].claims);
             && req.parentToken == Token(s.codec, mine)
             && s.codec.decode(s.codec.seal(Input(s.codec, mine))).Some?
             && verifies(s.header, Input(s.codec, mine), s.codec.decode(s.codec.seal(Input(s.codec, mine))).value)
    requires peer.uid == s.cfg.uid && Name(req.agentType) && Name(req.agentId) && DefinitionOf(env.files, req.agentType).Some?
    requires env.bound.Ok? && var b := env.bound.value;
             HolderOf(peer, b, s.log[i].holder.exp) == s.log[i].holder
    ensures s.HeldFor(verifies, req.parentToken) == Held(Some(s.log[i].claims), Some(s.log[i].holder))
    ensures ChildPassesBefore(s.cfg, s.HeldFor(verifies, req.parentToken), peer, req, env, CHILD_STEPS)
  {
    hide History, Faithful, ValidConfig, Recorded, Token, ParseOwn, Name, DefinitionOf, Unix;
    assert Signed(s.header, s.log[i].claims) in s.made;
    TokenReadsBack(s.codec, verifies, Signed(s.header, s.log[i].claims));
    UnixGrows(s.clock, Max(s.clock, env.now));
    UnixGrows(env.now, Max(s.clock, env.now));
  }
}
