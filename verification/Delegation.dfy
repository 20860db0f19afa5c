/** What the issuer has handed out over a run: the log of its assertions, the rule each entry obeys
    against the entries before it, and what follows for whole delegation trees. */
module Delegation {
  import opened Text
  import opened Decimal
  import opened Names
  import opened Claims
  import opened Narrowing
  import opened Paths
  import SpawnDirs
  import R = Registry

  /** `delegable` is None when every role may be delegated; `ttl` is in nanoseconds. */
  datatype Config = Config(iss: string, runtimeRoles: seq<string>, delegable: Option<seq<string>>, ttl: int, uid: nat, root: string)

  datatype Definition = Definition(name: string, roles: seq<string>)

  /** An assertion that was returned to a caller: `parent` is the log index of the assertion it was
      delegated from, `definition` the role definition loaded for it, `now` the clock sample in
      nanoseconds and `dirId` the random part of its directory's name. */
  datatype Issuance = Issuance(claims: Claims, holder: R.IssuedTo, parent: Option<nat>, definition: Option<Definition>,
                               now: int, dirId: string, report: Option<Report>)

  /** Seconds since the epoch, rounded down. */
  function Unix(now: int): int { now / SECOND }

  predicate ValidConfig(cfg: Config) {
    && 60 * SECOND <= cfg.ttl <= MAX_LIFETIME_SECONDS * SECOND
    && AllRoleNames(cfg.runtimeRoles) && (cfg.delegable.Some? ==> AllRoleNames(cfg.delegable.value))
    && Absolute(cfg.root) && Clean(cfg.root) == cfg.root
  }

  predicate ValidDefinition(d: Definition) {
    Name(d.name) && AllRoleNames(d.roles) && Distinct(d.roles)
  }

  /** The policies that narrow a child of a parent with these roles, in the order applied. */
  function Policies(cfg: Config, parentRoles: seq<string>): seq<Policy> {
    [Policy(POLICY_DELEGABLE, cfg.delegable), Policy(POLICY_PARENT, Some(parentRoles))]
  }

  predicate SessionOrigin(origin: string) {
    origin == "scheduled" || origin == "loop" || origin == "trigger" || origin == "agent" || origin == ORIGIN_DRIVEN
  }

  function Min(a: int, b: int): int { if a < b then a else b }

  function DeliveryDir(root: string, name: string): string { Clean(root + "/" + name) }

  // -------------------------------------------------------------- the rule of one entry

  predicate EveryEntry(cfg: Config, x: Issuance) {
    var c := x.claims;
    && c.iss == cfg.iss && c.iat == Unix(x.now) && c.iat < c.exp && c.cia == ContractFor(c.orig)
    && SpawnDirs.RandomId(c.jti) && c.sid != ""
    && SpawnDirs.RandomId(x.dirId) && c.dir == DeliveryDir(cfg.root, SpawnDirs.CreatedName(c.iat, x.dirId))
    && x.holder.uid == cfg.uid && x.holder.exp == c.exp
    && (x.definition.Some? ==> ValidDefinition(x.definition.value))
  }

  predicate SessionEntry(cfg: Config, x: Issuance) {
    var c := x.claims;
    && x.parent.None? && x.report.None?
    && c.grade == "workload" && SessionOrigin(c.orig) && c.spawn == ""
    && Name(c.rt.id) && Version(c.rt.version) && c.sub == "runtime:" + c.rt.id
    && c.exp == Unix(x.now + cfg.ttl)
    && (match x.definition
        case None => c.roles == cfg.runtimeRoles && c.act == Some(Actor(c.sub, None))
        case Some(d) => c.roles == d.roles && c.act == Some(Actor("agent:" + d.name, None)))
  }

  predicate ChildClaims(cfg: Config, p: Issuance, x: Issuance) {
    var c := x.claims;
    && x.definition.Some?
    && c.roles == Kept(x.definition.value.roles, Policies(cfg, p.claims.roles))
    && x.report == ReportOf(x.definition.value.roles, Policies(cfg, p.claims.roles))
    && c.grade == "harness" && c.orig == "agent" && Name(c.spawn)
    && c.sub == p.claims.sub && c.rt == p.claims.rt && c.sid == p.claims.sid
    && c.act == Some(Actor("agent:" + x.definition.value.name, p.claims.act))
    && c.iat < p.claims.exp && c.exp == Min(p.claims.exp, Unix(x.now + cfg.ttl))
  }

  predicate ChildEntry(cfg: Config, p: Issuance, x: Issuance) {
    ChildClaims(cfg, p, x) && x.holder == p.holder.(exp := x.claims.exp)
  }

  predicate EntryAt(cfg: Config, log: seq<Issuance>, i: nat)
    requires i < |log|
  {
    && EveryEntry(cfg, log[i])
    && (match log[i].parent
        case None => SessionEntry(cfg, log[i])
        case Some(p) => p < i && ChildEntry(cfg, log[p], log[i]))
  }

  ghost predicate History(cfg: Config, log: seq<Issuance>) {
    forall i :: 0 <= i < |log| ==> EntryAt(cfg, log, i)
  }

  lemma HistoryGrows(cfg: Config, log: seq<Issuance>, x: Issuance)
    requires History(cfg, log)
    requires EveryEntry(cfg, x)
    requires match x.parent case None => SessionEntry(cfg, x) case Some(p) => p < |log| && ChildEntry(cfg, log[p], x)
    ensures History(cfg, log + [x])
  {
    hide EveryEntry, SessionEntry, ChildEntry;
    forall i | 0 <= i < |log + [x]| ensures EntryAt(cfg, log + [x], i) {
      if i < |log| { assert EntryAt(cfg, log, i); }
    }
  }

  // -------------------------------------------------------------- delegation never widens

  /** Entry `a` is entry `i` or one it descends from. */
  predicate Ancestor(log: seq<Issuance>, a: nat, i: nat)
    requires i < |log|
    decreases i
  {
    a == i || (log[i].parent.Some? && log[i].parent.value < i && Ancestor(log, a, log[i].parent.value))
  }

  /** A child's roles are its definition's, are its parent's and may be delegated: exactly those. */
  lemma ChildRolesExactly(cfg: Config, log: seq<Issuance>, i: nat, role: string)
    requires History(cfg, log) && i < |log| && log[i].parent.Some?
    ensures log[i].parent.value < i && log[i].definition.Some?
    ensures role in log[i].claims.roles <==>
              && role in log[i].definition.value.roles
              && role in log[log[i].parent.value].claims.roles
              && (cfg.delegable.Some? ==> role in cfg.delegable.value)
  {
    hide EveryEntry, SessionEntry;
    assert EntryAt(cfg, log, i);
    var policies := Policies(cfg, log[log[i].parent.value].claims.roles);
    KeptExactly(log[i].definition.value.roles, policies, role);
    assert Allows(policies[0].allow, role) <==> (cfg.delegable.Some? ==> role in cfg.delegable.value);
    assert Allows(policies[1].allow, role) <==> role in log[log[i].parent.value].claims.roles;
  }

  /** No role of an assertion is missing from any assertion it descends from, up to the session. */
  lemma {:induction false} RolesBelowAncestors(cfg: Config, log: seq<Issuance>, a: nat, i: nat, role: string)
    requires History(cfg, log) && i < |log| && Ancestor(log, a, i)
    requires role in log[i].claims.roles
    ensures a <= i && role in log[a].claims.roles
    decreases i
  {
    if a != i {
      ChildRolesExactly(cfg, log, i, role);
      RolesBelowAncestors(cfg, log, a, log[i].parent.value, role);
    }
  }

  /** The report of a child accounts for every role of its definition that it does not hold. */
  lemma ReportIsComplete(cfg: Config, log: seq<Issuance>, i: nat)
    requires History(cfg, log) && i < |log| && log[i].parent.Some?
    ensures log[i].definition.Some? && WellReported(log[i].report)
    ensures multiset(log[i].definition.value.roles) == multiset(log[i].claims.roles) + multiset(Dropped(log[i].report))
    ensures log[i].report.None? <==> log[i].claims.roles == log[i].definition.value.roles
  {
    hide EveryEntry, SessionEntry, WellReported;
    assert EntryAt(cfg, log, i);
    Narrowing.NothingLost(log[i].definition.value.roles, Policies(cfg, log[log[i].parent.value].claims.roles));
  }

  /** The steps that dropped something, each named with its policy. */
  function StepsOf(delegable: seq<string>, above: seq<string>): seq<PolicyStep> {
    (if delegable == [] then [] else [PolicyStep("identity.delegable_roles", delegable)])
    + if above == [] then [] else [PolicyStep("parent_token.roles", above)]
  }

  /** A child's report blames each role it does not hold on the policy that withheld it: on the delegable
      roles of the deployment first, and on its parent's roles for those that may be delegated. */
  lemma ReportBlames(cfg: Config, log: seq<Issuance>, i: nat) returns (undelegable: seq<string>, above: seq<string>)
    requires History(cfg, log) && i < |log| && log[i].parent.Some?
    ensures log[i].definition.Some? && log[i].parent.value < i
    ensures forall r :: r in undelegable <==> r in log[i].definition.value.roles && cfg.delegable.Some? && r !in cfg.delegable.value
    ensures forall r :: r in above <==>
              && r in log[i].definition.value.roles && (cfg.delegable.Some? ==> r in cfg.delegable.value)
              && r !in log[log[i].parent.value].claims.roles
    ensures var steps := StepsOf(undelegable, above);
            if steps == [] then log[i].report.None?
            else log[i].report.Some? && log[i].report.value.steps == steps && log[i].report.value.dropped == undelegable + above
                 && log[i].report.value.policy == if |steps| == 1 then steps[0].policy else "identity.delegable_roles,parent_token.roles"
  {
    hide EveryEntry, SessionEntry;
    assert EntryAt(cfg, log, i);
    var want, parentRoles := log[i].definition.value.roles, log[log[i].parent.value].claims.roles;
    undelegable := Chosen(want, cfg.delegable, false);
    var left := Chosen(want, cfg.delegable, true);
    above := Chosen(left, Some(parentRoles), false);
    WhichDropped(want, cfg.delegable, parentRoles, undelegable, above);
    TwoPolicies(cfg, want, parentRoles);
    hide Chosen, Kept, ReportOf;
    assert log[i].report == Added(Added(None, "identity.delegable_roles", undelegable), "parent_token.roles", above);
    AddedTwice(undelegable, above);
  }

  lemma WhichDropped(want: seq<string>, delegable: Option<seq<string>>, parentRoles: seq<string>, undelegable: seq<string>, above: seq<string>)
    requires undelegable == Chosen(want, delegable, false) && above == Chosen(Chosen(want, delegable, true), Some(parentRoles), false)
    ensures forall r :: r in undelegable <==> r in want && delegable.Some? && r !in delegable.value
    ensures forall r :: r in above <==> r in want && (delegable.Some? ==> r in delegable.value) && r !in parentRoles
  {
    hide Chosen;
    forall r
      ensures r in undelegable <==> r in want && delegable.Some? && r !in delegable.value
      ensures r in above <==> r in want && (delegable.Some? ==> r in delegable.value) && r !in parentRoles
    {
      ChosenExactly(want, delegable, false, r);
      ChosenExactly(want, delegable, true, r);
      ChosenExactly(Chosen(want, delegable, true), Some(parentRoles), false, r);
    }
  }

  lemma AddedTwice(undelegable: seq<string>, above: seq<string>)
    ensures var steps := StepsOf(undelegable, above);
            var report := Added(Added(None, "identity.delegable_roles", undelegable), "parent_token.roles", above);
            if steps == [] then report.None?
            else report.Some? && report.value.steps == steps && report.value.dropped == undelegable + above
                 && report.value.policy == if |steps| == 1 then steps[0].policy else "identity.delegable_roles,parent_token.roles"
  {
    if undelegable == [] { assert undelegable + above == above; }
    if above == [] { assert undelegable + above == undelegable; }
    assert "identity.delegable_roles" + "," + "parent_token.roles" == "identity.delegable_roles,parent_token.roles";
  }

  lemma TwoPolicies(cfg: Config, want: seq<string>, parentRoles: seq<string>)
    ensures ReportOf(want, Policies(cfg, parentRoles))
         == Added(Added(None, "identity.delegable_roles", Chosen(want, cfg.delegable, false)),
                  "parent_token.roles", Chosen(Chosen(want, cfg.delegable, true), Some(parentRoles), false))
  {
    hide Chosen, Added;
    var policies := Policies(cfg, parentRoles);
    var one := policies[..1];
    assert one == [policies[0]] && one[..0] == [] && policies[..|policies| - 1] == one && one[..|one| - 1] == [];
    assert Kept(want, []) == want && ReportOf(want, []) == None;
    assert LastDrop(want, one) == Chosen(want, cfg.delegable, false);
    assert Kept(want, one) == Chosen(want, cfg.delegable, true);
    assert ReportOf(want, one) == Added(None, POLICY_DELEGABLE, LastDrop(want, one));
  }

  // -------------------------------------------------------------- lifetimes

  /** Every assertion lives, at most for the maximum, and no longer than any it descends from. */
  lemma {:induction false} Lifetimes(cfg: Config, log: seq<Issuance>, a: nat, i: nat)
    requires ValidConfig(cfg) && History(cfg, log) && i < |log| && Ancestor(log, a, i)
    ensures a <= i && log[i].claims.iat < log[i].claims.exp <= log[i].claims.iat + MAX_LIFETIME_SECONDS
    ensures log[i].claims.exp <= log[a].claims.exp
    ensures log[i].claims.iat < log[a].claims.exp
    decreases i
  {
    hide SpawnDirs.RandomId, DeliveryDir, Kept, ReportOf;
    assert EntryAt(cfg, log, i);
    if a != i { Lifetimes(cfg, log, a, log[i].parent.value); }
  }

  /** A delivery directory is named with its assertion's own iat, so what the sweep removes had
      expired. */
  lemma SweptHadExpired(cfg: Config, log: seq<Issuance>, i: nat, now: int)
    requires ValidConfig(cfg) && History(cfg, log) && i < |log|
    ensures log[i].claims.dir == DeliveryDir(cfg.root, SpawnDirs.CreatedName(log[i].claims.iat, log[i].dirId))
    ensures SpawnDirs.Stale(SpawnDirs.CreatedName(log[i].claims.iat, log[i].dirId), now, SpawnDirs.MAX_AGE) ==> log[i].claims.exp < Unix(now)
  {
    hide DeliveryDir, SpawnDirs.CreatedName, SpawnDirs.Stale, SpawnDirs.RandomId, Kept, ReportOf;
    Lifetimes(cfg, log, i, i);
    assert EntryAt(cfg, log, i);
    var c := log[i].claims;
    if SpawnDirs.Stale(SpawnDirs.CreatedName(c.iat, log[i].dirId), now, SpawnDirs.MAX_AGE) {
      SpawnDirs.RemovedHasExpired(c.iat, c.exp, log[i].dirId, now);
    }
  }

  // -------------------------------------------------------------- one tree, one process

  /** Every assertion of a tree is held by one process, by user, pid, start time and executable, and
      shares its subject, session and runtime; only sessions are graded workload. */
  lemma {:induction false} OneProcessPerTree(cfg: Config, log: seq<Issuance>, a: nat, i: nat)
    requires History(cfg, log) && i < |log| && Ancestor(log, a, i)
    ensures a <= i && log[i].holder == log[a].holder.(exp := log[i].claims.exp) && log[i].holder.uid == cfg.uid
    ensures log[i].claims.sub == log[a].claims.sub && log[i].claims.sid == log[a].claims.sid && log[i].claims.rt == log[a].claims.rt
    decreases i
  {
    hide SpawnDirs.RandomId, DeliveryDir, Kept, ReportOf;
    assert EntryAt(cfg, log, i);
    if a != i { OneProcessPerTree(cfg, log, a, log[i].parent.value); }
  }

  /** The root session an entry descends from. */
  function Root(log: seq<Issuance>, i: nat): (r: nat)
    requires i < |log|
    ensures r <= i && Ancestor(log, r, i)
    decreases i
  {
    if log[i].parent.Some? && log[i].parent.value < i then Root(log, log[i].parent.value) else i
  }

  lemma {:induction false} AncestorsShareRoot(log: seq<Issuance>, a: nat, i: nat)
    requires i < |log| && Ancestor(log, a, i)
    ensures a <= i && Root(log, a) == Root(log, i)
    decreases i
  {
    if a != i { AncestorsShareRoot(log, a, log[i].parent.value); }
  }

  /** Any two assertions of one tree, whichever way they are related, are held by one process and
      share their subject, session and runtime. */
  lemma TreeSharesAll(cfg: Config, log: seq<Issuance>, i: nat, j: nat)
    requires History(cfg, log) && i < |log| && j < |log| && Root(log, i) == Root(log, j)
    ensures log[i].holder.(exp := 0) == log[j].holder.(exp := 0)
    ensures log[i].claims.sub == log[j].claims.sub && log[i].claims.sid == log[j].claims.sid && log[i].claims.rt == log[j].claims.rt
  {
    OneProcessPerTree(cfg, log, Root(log, i), i);
    OneProcessPerTree(cfg, log, Root(log, j), j);
  }

  // -------------------------------------------------------------- act chains

  /** The subjects of an act chain, outermost first. */
  function Subjects(a: Option<Actor>): (subs: seq<string>)
    decreases a
  {
    if a.None? then [] else [a.value.sub] + Subjects(a.value.act)
  }

  predicate NamesHuman(sub: string) { HasPrefix(sub, "human:") }

  ghost predicate SomeHuman(a: Option<Actor>) {
    exists i :: 0 <= i < |Subjects(a)| && NamesHuman(Subjects(a)[i])
  }

  method ActorChainNamesHuman(a: Option<Actor>) returns (names: bool)
    ensures names <==> SomeHuman(a)
  {
    hide NamesHuman;
    var rest := a;
    ghost var seen: seq<string> := [];
    while rest.Some?
      invariant Subjects(a) == seen + Subjects(rest)
      invariant forall i :: 0 <= i < |seen| ==> !NamesHuman(seen[i])
      decreases rest
    {
      assert Subjects(rest) == [rest.value.sub] + Subjects(rest.value.act);
      assert Subjects(a)[|seen|] == rest.value.sub;
      if HasPrefix(rest.value.sub, "human:") {
        assert NamesHuman(Subjects(a)[|seen|]) by { HumanIs(rest.value.sub); }
        return true;
      }
      assert !NamesHuman(rest.value.sub) by { HumanIs(rest.value.sub); }
      seen := seen + [rest.value.sub];
      rest := rest.value.act;
    }
    return false;
  }

  lemma HumanIs(sub: string)
    ensures NamesHuman(sub) <==> HasPrefix(sub, "human:")
  {
  }

  /** The agents an entry's chain must name: its own, then those of the entries above it, then the
      session's own actor. */
  function AgentsAbove(log: seq<Issuance>, i: nat): seq<string>
    requires i < |log|
    decreases i
  {
    var own := if log[i].definition.Some? then "agent:" + log[i].definition.value.name else log[i].claims.sub;
    [own] + if log[i].parent.Some? && log[i].parent.value < i then AgentsAbove(log, log[i].parent.value) else []
  }

  lemma NobodyIsHuman(name: string)
    ensures !NamesHuman("agent:" + name) && !NamesHuman("runtime:" + name)
  {
    assert ("agent:" + name)[0] == 'a' && ("runtime:" + name)[0] == 'r';
    assert forall s: string :: NamesHuman(s) ==> s[..6] == "human:" && s[0] == s[..6][0];
  }

  /** The act chain names exactly the agents of the delegation, innermost last, and no human. */
  lemma {:induction false} ChainNamesTheDelegation(cfg: Config, log: seq<Issuance>, i: nat)
    requires History(cfg, log) && i < |log|
    ensures log[i].claims.act.Some?
    ensures Subjects(log[i].claims.act) == AgentsAbove(log, i)
    ensures !SomeHuman(log[i].claims.act) && !NamesHuman(log[i].claims.sub)
    decreases i
  {
    hide SpawnDirs.RandomId, DeliveryDir, Kept, ReportOf, NamesHuman, Name, Version;
    assert EntryAt(cfg, log, i);
    var c := log[i].claims;
    NobodyIsHuman(c.rt.id);
    match log[i].parent {
      case None =>
        if log[i].definition.Some? { NobodyIsHuman(log[i].definition.value.name); }
        assert Subjects(c.act) == [c.act.value.sub] + Subjects(None);
      case Some(p) =>
        NobodyIsHuman(log[i].definition.value.name);
        ChainNamesTheDelegation(cfg, log, p);
        assert Subjects(c.act) == ["agent:" + log[i].definition.value.name] + Subjects(log[p].claims.act);
        assert forall k :: 1 <= k < |Subjects(c.act)| ==> Subjects(c.act)[k] == Subjects(log[p].claims.act)[k - 1];
    }
  }

  /** The second contract major is claimed exactly by driven sessions: children of a driven session
      claim the first. */
  lemma MajorTwoIsDriven(cfg: Config, log: seq<Issuance>, i: nat)
    requires History(cfg, log) && i < |log|
    ensures log[i].claims.cia == CONTRACT_VERSION_DRIVEN <==> log[i].claims.orig == ORIGIN_DRIVEN
    ensures log[i].claims.cia == CONTRACT_VERSION_DRIVEN ==> log[i].parent.None? && log[i].claims.grade == "workload"
    ensures log[i].parent.Some? ==> log[i].claims.cia == CONTRACT_VERSION
    ensures log[i].claims.orig != "human"
  {
    hide SpawnDirs.RandomId, DeliveryDir, Kept, ReportOf, Name, Version;
    assert EntryAt(cfg, log, i);
  }
}
