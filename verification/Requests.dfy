/** Requests that overlap. A request samples the clock, a child request then looks its parent up in the
    registry, and at the end a put prunes the registry and records the new assertion; the lock makes
    the lookup and the put atomic, and nothing else. The steps of any number of requests interleave in
    any order, with clock samples in any order. */
module Requests {
  import opened Text
  import opened Delegation
  import opened Issuer
  import R = Registry
  import B = Binding

  /** How far a request has come. */
  datatype Request = Sampled(now: int) | Looked(now: int, jti: string, held: Option<R.IssuedTo>) | Done

  datatype State = State(log: seq<Issuance>, entries: map<string, R.IssuedTo>, clock: int, requests: map<nat, Request>)

  datatype Event = Sample(now: int) | Look(jti: string) | Put(x: Issuance)

  function Start(clock: int): State { State([], map[], clock, map[]) }

  /** The assertion `x` may end request `q`: it obeys the rule of its kind, a child against the entry it
      named, and is recorded for the process found when the request looked. */
  ghost predicate MayPut(cfg: Config, s: State, q: Request, x: Issuance) {
    && EveryEntry(cfg, x)
    && (forall i :: 0 <= i < |s.log| ==> s.log[i].claims.jti != x.claims.jti)
    && match q
       case Sampled(now) => x.now == now && x.parent.None? && SessionEntry(cfg, x)
       case Looked(now, jti, held) =>
         && x.now == now && held.Some? && x.parent.Some? && x.parent.value < |s.log| && s.log[x.parent.value].claims.jti == jti
         && ChildClaims(cfg, s.log[x.parent.value], x) && x.holder == held.value.(exp := x.claims.exp)
       case Done => false
  }

  ghost function Step(cfg: Config, s: State, r: nat, e: Event): Option<State> {
    match e
    case Sample(now) =>
      if r in s.requests then None else Some(s.(clock := Max(s.clock, now), requests := s.requests[r := Sampled(now)]))
    case Look(jti) =>
      if r !in s.requests || !s.requests[r].Sampled? then None
      else
        var held := if jti in s.entries then Some(s.entries[jti]) else None;
        Some(s.(requests := s.requests[r := Looked(s.requests[r].now, jti, held)]))
    case Put(x) =>
      if r !in s.requests || !MayPut(cfg, s, s.requests[r], x) then None
      else Some(s.(log := s.log + [x], entries := R.Live(s.entries, Unix(x.now))[x.claims.jti := x.holder], requests := s.requests[r := Done]))
  }

  ghost function Run(cfg: Config, clock: int, events: seq<(nat, Event)>): Option<State> {
    if events == [] then Some(Start(clock))
    else
      var last := events[|events| - 1];
      var s := Run(cfg, clock, events[..|events| - 1]);
      if s.None? then None else Step(cfg, s.value, last.0, last.1)
  }

  // -------------------------------------------------------------- what every step keeps

  ghost predicate JtisDistinct(log: seq<Issuance>) {
    forall i, j :: 0 <= i < j < |log| ==> log[i].claims.jti != log[j].claims.jti
  }

  /** What a request found when it looked is the holder of an assertion in the log. */
  ghost predicate FoundInLog(s: State, r: nat) {
    r in s.requests && s.requests[r].Looked? && s.requests[r].held.Some? ==>
      exists i :: 0 <= i < |s.log| && IsFor(s.log[i], s.requests[r].jti, s.requests[r].held.value)
  }

  ghost predicate SamplesCounted(s: State) {
    forall r :: r in s.requests ==> match s.requests[r]
      case Sampled(now) => now <= s.clock
      case Looked(now, _, _) => now <= s.clock
      case Done => true
  }

  ghost predicate Inv(cfg: Config, s: State) {
    && History(cfg, s.log) && JtisDistinct(s.log) && Recorded(s.log, s.entries) && LiveAreFound(s.log, s.entries, s.clock)
    && SamplesCounted(s) && forall r :: FoundInLog(s, r)
  }

  lemma SampleKeeps(cfg: Config, s: State, r: nat, now: int)
    requires Inv(cfg, s) && Step(cfg, s, r, Sample(now)).Some?
    ensures Inv(cfg, Step(cfg, s, r, Sample(now)).value)
  {
    hide History, Recorded, LiveAreFound;
    var s' := Step(cfg, s, r, Sample(now)).value;
    LaterStaysFound(s.log, s.entries, s.clock, s'.clock);
    forall q ensures FoundInLog(s', q) { assert FoundInLog(s, q); }
  }

  lemma LookKeeps(cfg: Config, s: State, r: nat, jti: string)
    requires Inv(cfg, s) && Step(cfg, s, r, Look(jti)).Some?
    ensures Inv(cfg, Step(cfg, s, r, Look(jti)).value)
  {
    hide History, LiveAreFound;
    var s' := Step(cfg, s, r, Look(jti)).value;
    forall q ensures FoundInLog(s', q) {
      assert FoundInLog(s, q);
    }
  }

  /** What a request found is the holder of the very entry it names as its parent. */
  lemma FoundTheParent(cfg: Config, s: State, r: nat, p: nat)
    requires Inv(cfg, s) && r in s.requests && s.requests[r].Looked? && s.requests[r].held.Some?
    requires p < |s.log| && s.log[p].claims.jti == s.requests[r].jti
    ensures s.log[p].holder == s.requests[r].held.value
  {
    hide History, LiveAreFound, Recorded;
    assert FoundInLog(s, r);
    var i :| 0 <= i < |s.log| && IsFor(s.log[i], s.requests[r].jti, s.requests[r].held.value);
  }

  lemma PutKeeps(cfg: Config, s: State, r: nat, x: Issuance)
    requires Inv(cfg, s) && Step(cfg, s, r, Put(x)).Some?
    ensures Inv(cfg, Step(cfg, s, r, Put(x)).value)
  {
    hide History, Recorded, LiveAreFound, EveryEntry, SessionEntry, ChildClaims, R.Live, Unix;
    var s' := Step(cfg, s, r, Put(x)).value;
    if x.parent.Some? { FoundTheParent(cfg, s, r, x.parent.value); }
    HistoryGrows(cfg, s.log, x);
    HoldersExpire(cfg, s.log);
    assert x.holder.exp == x.claims.exp by { EntryExpires(cfg, x); }
    RecordedGrows(s.log, x, s.entries, Unix(x.now));
    LiveStayFound(s.log, x, s.entries, s.clock, x.now);
    assert x.now <= s.clock && Max(s.clock, x.now) == s.clock;
    forall q ensures FoundInLog(s', q) {
      assert FoundInLog(s, q);
      if q in s'.requests && s'.requests[q].Looked? && s'.requests[q].held.Some? {
        var i :| 0 <= i < |s.log| && IsFor(s.log[i], s.requests[q].jti, s.requests[q].held.value);
        assert IsFor(s'.log[i], s'.requests[q].jti, s'.requests[q].held.value);
      }
    }
  }

  lemma EntryExpires(cfg: Config, x: Issuance)
    requires EveryEntry(cfg, x)
    ensures x.holder.exp == x.claims.exp
  {
  }

  lemma {:induction false} RunKeepsInv(cfg: Config, clock: int, events: seq<(nat, Event)>)
    requires Run(cfg, clock, events).Some?
    ensures Inv(cfg, Run(cfg, clock, events).value)
  {
    hide Inv, Step;
    if events == [] {
      StartIsFine(cfg, clock);
    } else {
      var last := events[|events| - 1];
      RunKeepsInv(cfg, clock, events[..|events| - 1]);
      var s := Run(cfg, clock, events[..|events| - 1]).value;
      match last.1 {
        case Sample(now) => SampleKeeps(cfg, s, last.0, now);
        case Look(jti) => LookKeeps(cfg, s, last.0, jti);
        case Put(x) => PutKeeps(cfg, s, last.0, x);
      }
    }
  }

  lemma StartIsFine(cfg: Config, clock: int)
    ensures Inv(cfg, Start(clock))
  {
  }

  /** However requests overlap, every assertion alive by all the clock samples taken so far, those of
      requests still under way included, is found in the registry with its original holder, and the log
      is one that requests made one after another could have left. */
  lemma LiveDespiteOverlap(cfg: Config, clock: int, events: seq<(nat, Event)>, i: nat)
    requires Run(cfg, clock, events).Some? && i < |Run(cfg, clock, events).value.log|
    ensures var s := Run(cfg, clock, events).value;
            && History(cfg, s.log)
            && (s.log[i].claims.exp > Unix(s.clock) ==> s.log[i].claims.jti in s.entries && s.entries[s.log[i].claims.jti] == s.log[i].holder)
  {
    hide Run, History;
    RunKeepsInv(cfg, clock, events);
  }

  // -------------------------------------------------------------- the code's requests take these steps

  /** A child request whose checks pass on what it found when it looked, and that finishes, may put the
      entry that the issuer logs for it, whatever other requests have put in between. */
  lemma ChildMayPut(cfg: Config, s: State, r: nat, p: nat, h: Held, peer: B.Peer, req: ChildRequest, env: Env, taken: set<string>)
    requires ValidConfig(cfg) && Inv(cfg, s) && ClockFits(env.now) && ClockFits(env.now + cfg.ttl) && RandomIds(env)
    requires p < |s.log| && h.parent == Some(s.log[p].claims) && h.holder.Some?
    requires r in s.requests && s.requests[r] == Looked(env.now, s.log[p].claims.jti, h.holder)
    requires ChildPassesBefore(cfg, h, peer, req, env, CHILD_STEPS) && env.bound.Ok? && ValidDefinition(DefinitionIn(req, env))
    requires FinishesBefore(env, ChildDraft(cfg, h, req, env), taken, FINISH_STEPS)
    requires forall i :: 0 <= i < |s.log| ==> s.log[i].claims.jti != Or(env.jti, "")
    ensures var x := Entry(cfg, peer, env.bound.value, env, ChildDraft(cfg, h, req, env), Source(Some(p), Some(DefinitionIn(req, env))));
            Step(cfg, s, r, Put(x)).Some?
  {
    var d, o := ChildDraft(cfg, h, req, env), Source(Some(p), Some(DefinitionIn(req, env)));
    FoundTheParent(cfg, s, r, p);
    hide Recorded, LiveAreFound, ClockFits, ValidDefinition, EveryEntry, ChildPasses, RandomIds, Unix, Finishes, DefinitionIn, History, ChildClaims;
    ChildObeys(cfg, s.log, p, h, peer, req, env);
    EntryHolds(cfg, peer, env.bound.value, env, d, o, taken);
  }

  /** So may a session request. */
  lemma SessionMayPut(cfg: Config, s: State, r: nat, peer: B.Peer, req: SessionRequest, env: Env, taken: set<string>)
    requires RandomIds(env) && r in s.requests && s.requests[r] == Sampled(env.now)
    requires SessionPassesBefore(cfg, peer, req, env, SESSION_STEPS) && env.bound.Ok?
    requires var o := SessionSource(req, env); o.definition.Some? ==> ValidDefinition(o.definition.value)
    requires FinishesBefore(env, SessionDraft(cfg, req, env), taken, FINISH_STEPS)
    requires forall i :: 0 <= i < |s.log| ==> s.log[i].claims.jti != Or(env.jti, "")
    ensures Step(cfg, s, r, Put(Entry(cfg, peer, env.bound.value, env, SessionDraft(cfg, req, env), SessionSource(req, env)))).Some?
  {
    hide EveryEntry, SessionEntry, ValidDefinition, SessionPasses, RandomIds, Unix, Finishes, DefinitionOf, SessionDraft;
    SessionObeys(cfg, peer, req, env);
    EntryHolds(cfg, peer, env.bound.value, env, SessionDraft(cfg, req, env), SessionSource(req, env), taken);
  }
}
