/** Binding and issuing together: who holds the assertions of a delegation tree, told in terms of the
    kernel's process table while it changes. */
module Custody {
  import opened Text
  import opened Delegation
  import opened Issuer
  import Json
  import Tokens
  import K = Kernel
  import B = Binding

  /** At instant `t` the process an assertion was recorded for is running. */
  ghost predicate HeldAt(kernel: nat -> K.State, x: Issuance, t: nat) {
    K.Running(kernel(t), x.holder.pid, x.holder.start)
  }

  lemma HolderIsBound(kernel: nat -> K.State, cfg: Config, peer: B.Peer, chain: seq<B.Link>, instant: nat, env: Env, d: Draft, o: Source)
    requires chain != [] && B.Snapshot(kernel(instant), chain)
    ensures HeldAt(kernel, Entry(cfg, peer, chain[|chain| - 1], env, d, o), instant)
  {
    hide Final;
  }

  /** Binds the peer and answers its session request for what it was bound to: the process the session is
      recorded for was running at an instant within the call. */
  method OpenSession(fs: B.ProcFs, s: Service, peer: B.Peer, helper: Option<(nat, nat)>, req: SessionRequest, env: Env)
    returns (out: Result<Issued, Code>, ghost instant: nat, ghost met: Env)
    requires K.Run(fs.kernel) && s.Valid() && ClockFits(env.now) && ClockFits(env.now + s.cfg.ttl) && Fresh(env, s.made)
    modifies fs, s, s.table, s.dirs
    ensures s.Valid() && old(fs.now) <= instant <= fs.now
    ensures out.Err? ==> s.log == old(s.log)
    ensures out.Ok? ==> |s.log| == |old(s.log)| + 1 && s.log[..|old(s.log)|] == old(s.log) && HeldAt(fs.kernel, s.log[|old(s.log)|], instant)
    ensures met == env.(bound := met.bound)
    ensures out.Ok? ==> SessionFor(s.cfg, peer, req, met, s.log[|old(s.log)|]) && AnswerFor(s.codec, s.header, s.log[|old(s.log)|], out.value)
    ensures out.Err? ==> SessionRefusedFor(s.cfg, peer, req, met, old(s.dirs.entries), out.error)
  {
    var bound, chain, seenAt := fs.BindRuntime(peer, helper);
    SameIds(env, bound, s.made);
    if bound.Ok? { MeetsRuleNonEmpty(peer, helper, chain); }
    hide B.ChainMeetsRule, B.RuntimeAt, SessionHolds, SessionHoldsBefore, SessionFor, SessionRefusedFor, Final, Fresh, ClockFits, SessionDraft;
    var env' := env.(bound := bound);
    met := env';
    ghost var failed;
    out, failed := s.IssueSession(peer, req, env');
    instant := if bound.Ok? then seenAt else fs.now;
    if out.Ok? { HolderIsBound(fs.kernel, s.cfg, peer, chain, seenAt, env', SessionDraft(s.cfg, req, env'), SessionSource(req, env')); }
  }

  /** Binds the peer and answers its child request, likewise. */
  method OpenChild(fs: B.ProcFs, s: Service, verifies: (Json.Object, string, string) -> bool, peer: B.Peer, helper: Option<(nat, nat)>,
                   req: ChildRequest, env: Env)
    returns (out: Result<Issued, Code>, ghost instant: nat, ghost p: int, ghost met: Env)
    requires K.Run(fs.kernel) && s.Valid() && ClockFits(env.now) && ClockFits(env.now + s.cfg.ttl) && Fresh(env, s.made)
    requires Tokens.Unforgeable(s.codec, verifies, s.made)
    modifies fs, s, s.table, s.dirs
    ensures s.Valid() && old(fs.now) <= instant <= fs.now
    ensures out.Err? ==> s.log == old(s.log)
    ensures out.Ok? ==> |s.log| == |old(s.log)| + 1 && s.log[..|old(s.log)|] == old(s.log) && HeldAt(fs.kernel, s.log[|old(s.log)|], instant)
    ensures out.Ok? ==> 0 <= p < |old(s.log)| && s.log[|old(s.log)|].parent == Some(p)
    ensures met == env.(bound := met.bound)
    ensures out.Ok? ==> ChildFor(s.cfg, old(s.log)[p], peer, req, met, s.log[|old(s.log)|]) && AnswerFor(s.codec, s.header, s.log[|old(s.log)|], out.value)
    ensures out.Err? ==> ChildRefusedFor(s.cfg, old(s.HeldFor(verifies, req.parentToken)), peer, req, met, old(s.dirs.entries), out.error)
  {
    var bound, chain, seenAt := fs.BindRuntime(peer, helper);
    SameIds(env, bound, s.made);
    if bound.Ok? { MeetsRuleNonEmpty(peer, helper, chain); }
    hide B.ChainMeetsRule, B.RuntimeAt, ChildHolds, ChildHoldsBefore, ChildFor, ChildRefusedFor, Final, Fresh, ClockFits, ChildDraft, Tokens.Unforgeable;
    var env' := env.(bound := bound);
    met := env';
    ghost var failed;
    ghost var h := s.HeldFor(verifies, req.parentToken);
    out, failed, p := s.IssueChild(verifies, peer, req, env');
    instant := if bound.Ok? then seenAt else fs.now;
    if out.Ok? {
      HolderIsBound(fs.kernel, s.cfg, peer, chain, seenAt, env', ChildDraft(s.cfg, h, req, env'), Source(Some(p), Some(DefinitionIn(req, env'))));
    }
  }

  lemma SameIds(env: Env, bound: Result<B.Link, B.Refusal>, made: set<Tokens.Signed>)
    requires Fresh(env, made)
    ensures Fresh(env.(bound := bound), made)
  {
  }

  lemma MeetsRuleNonEmpty(peer: B.Peer, helper: Option<(nat, nat)>, chain: seq<B.Link>)
    requires B.ChainMeetsRule(peer, helper, chain)
    ensures chain != []
  {
  }

  /** Any two assertions of one tree, each bound at its own instant, are held by one and the same process
      instance, running at every instant between them: no pid reuse, no restart. */
  lemma OneLivingHolder(kernel: nat -> K.State, cfg: Config, log: seq<Issuance>, a: nat, i: nat, t0: nat, t: nat, t1: nat)
    requires K.Run(kernel) && History(cfg, log) && a < |log| && i < |log| && Root(log, a) == Root(log, i)
    requires t0 <= t <= t1 && HeldAt(kernel, log[a], t0) && HeldAt(kernel, log[i], t1)
    ensures HeldAt(kernel, log[a], t) && HeldAt(kernel, log[i], t)
    ensures log[a].holder.pid == log[i].holder.pid && log[a].holder.start == log[i].holder.start
  {
    hide History;
    TreeSharesAll(cfg, log, a, i);
    K.RunningBefore(kernel, t0, t, t1, log[a].holder.pid, log[a].holder.start);
  }
}
