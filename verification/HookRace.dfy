/** Separate hook processes racing to deliver one directory for one agent. Each process takes
    atomic steps on the shared state: the agent's record, which only link(2) creates, and the
    delivery directories. Steps of any number of processes interleave in any order, and a process
    may stop taking steps at any point. */
module HookRace {
  import opened Text

  type Dir = nat

  /** Where a process is in ensureAgent (the first seven) or in subagentStop. */
  datatype Proc =
    | Looking
    | Issuing
    | Publishing(own: Dir)
    | Losing(own: Dir)
    | Failing(own: Dir)
    | Rereading
    | Returned(dir: Option<Dir>)
    | StopLooking
    | StopDeleting(read: Dir)
    | StopRemoving(read: Dir)
    | StopReturned

  /** A call that succeeded: the directory it returned and how many records had been deleted when
      it read or created the record. */
  datatype Delivery = Delivery(proc: nat, dir: Dir, deletions: nat)

  /** `removed` are the directories a hook has begun to remove, `recorded` those that were ever
      recorded and `orphans` those whose record was deleted by a stop that had read another one.
      `clean` says that so far every removal succeeded and every issued path was deliverable. */
  datatype State = State(record: Option<Dir>, live: set<Dir>, issued: set<Dir>, removed: set<Dir>, recorded: set<Dir>,
                         orphans: set<Dir>, clean: bool, deletions: nat, log: seq<Delivery>, procs: map<nat, Proc>)

  const INITIAL := State(None, {}, {}, {}, {}, {}, true, 0, [], map[])

  /** The record file after link(2): created when there is none, never replaced. */
  function LinkNew<T>(record: Option<T>, own: T): (Option<T>, bool) {
    if record.None? then (Some(own), true) else (record, false)
  }

  function Goto(s: State, p: nat, q: Proc): State {
    s.(procs := s.procs[p := q])
  }

  function Deliver(s: State, p: nat, d: Dir): State {
    Goto(s, p, Returned(Some(d))).(log := s.log + [Delivery(p, d, s.deletions)])
  }

  /** RemoveDelivery of `d`; a failure may leave the directory. */
  function Discard(s: State, d: Dir, ok: bool): State {
    if ok then s.(live := s.live - {d}, removed := s.removed + {d}) else s.(removed := s.removed + {d}, clean := false)
  }

  datatype Event =
    | SpawnEnsure | SpawnStop | Get(ok: bool) | Issue(dir: Dir, deliverable: bool) | IssueFails
    | PutNew(ok: bool) | Remove(ok: bool) | Delete(ok: bool)

  /** What event `e` of process `p` makes of the state, if it can happen there. */
  function Step(s: State, p: nat, e: Event): Option<State> {
    match e
    case SpawnEnsure => if p in s.procs then None else Some(Goto(s, p, Looking))
    case SpawnStop => if p in s.procs then None else Some(Goto(s, p, StopLooking))
    case Get(ok) =>
      if p !in s.procs then None
      else if s.procs[p].Looking? then
        if !ok then Some(Goto(s, p, Returned(None)))
        else if s.record.Some? then Some(Deliver(s, p, s.record.value))
        else Some(Goto(s, p, Issuing))
      else if s.procs[p].Rereading? then
        if !ok || s.record.None? then Some(Goto(s, p, Returned(None))) else Some(Deliver(s, p, s.record.value))
      else if s.procs[p].StopLooking? then
        if !ok || s.record.None? then Some(Goto(s, p, StopReturned)) else Some(Goto(s, p, StopDeleting(s.record.value)))
      else None
    case IssueFails => if p in s.procs && s.procs[p].Issuing? then Some(Goto(s, p, Returned(None))) else None
    case Issue(d, deliverable) =>
      if p !in s.procs || !s.procs[p].Issuing? || d in s.issued then None
      else
        var s' := s.(live := s.live + {d}, issued := s.issued + {d});
        if deliverable then Some(Goto(s', p, Publishing(d))) else Some(Goto(s', p, Returned(None)).(clean := false))
    case PutNew(ok) =>
      if p !in s.procs || !s.procs[p].Publishing? then None
      else
        var d := s.procs[p].own;
        var linked := LinkNew(s.record, d);
        if !ok then Some(Goto(s, p, Failing(d)))
        else if linked.1 then Some(Deliver(s.(record := linked.0, recorded := s.recorded + {d}), p, d))
        else Some(Goto(s, p, Losing(d)))
    case Remove(ok) =>
      if p !in s.procs then None
      else (match s.procs[p]
        case Losing(d) => Some(Goto(Discard(s, d, ok), p, Rereading))
        case Failing(d) => Some(Goto(Discard(s, d, ok), p, Returned(None)))
        case StopRemoving(d) => Some(Goto(Discard(s, d, ok), p, StopReturned))
        case _ => None)
    case Delete(ok) =>
      if p !in s.procs || !s.procs[p].StopDeleting? then None
      else if !ok then Some(Goto(s, p, StopReturned))
      else
        var d := s.procs[p].read;
        var s' := Goto(s, p, StopRemoving(d));
        if s.record.None? then Some(s')
        else Some(s'.(record := None, deletions := s.deletions + 1,
                      orphans := s.orphans + (if s.record.value == d then {} else {s.record.value})))
  }

  /** The state after a run of events, each by the process named with it. */
  ghost function Run(events: seq<(nat, Event)>): Option<State> {
    if events == [] then Some(INITIAL)
    else
      var last := events[|events| - 1];
      var s := Run(events[..|events| - 1]);
      if s.None? then None else Step(s.value, last.0, last.1)
  }

  // -------------------------------------------------------------- what every step keeps

  /** The directory a process has issued and not yet given up. */
  function Own(q: Proc): Option<Dir> {
    match q
    case Publishing(d) => Some(d)
    case Losing(d) => Some(d)
    case Failing(d) => Some(d)
    case _ => None
  }

  /** Directories in a process's hands are fresh: nobody else has them and no record ever had. */
  ghost predicate OwnedAreFresh(s: State) {
    && (forall p :: p in s.procs && Own(s.procs[p]).Some? ==>
          var d := Own(s.procs[p]).value; d in s.live && d in s.issued && d !in s.removed && d !in s.recorded)
    && (forall p, q :: p in s.procs && q in s.procs && p != q && Own(s.procs[p]).Some? ==> Own(s.procs[p]) != Own(s.procs[q]))
  }

  ghost predicate RecordIsGood(s: State) {
    && (s.record.Some? ==> s.record.value in s.recorded && s.record.value in s.live && s.record.value !in s.removed)
    && s.recorded <= s.issued && s.live <= s.issued && s.removed <= s.issued && s.orphans <= s.recorded
    && (s.record.Some? ==> s.record.value !in s.orphans)
  }

  /** A stop removes only what was once recorded and is recorded no more. */
  ghost predicate StopsAreSafe(s: State) {
    forall p :: p in s.procs ==>
      && (s.procs[p].StopDeleting? ==> s.procs[p].read in s.recorded)
      && (s.procs[p].StopRemoving? ==> s.procs[p].read in s.recorded && s.record != Some(s.procs[p].read))
  }

  /** Calls that succeeded with no deletion between them returned the same directory. */
  ghost predicate LogAgrees(s: State) {
    && (forall i :: 0 <= i < |s.log| ==> s.log[i].deletions <= s.deletions)
    && (forall i, j :: 0 <= i < |s.log| && 0 <= j < |s.log| && s.log[i].deletions == s.log[j].deletions ==> s.log[i].dir == s.log[j].dir)
    && (forall i :: 0 <= i < |s.log| && s.log[i].deletions == s.deletions ==> s.record == Some(s.log[i].dir))
    && (forall p :: p in s.procs && s.procs[p].Returned? && s.procs[p].dir.Some? ==>
          exists i :: Logged(s, i, p, s.procs[p].dir.value))
  }

  ghost predicate Logged(s: State, i: int, p: nat, d: Dir) {
    0 <= i < |s.log| && s.log[i].proc == p && s.log[i].dir == d
  }

  /** While nothing has gone wrong, every directory left is the recorded one, in some process's
      hands, or an orphan. */
  ghost predicate NothingLost(s: State) {
    s.clean ==> forall d :: d in s.live ==> s.record == Some(d) || d in s.orphans || exists p :: Holds(s, p, d)
  }

  /** Process `p` still has to remove `d`, or to try to record it. */
  ghost predicate Holds(s: State, p: nat, d: Dir) {
    p in s.procs && (Own(s.procs[p]) == Some(d) || s.procs[p] == StopRemoving(d))
  }

  ghost predicate Inv(s: State) {
    OwnedAreFresh(s) && RecordIsGood(s) && StopsAreSafe(s) && LogAgrees(s) && NothingLost(s)
  }

  /** A step moves one process and changes little else. */
  lemma StepEffect(s: State, p: nat, e: Event)
    requires Step(s, p, e).Some?
    ensures var s' := Step(s, p, e).value;
            && s'.procs == s.procs[p := s'.procs[p]]
            && (s'.log == s.log || (s'.record.Some? && s'.log == s.log + [Delivery(p, s'.record.value, s.deletions)]
                                    && s'.procs[p] == Returned(s'.record)))
            && (s'.log == s.log ==> s'.procs[p].Returned? ==> s'.procs[p].dir.None?)
            && (|| (s'.record == s.record && s'.deletions == s.deletions)
                || (s.record.None? && s'.record.Some? && s'.log != s.log && s'.deletions == s.deletions)
                || (s.record.Some? && s'.record.None? && s'.deletions == s.deletions + 1))
  {
    match e {
      case SpawnEnsure => case SpawnStop => case Get(_) => case Issue(_, _) => case IssueFails =>
      case PutNew(_) => case Remove(_) => case Delete(_) =>
    }
  }

  /** What a step does to the directories, by what the process held and holds. */
  lemma StepDirectories(s: State, p: nat, e: Event)
    requires Step(s, p, e).Some?
    ensures var s' := Step(s, p, e).value;
            var q := s'.procs[p];
            var own := if p in s.procs then Own(s.procs[p]) else None;
            var stops := p in s.procs && s.procs[p].StopRemoving?;
            && s.issued <= s'.issued && s.recorded <= s'.recorded && s.orphans <= s'.orphans
            && (Own(q).Some? && Own(q) != own ==>
                  && own.None? && Own(q).value !in s.issued && Own(q).value in s'.live
                  && Own(q).value in s'.issued && s'.removed == s.removed && s'.recorded == s.recorded)
            && (Own(q).None? && own.Some? ==> s'.recorded == s.recorded || s'.record == own)
            && (forall d :: d in s.live && d !in s'.live ==> (Own(q).None? && own == Some(d)) || (stops && s.procs[p].read == d))
            && (forall d :: d in s'.removed && d !in s.removed ==> (Own(q).None? && own == Some(d)) || (stops && s.procs[p].read == d))
            && (forall d :: d in s'.recorded && d !in s.recorded ==> s'.record == Some(d) && own == Some(d) && Own(q).None?)
            && (s'.record.Some? && s.record.None? ==> s'.record == own)
  {
    match e {
      case SpawnEnsure => case SpawnStop => case Get(_) => case Issue(_, _) => case IssueFails =>
      case PutNew(_) => case Remove(_) => case Delete(_) =>
    }
  }

  lemma StepKeepsFresh(s: State, p: nat, e: Event)
    requires Inv(s) && Step(s, p, e).Some?
    ensures OwnedAreFresh(Step(s, p, e).value)
  {
    StepEffect(s, p, e);
    StepDirectories(s, p, e);
    hide Step;
  }

  lemma StepKeepsRecord(s: State, p: nat, e: Event)
    requires Inv(s) && Step(s, p, e).Some?
    ensures RecordIsGood(Step(s, p, e).value)
  {
    hide LogAgrees, NothingLost;
    match e {
      case SpawnEnsure => case SpawnStop => case Get(_) => case Issue(_, _) => case IssueFails =>
      case PutNew(_) => case Remove(_) => case Delete(_) =>
    }
  }

  lemma StepKeepsStops(s: State, p: nat, e: Event)
    requires Inv(s) && Step(s, p, e).Some?
    ensures StopsAreSafe(Step(s, p, e).value)
  {
    StepEffect(s, p, e);
    StepDirectories(s, p, e);
    StopMoves(s, p, e);
    hide Step;
  }

  lemma StopMoves(s: State, p: nat, e: Event)
    requires Step(s, p, e).Some? && RecordIsGood(s)
    ensures var s' := Step(s, p, e).value;
            && (s'.procs[p].StopDeleting? ==> s.record == Some(s'.procs[p].read))
            && (s'.procs[p].StopRemoving? ==> s'.record.None? && p in s.procs && s.procs[p] == StopDeleting(s'.procs[p].read))
  {
    match e {
      case SpawnEnsure => case SpawnStop => case Get(_) => case Issue(_, _) => case IssueFails =>
      case PutNew(_) => case Remove(_) => case Delete(_) =>
    }
  }

  lemma StepKeepsLog(s: State, p: nat, e: Event)
    requires Inv(s) && Step(s, p, e).Some?
    ensures LogAgrees(Step(s, p, e).value)
  {
    StepEffect(s, p, e);
    hide Step;
    var s' := Step(s, p, e).value;
    forall q | q in s'.procs && s'.procs[q].Returned? && s'.procs[q].dir.Some?
      ensures exists i :: Logged(s', i, q, s'.procs[q].dir.value)
    {
      if q == p {
        assert Logged(s', |s.log|, p, s'.procs[p].dir.value);
      } else {
        var i :| Logged(s, i, q, s.procs[q].dir.value);
        assert Logged(s', i, q, s'.procs[q].dir.value);
      }
    }
  }

  lemma StepLosesNothing(s: State, p: nat, e: Event)
    requires Inv(s) && Step(s, p, e).Some?
    ensures NothingLost(Step(s, p, e).value)
  {
    var s' := Step(s, p, e).value;
    StepEffect(s, p, e);
    if s'.clean {
      StepAccounts(s, p, e);
      hide Step;
      forall d | d in s'.live ensures s'.record == Some(d) || d in s'.orphans || exists q :: Holds(s', q, d) {
        if s'.record != Some(d) && d !in s'.orphans && !Holds(s', p, d) {
          var q :| Holds(s, q, d);
          assert q != p && Holds(s', q, d);
        }
      }
    }
  }

  /** A directory that stays is accounted for after the step as it was before. */
  lemma StepAccounts(s: State, p: nat, e: Event)
    requires Inv(s) && Step(s, p, e).Some? && Step(s, p, e).value.clean
    ensures var s' := Step(s, p, e).value;
            s.clean && forall d :: d in s'.live ==>
              || (d in s.live && s.record != Some(d) && d !in s.orphans && !Holds(s, p, d))
              || s'.record == Some(d) || d in s'.orphans || Holds(s', p, d)
  {
    match e {
      case SpawnEnsure => case SpawnStop => case Get(_) => case Issue(_, _) => case IssueFails =>
      case PutNew(_) => case Remove(_) => case Delete(_) =>
    }
  }

  lemma {:induction false} RunKeepsInv(events: seq<(nat, Event)>)
    requires Run(events).Some?
    ensures Inv(Run(events).value)
  {
    if events != [] {
      var before := events[..|events| - 1];
      var last := events[|events| - 1];
      RunKeepsInv(before);
      var s := Run(before).value;
      StepKeepsFresh(s, last.0, last.1);
      StepKeepsRecord(s, last.0, last.1);
      StepKeepsStops(s, last.0, last.1);
      StepKeepsLog(s, last.0, last.1);
      StepLosesNothing(s, last.0, last.1);
    }
  }

  // -------------------------------------------------------------- what holds of every run

  /** No stored record ever names a directory that some hook has begun to remove, and the recorded
      directory is there. */
  lemma RecordNeverNamesRemoved(events: seq<(nat, Event)>)
    requires Run(events).Some?
    ensures var s := Run(events).value;
            s.record.Some? ==> s.record.value in s.live && s.record.value !in s.removed
  {
    RunKeepsInv(events);
  }

  /** Calls that succeed with no record deleted between them return the same directory. */
  lemma SuccessfulCallsAgree(events: seq<(nat, Event)>, p: nat, q: nat) returns (i: nat, j: nat)
    requires Run(events).Some?
    requires var s := Run(events).value;
             p in s.procs && q in s.procs && s.procs[p].Returned? && s.procs[q].Returned?
             && s.procs[p].dir.Some? && s.procs[q].dir.Some?
    ensures var s := Run(events).value;
            && i < |s.log| && j < |s.log| && s.log[i].proc == p && s.log[j].proc == q
            && s.log[i].dir == s.procs[p].dir.value && s.log[j].dir == s.procs[q].dir.value
            && (s.log[i].deletions == s.log[j].deletions ==> s.procs[p].dir == s.procs[q].dir)
  {
    RunKeepsInv(events);
    var s := Run(events).value;
    i :| Logged(s, i, p, s.procs[p].dir.value);
    j :| Logged(s, j, q, s.procs[q].dir.value);
  }

  /** A directory that a call returned was the recorded one, there, and not begun to be removed by any
      hook, right after that process's step that read or recorded it. */
  lemma {:induction false} ReturnedWasRecorded(events: seq<(nat, Event)>, p: nat) returns (n: nat)
    requires Run(events).Some? && p in Run(events).value.procs
    requires Run(events).value.procs[p].Returned? && Run(events).value.procs[p].dir.Some?
    ensures 0 < n <= |events| && events[n - 1].0 == p && Run(events[..n]).Some?
    ensures var s, d := Run(events[..n]).value, Run(events).value.procs[p].dir;
            s.record == d && d.value in s.live && d.value !in s.removed && s.procs.Keys >= {p} && s.procs[p] == Returned(d)
    decreases |events|
  {
    var m := |events| - 1;
    var s, s' := Run(events[..m]).value, Run(events).value;
    RunKeepsInv(events);
    assert events[..m + 1] == events;
    StepEffect(s, events[m].0, events[m].1);
    if events[m].0 == p {
      n := m + 1;
    } else {
      hide Step;
      n := ReturnedWasRecorded(events[..m], p);
      assert events[..m][..n] == events[..n] && events[..m][n - 1] == events[n - 1];
    }
  }

  /** No process is between its first step and its return. */
  ghost predicate Quiescent(s: State) {
    forall p :: p in s.procs ==> s.procs[p].Returned? || s.procs[p].StopReturned?
  }

  /** While nothing has gone wrong, the directories left are those issued and not removed. */
  lemma {:induction false} LiveIsIssued(events: seq<(nat, Event)>)
    requires Run(events).Some? && Run(events).value.clean
    ensures Run(events).value.live == Run(events).value.issued - Run(events).value.removed
  {
    if events != [] {
      var before, last := events[..|events| - 1], events[|events| - 1];
      RunKeepsInv(before);
      LiveAfterStep(Run(before).value, last.0, last.1);
      if Run(before).value.clean { LiveIsIssued(before); }
    }
  }

  lemma LiveAfterStep(s: State, p: nat, e: Event)
    requires Inv(s) && Step(s, p, e).Some? && Step(s, p, e).value.clean
    ensures s.clean
    ensures s.live == s.issued - s.removed ==> Step(s, p, e).value.live == Step(s, p, e).value.issued - Step(s, p, e).value.removed
  {
    hide LogAgrees, NothingLost, OwnedAreFresh, StopsAreSafe;
    match e {
      case SpawnEnsure => case SpawnStop => case Get(_) => case Issue(_, _) => case IssueFails =>
      case PutNew(_) => case Remove(_) => case Delete(_) =>
    }
  }

  /** When nothing is in flight and nothing went wrong, the directories left are exactly the
      recorded one and those orphans that no hook has removed. */
  lemma WhatRemains(events: seq<(nat, Event)>)
    requires Run(events).Some?
    requires var s := Run(events).value; Quiescent(s) && s.clean
    ensures var s := Run(events).value;
            s.live == (if s.record.Some? then {s.record.value} else {}) + (s.orphans - s.removed)
  {
    RunKeepsInv(events);
    LiveIsIssued(events);
    var s := Run(events).value;
    assert forall p :: p in s.procs ==> Own(s.procs[p]).None? && !s.procs[p].StopRemoving?;
    assert forall d :: d in s.live ==> s.record == Some(d) || d in s.orphans;
  }

  ghost predicate NoStops(events: seq<(nat, Event)>) {
    forall i :: 0 <= i < |events| ==> !events[i].1.SpawnStop?
  }

  lemma {:induction false} WithoutStops(events: seq<(nat, Event)>)
    requires Run(events).Some? && NoStops(events)
    ensures var s := Run(events).value;
            && s.orphans == {} && s.deletions == 0
            && (forall p :: p in s.procs ==> !s.procs[p].StopLooking? && !s.procs[p].StopDeleting? && !s.procs[p].StopRemoving?)
  {
    if events != [] {
      var before, last := events[..|events| - 1], events[|events| - 1];
      WithoutStops(before);
      var s := Run(before).value;
      assert !last.1.SpawnStop?;
      StopsOnlyFromStops(s, last.0, last.1);
      StepEffect(s, last.0, last.1);
    }
  }

  lemma StopsOnlyFromStops(s: State, p: nat, e: Event)
    requires Step(s, p, e).Some? && !e.SpawnStop?
    requires p in s.procs ==> !s.procs[p].StopLooking? && !s.procs[p].StopDeleting? && !s.procs[p].StopRemoving?
    ensures var s' := Step(s, p, e).value;
            && s'.orphans == s.orphans && s'.deletions == s.deletions
            && !s'.procs[p].StopLooking? && !s'.procs[p].StopDeleting? && !s'.procs[p].StopRemoving?
  {
  }

  /** Without a stop, once every process has returned, exactly one directory is left: the one every
      successful call returned. When no call succeeded none is left. */
  lemma OneDirectoryRemains(events: seq<(nat, Event)>)
    requires Run(events).Some? && NoStops(events)
    requires var s := Run(events).value; Quiescent(s) && s.clean
    ensures var s := Run(events).value;
            && s.live == (if s.record.Some? then {s.record.value} else {})
            && forall p :: p in s.procs && s.procs[p].Returned? && s.procs[p].dir.Some? ==> s.procs[p].dir == s.record
  {
    WithoutStops(events);
    WhatRemains(events);
    RunKeepsInv(events);
    var s := Run(events).value;
    forall p | p in s.procs && s.procs[p].Returned? && s.procs[p].dir.Some? ensures s.procs[p].dir == s.record {
      var i :| Logged(s, i, p, s.procs[p].dir.value);
      assert s.log[i].deletions == s.deletions;
    }
  }

  // -------------------------------------------------------------- a run that orphans a directory

  lemma Then(events: seq<(nat, Event)>, s: State, p: nat, e: Event) returns (events': seq<(nat, Event)>, s': State)
    requires Run(events) == Some(s) && Step(s, p, e).Some?
    ensures Run(events') == Some(s') && s' == Step(s, p, e).value
  {
    events', s' := events + [(p, e)], Step(s, p, e).value;
    assert events'[..|events|] == events;
  }

  lemma OneDelivered() returns (events: seq<(nat, Event)>, s: State)
    ensures Run(events) == Some(s)
    ensures s == State(Some(0), {0}, {0}, {}, {0}, {}, true, 0, [Delivery(0, 0, 0)], map[0 := Returned(Some(0))])
  {
    hide Run;
    events, s := [], INITIAL;
    assert Run(events) == Some(s) by { NothingRun(); }
    events, s := Then(events, s, 0, SpawnEnsure);
    events, s := Then(events, s, 0, Get(true));
    events, s := Then(events, s, 0, Issue(0, true));
    events, s := Then(events, s, 0, PutNew(true));
    assert s.procs == map[0 := Returned(Some(0))];
  }

  lemma NothingRun()
    ensures Run([]) == Some(INITIAL)
  {
  }

  lemma TwoStopsRead() returns (events: seq<(nat, Event)>, s: State)
    ensures Run(events) == Some(s)
    ensures s == State(Some(0), {0}, {0}, {}, {0}, {}, true, 0, [Delivery(0, 0, 0)],
                       map[0 := Returned(Some(0)), 1 := StopDeleting(0), 2 := StopDeleting(0)])
  {
    hide Run;
    events, s := OneDelivered();
    events, s := Then(events, s, 1, SpawnStop);
    events, s := Then(events, s, 2, SpawnStop);
    events, s := Then(events, s, 1, Get(true));
    events, s := Then(events, s, 2, Get(true));
    assert s.procs == map[0 := Returned(Some(0)), 1 := StopDeleting(0), 2 := StopDeleting(0)];
  }

  lemma TwoStopsLook() returns (events: seq<(nat, Event)>, s: State)
    ensures Run(events) == Some(s)
    ensures s == State(None, {}, {0}, {0}, {0}, {}, true, 1, [Delivery(0, 0, 0)],
                       map[0 := Returned(Some(0)), 1 := StopReturned, 2 := StopDeleting(0)])
  {
    hide Run;
    events, s := TwoStopsRead();
    events, s := Then(events, s, 1, Delete(true));
    events, s := Then(events, s, 1, Remove(true));
    assert s.procs == map[0 := Returned(Some(0)), 1 := StopReturned, 2 := StopDeleting(0)];
  }

  lemma ThirdDelivers() returns (events: seq<(nat, Event)>, s: State)
    ensures Run(events) == Some(s)
    ensures s == State(Some(1), {1}, {0, 1}, {0}, {0, 1}, {}, true, 1, [Delivery(0, 0, 0), Delivery(3, 1, 1)],
                       map[0 := Returned(Some(0)), 1 := StopReturned, 2 := StopDeleting(0), 3 := Returned(Some(1))])
  {
    hide Run;
    events, s := TwoStopsLook();
    events, s := Then(events, s, 3, SpawnEnsure);
    events, s := Then(events, s, 3, Get(true));
    events, s := Then(events, s, 3, Issue(1, true));
    events, s := Then(events, s, 3, PutNew(true));
    assert s.procs == map[0 := Returned(Some(0)), 1 := StopReturned, 2 := StopDeleting(0), 3 := Returned(Some(1))];
    assert s.live == {1} && s.issued == {0, 1} && s.recorded == {0, 1} && s.log == [Delivery(0, 0, 0), Delivery(3, 1, 1)];
  }

  /** Two stops racing with a new start can leave a delivered directory without a record: the
      second stop deletes a record it has not read, and removes the directory it has. */
  lemma StopsCanOrphan() returns (events: seq<(nat, Event)>, s: State)
    ensures Run(events) == Some(s) && Quiescent(s) && s.clean
    ensures s.record == None && s.live == {1} && s.orphans == {1} && 3 in s.procs && s.procs[3] == Returned(Some(1))
  {
    hide Run;
    events, s := ThirdDelivers();
    events, s := Then(events, s, 2, Delete(true));
    events, s := Then(events, s, 2, Remove(true));
  }
}
