/** Exactly when hook processes leave behind a directory that no record names: a stop that another
    process overtook between its read and its deletion deletes a record it has not read. */
module HookOrphans {
  import opened Text
  import opened HookRace

  /** Event `g` is the successful read of a stop: it found a record. */
  ghost predicate StopReads(events: seq<(nat, Event)>, g: int) {
    && 0 <= g < |events| && events[g].1 == Get(true)
    && Run(events[..g]).Some? && var s := Run(events[..g]).value;
       events[g].0 in s.procs && s.procs[events[g].0].StopLooking? && s.record.Some?
  }

  /** Event `k` is a successful deletion that found the record `r`. */
  ghost predicate Deletes(events: seq<(nat, Event)>, k: int, r: Dir) {
    && 0 <= k < |events| && events[k].1 == Delete(true)
    && Run(events[..k]).Some? && Run(events[..k]).value.record == Some(r)
  }

  /** Between the read of a stop at `g` and its deletion of `r` at `k` another process deleted the
      record there was, at `e`. */
  ghost predicate Overtaken(events: seq<(nat, Event)>, g: int, e: int, k: int, r: Dir) {
    && g < e < k && StopReads(events, g) && Deletes(events, k, r) && events[k].0 == events[g].0
    && events[e].0 != events[g].0 && exists r' :: Deletes(events, e, r')
  }

  ghost predicate OvertakenAt(events: seq<(nat, Event)>, k: int, r: Dir) {
    exists g, e :: Overtaken(events, g, e, k, r)
  }

  lemma {:induction false} RunsBefore(events: seq<(nat, Event)>, n: nat)
    requires Run(events).Some? && n <= |events|
    ensures Run(events[..n]).Some?
    decreases |events|
  {
    if n < |events| {
      var before := events[..|events| - 1];
      RunsBefore(before, n);
      assert before[..n] == events[..n];
    } else {
      assert events[..n] == events;
    }
  }

  /** The state before event `n` and the one after it. */
  lemma StateAfter(events: seq<(nat, Event)>, n: nat) returns (s: State, s': State)
    requires Run(events).Some? && n < |events|
    ensures Run(events[..n]) == Some(s) && Run(events[..n + 1]) == Some(s') && Step(s, events[n].0, events[n].1) == Some(s')
  {
    hide Step;
    RunsBefore(events, n);
    RunsBefore(events, n + 1);
    s, s' := Run(events[..n]).value, Run(events[..n + 1]).value;
    assert events[..n + 1][..n] == events[..n] && events[..n + 1][n] == events[n];
  }

  /** How a step of `p` bears on a process `q` that is a stop about to delete, and on the record. */
  lemma StopStep(s: State, p: nat, e: Event, q: nat)
    requires Step(s, p, e).Some?
    ensures var s' := Step(s, p, e).value;
            && (q in s'.procs && s'.procs[q].StopDeleting? ==>
                 || (p != q && q in s.procs && s.procs[q] == s'.procs[q])
                 || (p == q && e == Get(true) && q in s.procs && s.procs[q].StopLooking? && s.record == Some(s'.procs[q].read) && s'.record == s.record))
            && (p != q && q in s.procs ==> q in s'.procs && s'.procs[q] == s.procs[q])
            && (s.record.Some? && s'.record != s.record ==> e == Delete(true) && p in s.procs && s.procs[p].StopDeleting?)
            && (e == Delete(true) ==> p in s.procs && s.procs[p].StopDeleting? && s'.procs[p] == StopRemoving(s.procs[p].read) && s'.record.None?)
            && s'.orphans == s.orphans + (if e == Delete(true) && s.record.Some? && s.record.value != s.procs[p].read then {s.record.value} else {})
  {
    match e {
      case SpawnEnsure => case SpawnStop => case Get(_) => case Issue(_, _) => case IssueFails =>
      case PutNew(_) => case Remove(_) => case Delete(_) =>
    }
  }

  /** A stop about to delete has read a record; if that is not the record any more, another process
      deleted it in between. */
  lemma {:induction false} StopHistory(events: seq<(nat, Event)>, p: nat) returns (g: nat, e: nat)
    requires Run(events).Some? && p in Run(events).value.procs && Run(events).value.procs[p].StopDeleting?
    ensures g < |events| && StopReads(events, g) && events[g].0 == p
    ensures Run(events[..g]).value.record == Some(Run(events).value.procs[p].read)
    ensures Run(events).value.record == Some(Run(events).value.procs[p].read)
         || (g < e < |events| && events[e].0 != p && exists r :: Deletes(events, e, r))
    decreases |events|
  {
    var n := |events| - 1;
    var before, last := events[..n], events[n];
    var s, s' := Run(before).value, Run(events).value;
    StopStep(s, last.0, last.1, p);
    if last.0 == p {
      g, e := n, 0;
    } else {
      g, e := StopHistory(before, p);
      assert before[..g] == events[..g] && before[g] == events[g];
      if s.record == Some(s.procs[p].read) {
        if s'.record != s.record {
          e := n;
          assert Deletes(events, n, s.record.value);
        }
      } else {
        assert before[..e] == events[..e] && before[e] == events[e];
        var r :| Deletes(before, e, r);
        assert Deletes(events, e, r);
      }
    }
  }

  /** A record that has been deleted is never recorded again. */
  lemma {:induction false} NeverRecordedAgain(events: seq<(nat, Event)>, n: nat, d: Dir)
    requires Run(events).Some? && n <= |events| && Run(events[..n]).Some?
    requires d in Run(events[..n]).value.recorded && Run(events[..n]).value.record != Some(d)
    ensures d in Run(events).value.recorded && Run(events).value.record != Some(d)
    decreases |events|
  {
    if n < |events| {
      var m := |events| - 1;
      var before := events[..m];
      RunsBefore(events, m);
      assert before[..n] == events[..n];
      NeverRecordedAgain(before, n, d);
      RunKeepsInv(before);
      StepDirectories(Run(before).value, events[m].0, events[m].1);
      StepEffect(Run(before).value, events[m].0, events[m].1);
      hide Step;
    } else {
      assert events[..n] == events;
    }
  }

  lemma {:induction false} RecordedStays(events: seq<(nat, Event)>, n: nat, d: Dir)
    requires Run(events).Some? && n <= |events| && Run(events[..n]).Some? && d in Run(events[..n]).value.recorded
    ensures d in Run(events).value.recorded
    decreases |events|
  {
    if n < |events| {
      var m := |events| - 1;
      assert events[..m][..n] == events[..n];
      RecordedStays(events[..m], n, d);
      StepDirectories(Run(events[..m]).value, events[m].0, events[m].1);
    } else {
      assert events[..n] == events;
    }
  }

  /** A stop stays about to delete what it read until it deletes. */
  lemma {:induction false} StopWaits(events: seq<(nat, Event)>, g: nat)
    requires Run(events).Some? && StopReads(events, g)
    requires events[g].0 in Run(events).value.procs && Run(events).value.procs[events[g].0].StopDeleting?
    ensures Some(Run(events).value.procs[events[g].0].read) == Run(events[..g]).value.record
    decreases |events|
  {
    var m := |events| - 1;
    var p := events[g].0;
    var s := Run(events[..m]).value;
    StopStep(s, events[m].0, events[m].1, p);
    if g < m {
      assert events[..m][..g] == events[..g] && events[..m][g] == events[g];
      if events[m].0 == p {
        StopLookedOnce(events[..m], g);
      } else {
        StopWaits(events[..m], g);
      }
    }
  }

  /** A stop reads once. */
  lemma {:induction false} StopLookedOnce(events: seq<(nat, Event)>, g: nat)
    requires Run(events).Some? && StopReads(events, g)
    ensures events[g].0 in Run(events).value.procs && !Run(events).value.procs[events[g].0].StopLooking?
    decreases |events|
  {
    var m := |events| - 1;
    var p := events[g].0;
    if g < m {
      assert events[..m][..g] == events[..g] && events[..m][g] == events[g];
      StopLookedOnce(events[..m], g);
      NotLookingAgain(Run(events[..m]).value, events[m].0, events[m].1, p);
    } else {
      NotLookingAfter(Run(events[..m]).value, p);
    }
  }

  lemma NotLookingAgain(s: State, q: nat, e: Event, p: nat)
    requires Step(s, q, e).Some? && p in s.procs && !s.procs[p].StopLooking?
    ensures var s' := Step(s, q, e).value; p in s'.procs && !s'.procs[p].StopLooking?
  {
  }

  lemma NotLookingAfter(s: State, p: nat)
    requires Step(s, p, Get(true)).Some?
    ensures var s' := Step(s, p, Get(true)).value; p in s'.procs && !s'.procs[p].StopLooking?
  {
  }

  /** A deletion orphans the record it finds exactly when another process deleted a record between
      that stop's read and it. */
  lemma OrphansHere(events: seq<(nat, Event)>, k: nat, r: Dir)
    requires Run(events).Some? && Deletes(events, k, r)
    ensures events[k].0 in Run(events[..k]).value.procs && Run(events[..k]).value.procs[events[k].0].StopDeleting?
    ensures Run(events[..k]).value.procs[events[k].0].read != r <==> OvertakenAt(events, k, r)
  {
    var p := events[k].0;
    var s, s' := StateAfter(events, k);
    StopStep(s, p, events[k].1, p);
    var d := s.procs[p].read;
    if d != r {
      var g, e := StopHistory(events[..k], p);
      Prefixes(events, k, g, e);
      assert Overtaken(events, g, e, k, r);
    }
    if OvertakenAt(events, k, r) {
      var g, e :| Overtaken(events, g, e, k, r);
      ReadIsGone(events, g, e, k, r);
    }
  }

  /** What holds of events `g` and `e` in a prefix holds in the whole. */
  lemma Prefixes(events: seq<(nat, Event)>, k: nat, g: int, e: int)
    requires 0 <= g < k <= |events|
    ensures events[..k][..g] == events[..g] && events[..k][g] == events[g]
    ensures StopReads(events[..k], g) <==> StopReads(events, g)
    ensures 0 <= e < k ==> events[..k][e] == events[e] && forall r :: Deletes(events[..k], e, r) <==> Deletes(events, e, r)
  {
    hide Run;
    assert events[..k][..g] == events[..g];
    if 0 <= e < k { assert events[..k][..e] == events[..e]; }
  }

  /** An overtaken stop finds another record than the one it read. */
  lemma ReadIsGone(events: seq<(nat, Event)>, g: int, e: int, k: int, r: Dir)
    requires Run(events).Some? && Overtaken(events, g, e, k, r)
    requires events[k].0 in Run(events[..k]).value.procs && Run(events[..k]).value.procs[events[k].0].StopDeleting?
    ensures Run(events[..k]).value.procs[events[k].0].read != r
  {
    hide Step, OwnedAreFresh, StopsAreSafe, LogAgrees, NothingLost, Run;
    RunsBefore(events, k);
    Prefixes(events, k, g, e);
    StopWaits(events[..k], g);
    var d := Run(events[..k]).value.procs[events[k].0].read;
    RunKeepsInv(events[..g]);
    RunsBefore(events, e + 1);
    assert events[..e + 1][..g] == events[..g];
    RecordedStays(events[..e + 1], g, d);
    var s, s' := StateAfter(events, e);
    StopStep(s, events[e].0, events[e].1, events[e].0);
    assert events[..k][..e + 1] == events[..e + 1];
    NeverRecordedAgain(events[..k], e + 1, d);
  }

  /** Exactly when a directory is orphaned: some stop's deletion found its record after another process
      had deleted one between that stop's read and its deletion. */
  lemma {:induction false} OrphanedExactly(events: seq<(nat, Event)>, r: Dir)
    requires Run(events).Some?
    ensures r in Run(events).value.orphans <==> exists k :: OvertakenAt(events, k, r)
    decreases |events|
  {
    hide Step;
    if events == [] {
      assert forall k :: !OvertakenAt(events, k, r);
    } else {
      var m := |events| - 1;
      var before := events[..m];
      OrphanedExactly(before, r);
      assert events[..m] == before;
      StopStep(Run(before).value, events[m].0, events[m].1, events[m].0);
      if Deletes(events, m, r) { OrphansHere(events, m, r); }
      OvertakenIn(events, m, r);
    }
  }

  /** What was overtaken before the last event, and whether the last one was. */
  lemma OvertakenIn(events: seq<(nat, Event)>, m: nat, r: Dir)
    requires m + 1 == |events|
    ensures (exists k :: OvertakenAt(events, k, r)) <==> (exists k :: OvertakenAt(events[..m], k, r)) || OvertakenAt(events, m, r)
  {
    hide Run;
    if k :| OvertakenAt(events, k, r) && k != m {
      var g, e :| Overtaken(events, g, e, k, r);
      Prefixes(events, m, g, e);
      Prefixes(events, m, g, k);
      assert Overtaken(events[..m], g, e, k, r);
      assert OvertakenAt(events[..m], k, r);
    }
    if k :| OvertakenAt(events[..m], k, r) {
      var g, e :| Overtaken(events[..m], g, e, k, r);
      Prefixes(events, m, g, e);
      Prefixes(events, m, g, k);
      assert Overtaken(events, g, e, k, r);
      assert OvertakenAt(events, k, r);
    }
  }

  /** The directory a process is about to remove. */
  function Removing(q: Proc): Option<Dir> {
    match q
    case Losing(d) => Some(d)
    case Failing(d) => Some(d)
    case StopRemoving(d) => Some(d)
    case _ => None
  }

  /** Event `m` removes `d`, or tries to. */
  ghost predicate Removes(events: seq<(nat, Event)>, m: int, d: Dir) {
    && 0 <= m < |events| && events[m].1.Remove? && Run(events[..m]).Some?
    && events[m].0 in Run(events[..m]).value.procs && Removing(Run(events[..m]).value.procs[events[m].0]) == Some(d)
  }

  lemma RemoveStep(s: State, p: nat, e: Event)
    requires Step(s, p, e).Some?
    ensures var own := if e.Remove? && p in s.procs then Removing(s.procs[p]) else None;
            Step(s, p, e).value.removed == s.removed + (if own.Some? then {own.value} else {})
  {
    match e {
      case SpawnEnsure => case SpawnStop => case Get(_) => case Issue(_, _) => case IssueFails =>
      case PutNew(_) => case Remove(_) => case Delete(_) =>
    }
  }

  lemma {:induction false} RemovedExactly(events: seq<(nat, Event)>, d: Dir)
    requires Run(events).Some?
    ensures d in Run(events).value.removed <==> exists m :: Removes(events, m, d)
    decreases |events|
  {
    hide Step;
    if events == [] {
      assert forall m :: !Removes(events, m, d);
    } else {
      var n := |events| - 1;
      RemovedExactly(events[..n], d);
      RemoveStep(Run(events[..n]).value, events[n].0, events[n].1);
      RemovesIn(events, n, d);
    }
  }

  lemma RemovesIn(events: seq<(nat, Event)>, n: nat, d: Dir)
    requires n + 1 == |events|
    ensures (exists m :: Removes(events, m, d)) <==> (exists m :: Removes(events[..n], m, d)) || Removes(events, n, d)
  {
    hide Run;
    assert forall m :: 0 <= m < n ==> events[..n][..m] == events[..m] && events[..n][m] == events[m];
    forall m | 0 <= m < n ensures Removes(events[..n], m, d) <==> Removes(events, m, d) {
      assert events[..n][..m] == events[..m];
    }
    if m :| Removes(events, m, d) && m != n { assert Removes(events[..n], m, d); }
    if m :| Removes(events[..n], m, d) { assert Removes(events, m, d); }
  }

  /** With nothing in flight and nothing gone wrong, exactly the recorded directory is left if and only
      if every directory whose record was deleted by an overtaken stop was removed by some hook. */
  lemma ExactlyTheRecordRemains(events: seq<(nat, Event)>)
    requires Run(events).Some?
    requires var s := Run(events).value; Quiescent(s) && s.clean
    ensures var s := Run(events).value;
            s.live == (if s.record.Some? then {s.record.value} else {})
            <==> forall k, r :: OvertakenAt(events, k, r) ==> exists m :: Removes(events, m, r)
  {
    hide Run, OvertakenAt, Removes, Quiescent, OwnedAreFresh, StopsAreSafe, LogAgrees, NothingLost;
    WhatRemains(events);
    RunKeepsInv(events);
    var s := Run(events).value;
    forall r ensures r in s.orphans <==> exists k :: OvertakenAt(events, k, r) { OrphanedExactly(events, r); }
    forall r ensures r in s.removed <==> exists m :: Removes(events, m, r) { RemovedExactly(events, r); }
    assert RecordIsGood(s);
    OnlyWhenRemoved(if s.record.Some? then {s.record.value} else {}, s.orphans, s.removed);
    if s.orphans <= s.removed {
      forall k, r | OvertakenAt(events, k, r) ensures exists m :: Removes(events, m, r) { assert r in s.orphans; }
    } else {
      var r :| r in s.orphans && r !in s.removed;
      var k :| OvertakenAt(events, k, r);
    }
  }

  lemma OnlyWhenRemoved(recorded: set<Dir>, orphans: set<Dir>, removed: set<Dir>)
    requires recorded !! orphans
    ensures recorded + (orphans - removed) == recorded <==> orphans <= removed
  {
    assert forall d :: d in orphans && d !in removed ==> d in recorded + (orphans - removed);
  }

  // -------------------------------------------------------------- stops that do not overlap

  /** At most one stop is between its read and its deletion. */
  ghost predicate StopsApart(s: State) {
    forall p, q :: p in s.procs && q in s.procs && s.procs[p].StopDeleting? && s.procs[q].StopDeleting? ==> p == q
  }

  ghost predicate StopsNeverOverlap(events: seq<(nat, Event)>) {
    forall n :: 0 <= n <= |events| && Run(events[..n]).Some? ==> StopsApart(Run(events[..n]).value)
  }

  /** If no two stops are ever between read and deletion at once, no directory is orphaned, and once
      nothing is in flight and nothing went wrong exactly the recorded directory is left. */
  lemma ApartStopsOrphanNothing(events: seq<(nat, Event)>)
    requires Run(events).Some? && StopsNeverOverlap(events)
    ensures var s := Run(events).value;
            && s.orphans == {}
            && (Quiescent(s) && s.clean ==> s.live == if s.record.Some? then {s.record.value} else {})
  {
    var s := Run(events).value;
    if r :| r in s.orphans {
      OrphanedExactly(events, r);
      var k :| OvertakenAt(events, k, r);
      var g, e :| Overtaken(events, g, e, k, r);
      OverlapAt(events, g, e, k, r);
    }
    if Quiescent(s) && s.clean { WhatRemains(events); }
  }

  /** The stop that overtakes and the one overtaken are both about to delete. */
  lemma OverlapAt(events: seq<(nat, Event)>, g: int, e: int, k: int, r: Dir)
    requires Run(events).Some? && Overtaken(events, g, e, k, r)
    ensures Run(events[..e]).Some? && !StopsApart(Run(events[..e]).value) && 0 <= e <= |events|
  {
    hide Run, Step;
    var s, s' := StateAfter(events, e);
    StopStep(s, events[e].0, events[e].1, events[g].0);
    var t, t' := StateAfter(events, k);
    StopStep(t, events[k].0, events[k].1, events[k].0);
    assert events[..k][..e] == events[..e];
    Prefixes(events, k, g, e);
    DeletingSince(events[..k], g, e);
  }

  /** A stop about to delete after it read at `g` was so ever since. */
  lemma {:induction false} DeletingSince(events: seq<(nat, Event)>, g: int, n: nat)
    requires Run(events).Some? && StopReads(events, g) && g < n <= |events|
    requires events[g].0 in Run(events).value.procs && Run(events).value.procs[events[g].0].StopDeleting?
    ensures Run(events[..n]).Some? && events[g].0 in Run(events[..n]).value.procs && Run(events[..n]).value.procs[events[g].0].StopDeleting?
    decreases |events|
  {
    hide Step;
    if n == |events| {
      assert events[..n] == events;
    } else {
      var m := |events| - 1;
      Prefixes(events, m, g, g);
      assert events[..m][..n] == events[..n];
      StopStep(Run(events[..m]).value, events[m].0, events[m].1, events[g].0);
      if events[m].0 == events[g].0 { StopLookedOnce(events[..m], g); }
      DeletingSince(events[..m], g, n);
    }
  }
}
