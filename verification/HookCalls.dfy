/** What the calls of one hook process come to, whatever the others do between them: where it stands
    and what it returns, told from its own calls and the records they met. */
module HookCalls {
  import opened Text
  import opened HookRace
  import opened HookOrphans

  /** The calls process `p` has made, in order. */
  function Calls(events: seq<(nat, Event)>, p: nat): seq<Event> {
    if events == [] then []
    else
      var last := events[|events| - 1];
      Calls(events[..|events| - 1], p) + if last.0 == p then [last.1] else []
  }

  /** The record each of them met. */
  ghost function Met(events: seq<(nat, Event)>, p: nat): seq<Option<Dir>>
    requires Run(events).Some?
  {
    if events == [] then []
    else
      var before := events[..|events| - 1];
      Met(before, p) + if events[|events| - 1].0 == p then [Run(before).value.record] else []
  }

  /** Up to the attempt to record the fresh directory `d`, no record having been found. */
  function UpToIssue(d: Dir): seq<Event> { [SpawnEnsure, Get(true), Issue(d, true)] }

  /** What a finished call of ensureAgent returns: one line for each way through it. */
  ghost predicate Returns(calls: seq<Event>, met: seq<Option<Dir>>, dir: Option<Dir>) {
    |calls| == |met| &&
    ( || (calls == [SpawnEnsure, Get(false)] && dir == None)
      || (calls == [SpawnEnsure, Get(true)] && met[1].Some? && dir == met[1])
      || (calls == [SpawnEnsure, Get(true), IssueFails] && met[1].None? && dir == None)
      || (exists d: Dir :: calls == [SpawnEnsure, Get(true), Issue(d, false)] && met[1].None? && dir == None)
      || (exists d: Dir :: calls == UpToIssue(d) + [PutNew(true)] && met[1].None? && met[3].None? && dir == Some(d))
      || (exists d: Dir, ok :: calls == UpToIssue(d) + [PutNew(false), Remove(ok)] && met[1].None? && dir == None)
      || (exists d: Dir, ok :: calls == UpToIssue(d) + [PutNew(true), Remove(ok), Get(false)] && met[1].None? && met[3].Some? && dir == None)
      || (exists d: Dir, ok :: calls == UpToIssue(d) + [PutNew(true), Remove(ok), Get(true)] && met[1].None? && met[3].Some? && dir == met[5]))
  }

  /** The calls of a finished subagentStop. */
  ghost predicate Stopped(calls: seq<Event>, met: seq<Option<Dir>>) {
    |calls| == |met| &&
    ( || calls == [SpawnStop, Get(false)]
      || (calls == [SpawnStop, Get(true)] && met[1].None?)
      || (calls == [SpawnStop, Get(true), Delete(false)] && met[1].Some?)
      || (exists ok :: calls == [SpawnStop, Get(true), Delete(true), Remove(ok)] && met[1].Some?))
  }

  /** Where the calls a process has made leave it. */
  ghost predicate Stands(calls: seq<Event>, met: seq<Option<Dir>>, at: Proc) {
    |calls| == |met| &&
    match at
    case Looking => calls == [SpawnEnsure]
    case Issuing => calls == [SpawnEnsure, Get(true)] && met[1].None?
    case Publishing(d) => calls == UpToIssue(d) && met[1].None?
    case Losing(d) => calls == UpToIssue(d) + [PutNew(true)] && met[1].None? && met[3].Some?
    case Failing(d) => calls == UpToIssue(d) + [PutNew(false)] && met[1].None?
    case Rereading => exists d: Dir, ok :: calls == UpToIssue(d) + [PutNew(true), Remove(ok)] && met[1].None? && met[3].Some?
    case Returned(dir) => Returns(calls, met, dir)
    case StopLooking => calls == [SpawnStop]
    case StopDeleting(d) => calls == [SpawnStop, Get(true)] && met[1] == Some(d)
    case StopRemoving(d) => calls == [SpawnStop, Get(true), Delete(true)] && met[1] == Some(d)
    case StopReturned => Stopped(calls, met)
  }

  /** The calls the program makes next from where a process stands. */
  predicate Next(at: Option<Proc>, issued: set<Dir>, e: Event) {
    match at
    case None => e.SpawnEnsure? || e.SpawnStop?
    case Some(q) =>
      match q
      case Looking => e.Get?
      case Issuing => e.IssueFails? || (e.Issue? && e.dir !in issued)
      case Publishing(_) => e.PutNew?
      case Losing(_) => e.Remove?
      case Failing(_) => e.Remove?
      case Rereading => e.Get?
      case StopLooking => e.Get?
      case StopDeleting(_) => e.Delete?
      case StopRemoving(_) => e.Remove?
      case Returned(_) => false
      case StopReturned => false
  }

  /** A call can be made exactly where the program makes it. */
  lemma CallsAsWritten(s: State, p: nat, e: Event)
    ensures Step(s, p, e).Some? <==> Next(if p in s.procs then Some(s.procs[p]) else None, s.issued, e)
  {
  }

  lemma StandsNext(s: State, p: nat, e: Event, calls: seq<Event>, met: seq<Option<Dir>>)
    requires Step(s, p, e).Some?
    requires if p in s.procs then Stands(calls, met, s.procs[p]) else calls == [] && met == []
    ensures Stands(calls + [e], met + [s.record], Step(s, p, e).value.procs[p])
  {
    if p !in s.procs {
    } else if s.procs[p].Looking? || s.procs[p].Issuing? || s.procs[p].Publishing? {
      FreshNext(s, p, e, calls, met);
    } else if s.procs[p].Losing? || s.procs[p].Failing? || s.procs[p].Rereading? {
      RaceNext(s, p, e, calls, met);
    } else {
      StopNext(s, p, e, calls, met);
    }
  }

  lemma FreshNext(s: State, p: nat, e: Event, calls: seq<Event>, met: seq<Option<Dir>>)
    requires Step(s, p, e).Some? && p in s.procs && Stands(calls, met, s.procs[p])
    requires s.procs[p].Looking? || s.procs[p].Issuing? || s.procs[p].Publishing?
    ensures Stands(calls + [e], met + [s.record], Step(s, p, e).value.procs[p])
  {
    if s.procs[p].Publishing? {
      var d := s.procs[p].own;
      assert calls + [e] == UpToIssue(d) + [e];
    }
  }

  lemma RaceNext(s: State, p: nat, e: Event, calls: seq<Event>, met: seq<Option<Dir>>)
    requires Step(s, p, e).Some? && p in s.procs && Stands(calls, met, s.procs[p])
    requires s.procs[p].Losing? || s.procs[p].Failing? || s.procs[p].Rereading?
    ensures Stands(calls + [e], met + [s.record], Step(s, p, e).value.procs[p])
  {
    match s.procs[p] {
      case Losing(d) => assert calls + [e] == UpToIssue(d) + [PutNew(true), e];
      case Failing(d) => assert calls + [e] == UpToIssue(d) + [PutNew(false), e];
      case Rereading =>
        var d: Dir, ok :| calls == UpToIssue(d) + [PutNew(true), Remove(ok)];
        assert calls + [e] == UpToIssue(d) + [PutNew(true), Remove(ok), e];
    }
  }

  lemma StopNext(s: State, p: nat, e: Event, calls: seq<Event>, met: seq<Option<Dir>>)
    requires Step(s, p, e).Some? && p in s.procs && Stands(calls, met, s.procs[p])
    requires s.procs[p].StopLooking? || s.procs[p].StopDeleting? || s.procs[p].StopRemoving? || s.procs[p].StopReturned? || s.procs[p].Returned?
    ensures Stands(calls + [e], met + [s.record], Step(s, p, e).value.procs[p])
  {
  }

  lemma OthersStay(s: State, p: nat, e: Event, q: nat)
    requires Step(s, p, e).Some? && q != p
    ensures var s' := Step(s, p, e).value; (q in s'.procs <==> q in s.procs) && (q in s.procs ==> s'.procs[q] == s.procs[q])
  {
    StepEffect(s, p, e);
  }

  /** In every interleaving a process stands where its own calls and the records they met leave it. */
  lemma {:induction false} StandsByItsCalls(events: seq<(nat, Event)>, p: nat)
    requires Run(events).Some?
    ensures p in Run(events).value.procs <==> Calls(events, p) != []
    ensures p in Run(events).value.procs ==> Stands(Calls(events, p), Met(events, p), Run(events).value.procs[p])
    ensures |Calls(events, p)| == |Met(events, p)|
    decreases |events|
  {
    hide Step, Stands;
    if events != [] {
      var before, last := events[..|events| - 1], events[|events| - 1];
      StandsByItsCalls(before, p);
      var s := Run(before).value;
      if last.0 == p {
        StepEffect(s, p, last.1);
        StandsNext(s, p, last.1, Calls(before, p), Met(before, p));
      } else {
        OthersStay(s, last.0, last.1, p);
        assert Calls(events, p) == Calls(before, p) && Met(events, p) == Met(before, p);
      }
    }
  }

  // -------------------------------------------------------------- which calls succeed, and with what

  predicate Works(e: Event) {
    match e
    case Get(ok) => ok
    case Issue(_, deliverable) => deliverable
    case IssueFails => false
    case PutNew(ok) => ok
    case Delete(ok) => ok
    case _ => true
  }

  /** No system call and no issue failed and every path was deliverable; removals may fail. */
  ghost predicate EverythingWorks(events: seq<(nat, Event)>) {
    forall i :: 0 <= i < |events| ==> Works(events[i].1)
  }

  /** A process that has got past its first look without having its own directory recorded has the
      record of another to find. */
  ghost predicate HasTheRecord(s: State, p: nat) {
    p in s.procs ==>
      && (s.procs[p].Returned? ==> s.record.Some? && s.procs[p].dir == s.record)
      && (s.procs[p].Losing? || s.procs[p].Rereading? ==> s.record.Some?)
      && !s.procs[p].Failing?
  }

  /** Without a stop and without a failure every process that has returned holds the recorded directory:
      the winner its own, every loser the winner's. */
  lemma {:induction false} EveryoneGetsTheRecord(events: seq<(nat, Event)>, p: nat)
    requires Run(events).Some? && NoStops(events) && EverythingWorks(events)
    ensures HasTheRecord(Run(events).value, p)
    decreases |events|
  {
    if events != [] {
      var before, last := events[..|events| - 1], events[|events| - 1];
      EveryoneGetsTheRecord(before, p);
      WithoutStops(before);
      assert Works(last.1);
      WorkingStep(Run(before).value, last.0, last.1, p);
    }
  }

  lemma WorkingStep(s: State, q: nat, e: Event, p: nat)
    requires Step(s, q, e).Some? && Works(e) && HasTheRecord(s, p)
    requires forall r :: r in s.procs ==> !s.procs[r].StopDeleting?
    ensures HasTheRecord(Step(s, q, e).value, p)
  {
  }

  /** The record stays what it is until a stop deletes it. */
  lemma {:induction false} RecordStays(events: seq<(nat, Event)>, k: nat, m: nat, d: Dir)
    requires Run(events).Some? && k <= m <= |events| && Run(events[..k]).Some? && Run(events[..k]).value.record == Some(d)
    requires forall i :: k <= i < m ==> !Deletes(events, i, d)
    ensures Run(events[..m]).Some? && Run(events[..m]).value.record == Some(d)
    decreases m
  {
    hide Step;
    RunsBefore(events, m);
    if k < m {
      RecordStays(events, k, m - 1, d);
      var s, s' := StateAfter(events, m - 1);
      StopStep(s, events[m - 1].0, events[m - 1].1, events[m - 1].0);
      assert !Deletes(events, m - 1, d);
    }
  }

  /** A process that has returned makes no further call and keeps what it returned. */
  lemma {:induction false} ReturnedStays(events: seq<(nat, Event)>, n: nat, p: nat)
    requires Run(events).Some? && n <= |events| && Run(events[..n]).Some? && p in Run(events[..n]).value.procs
    requires var q := Run(events[..n]).value.procs[p]; q.Returned? || q.StopReturned?
    ensures p in Run(events).value.procs && Run(events).value.procs[p] == Run(events[..n]).value.procs[p]
    ensures forall i :: n <= i < |events| ==> events[i].0 != p
    decreases |events|
  {
    if n < |events| {
      var m := |events| - 1;
      RunsBefore(events, m);
      assert events[..m][..n] == events[..n];
      ReturnedStays(events[..m], n, p);
      var s := Run(events[..m]).value;
      assert events[m].0 != p by { CallsAsWritten(s, p, events[m].1); }
      OthersStay(s, events[m].0, events[m].1, p);
      assert forall i :: 0 <= i < m ==> events[..m][i] == events[i];
    } else {
      assert events[..n] == events;
    }
  }

  /** Event `k` is a first look that finds the record `d`. */
  ghost predicate FindsAtOnce(events: seq<(nat, Event)>, k: int, d: Dir) {
    && 0 <= k < |events| && events[k].1 == Get(true) && Run(events[..k]).Some?
    && var s := Run(events[..k]).value; events[k].0 in s.procs && s.procs[events[k].0].Looking? && s.record == Some(d)
  }

  /** A first look that finds a record returns its directory, whatever happens later, and the process
      has issued nothing and makes no other call. */
  lemma FindersReturnIt(events: seq<(nat, Event)>, k: nat, d: Dir)
    requires Run(events).Some? && FindsAtOnce(events, k, d)
    ensures var p := events[k].0;
            && p in Run(events).value.procs && Run(events).value.procs[p] == Returned(Some(d))
            && Calls(events, p) == [SpawnEnsure, Get(true)]
  {
    hide Run;
    var p := events[k].0;
    var s, s' := StateAfter(events, k);
    assert s'.procs[p] == Returned(Some(d));
    ReturnedStays(events, k + 1, p);
    StandsByItsCalls(events[..k], p);
    assert events[..k + 1][..k] == events[..k];
    assert Calls(events[..k + 1], p) == [SpawnEnsure] + [Get(true)];
    NoCallsSince(events, k + 1, p);
  }

  lemma {:induction false} NoCallsSince(events: seq<(nat, Event)>, n: nat, p: nat)
    requires n <= |events| && forall i :: n <= i < |events| ==> events[i].0 != p
    ensures Calls(events, p) == Calls(events[..n], p)
    decreases |events|
  {
    if n < |events| {
      var m := |events| - 1;
      assert events[..m][..n] == events[..n] && forall i :: 0 <= i < m ==> events[..m][i] == events[i];
      NoCallsSince(events[..m], n, p);
    } else {
      assert events[..n] == events;
    }
  }

  /** Event `k` is a link that was lost to the record `d`. */
  ghost predicate Loses(events: seq<(nat, Event)>, k: int, d: Dir) {
    && 0 <= k < |events| && events[k].1 == PutNew(true)
    && Run(events[..k]).Some? && Run(events[..k]).value.record == Some(d)
  }

  /** A process that loses the race and rereads the record before anyone deletes it returns the directory
      that was recorded when it lost, for good. */
  lemma LosersReturnTheWinners(events: seq<(nat, Event)>, k: nat, m: nat, d: Dir)
    requires Run(events).Some? && Loses(events, k, d) && k < m < |events|
    requires events[m] == (events[k].0, Get(true)) && forall i :: k < i < m ==> !Deletes(events, i, d)
    ensures events[k].0 in Run(events).value.procs && Run(events).value.procs[events[k].0] == Returned(Some(d))
  {
    hide Run;
    var p := events[k].0;
    RecordStays(events, k, m, d);
    var s, s' := StateAfter(events, k);
    assert s'.procs[p].Losing?;
    RunsBefore(events, m);
    assert events[..m][..k + 1] == events[..k + 1];
    LosingUntil(events[..m], k + 1, p);
    var t, t' := StateAfter(events, m);
    assert t'.procs[p] == Returned(Some(d));
    ReturnedStays(events, m + 1, p);
  }

  lemma {:induction false} LosingUntil(events: seq<(nat, Event)>, n: nat, p: nat)
    requires Run(events).Some? && n <= |events| && Run(events[..n]).Some? && p in Run(events[..n]).value.procs
    requires Run(events[..n]).value.procs[p].Losing?
    ensures p in Run(events).value.procs
    ensures var q := Run(events).value.procs[p]; q.Losing? || q.Rereading? || q.Returned?
    decreases |events|
  {
    if n < |events| {
      var m := |events| - 1;
      RunsBefore(events, m);
      assert events[..m][..n] == events[..n];
      LosingUntil(events[..m], n, p);
      var s := Run(events[..m]).value;
      if events[m].0 != p { OthersStay(s, events[m].0, events[m].1, p); }
    } else {
      assert events[..n] == events;
    }
  }

  /** A stop that ran to its end with every call working has left neither the directory it read nor a
      record of it, whatever the others did and will do. */
  lemma {:induction false} StopsTakeItAway(events: seq<(nat, Event)>, p: nat, d: Dir)
    requires Run(events).Some? && Calls(events, p) == [SpawnStop, Get(true), Delete(true), Remove(true)]
    requires |Met(events, p)| == 4 && Met(events, p)[1] == Some(d)
    ensures Gone(Run(events).value, d)
    decreases |events|
  {
    hide Step;
    var before, last := events[..|events| - 1], events[|events| - 1];
    var s := Run(before).value;
    if last.0 == p {
      var calls := Calls(before, p);
      assert calls == (calls + [last.1])[..3] && last.1 == (calls + [last.1])[3];
      StandsByItsCalls(before, p);
      RunKeepsInv(before);
      StandsLast(calls, Met(before, p), s.procs[p]);
      RemovesIt(s, p, d);
    } else {
      assert Calls(events, p) == Calls(before, p) && Met(events, p) == Met(before, p);
      StopsTakeItAway(before, p, d);
      RunKeepsInv(before);
      StaysGone(s, last.0, last.1, d);
    }
  }

  ghost predicate Gone(s: State, d: Dir) {
    d in s.recorded && d !in s.live && d in s.removed && s.record != Some(d)
  }

  lemma StandsLast(calls: seq<Event>, met: seq<Option<Dir>>, q: Proc)
    requires Stands(calls, met, q) && calls == [SpawnStop, Get(true), Delete(true)]
    ensures |met| == 3 && met[1].Some? && q == StopRemoving(met[1].value)
  {
  }

  lemma RemovesIt(s: State, p: nat, d: Dir)
    requires Inv(s) && p in s.procs && s.procs[p] == StopRemoving(d)
    ensures Step(s, p, Remove(true)).Some? && Gone(Step(s, p, Remove(true)).value, d)
  {
  }

  lemma StaysGone(s: State, p: nat, e: Event, d: Dir)
    requires Inv(s) && Step(s, p, e).Some? && Gone(s, d)
    ensures Gone(Step(s, p, e).value, d)
  {
    hide LogAgrees, NothingLost;
  }
}
