/** What the drain is for: once it has come to its end, a stdin that ends within the cap is handed on
    whole, however little the upstream read, and the drain can always come to its end by itself. */
module StdinDrain {
  import opened Text
  import opened Stdin

  /** The drain has ended only when there was nothing more for it to keep. */
  ghost predicate DrainedMeansFull(s: State) {
    s.drainer.Gone? ==> Full(s.kept)
  }

  lemma StepKeepsDrained(src: nat -> Read, s: State, e: Event)
    requires DrainedMeansFull(s) && Step(src, s, e).Some?
    ensures DrainedMeansFull(Step(src, s, e).value)
    ensures s.drainer.Gone? ==> Step(src, s, e).value.drainer.Gone?
    ensures s.answer.Some? ==> Step(src, s, e).value.answer == s.answer
  {
  }

  lemma {:induction false} RunKeepsDrained(src: nat -> Read, events: seq<Event>)
    requires Run(src, events).Some?
    ensures DrainedMeansFull(Run(src, events).value)
  {
    if events != [] {
      RunKeepsDrained(src, events[..|events| - 1]);
      StepKeepsDrained(src, Run(src, events[..|events| - 1]).value, events[|events| - 1]);
    }
  }

  /** The stdin ends at read `e`, within the cap, and no read of it fails. */
  ghost predicate EndsWithinCap(src: nat -> Read, e: nat) {
    && EofIsFinal(src) && FirstEnd(src, e) && src(e).end.Eof?
    && (forall i: nat :: !src(i).end.Failed?) && |Data(src, e + 1)| <= MAX_PAYLOAD_BYTES
  }

  lemma {:induction false} DataGrows(src: nat -> Read, m: nat, n: nat)
    requires m <= n
    ensures |Data(src, m)| <= |Data(src, n)| && Data(src, m) == Data(src, n)[..|Data(src, m)|]
  {
    if m < n { DataGrows(src, m, n - 1); }
  }

  /** When the drain has ended, what is kept of such a stdin is all of it. */
  lemma FullIsWhole(src: nat -> Read, e: nat, n: nat)
    requires EndsWithinCap(src, e) && Full(KeptAfter(src, n))
    ensures KeptAfter(src, n) == Kept(Data(src, e + 1), true, false)
  {
    hide KeptAfter, Recording;
    KeptIsThePrefix(src, n);
    if n <= e { DataGrows(src, n, e + 1); } else if n > e + 1 { SilentTail(src, e, n); }
    if n > e { assert src(e).end == Eof; }
  }

  /** An answer taken after the drain has ended hands on the whole of a stdin that ends within the cap, in
      every interleaving with the upstream's own reads. */
  lemma {:induction false} DrainedIsHandedOn(src: nat -> Read, events: seq<Event>, n: nat, e: nat)
    requires EndsWithinCap(src, e) && Run(src, events).Some? && n < |events| && events[n] == Return
    requires Run(src, events[..n]).Some? && Run(src, events[..n]).value.drainer.Gone?
    ensures Run(src, events).value.answer == Some(Answer(Some(Data(src, e + 1)), false))
    decreases |events|
  {
    hide Step, Recording;
    var before := events[..|events| - 1];
    var s := Run(src, before).value;
    if n < |events| - 1 {
      assert before[..n] == events[..n] && before[n] == events[n];
      DrainedIsHandedOn(src, before, n, e);
      StepKeepsDrained(src, s, events[|events| - 1]) by { RunKeepsDrained(src, before); }
    } else {
      RunKeepsInv(src, before);
      RunKeepsDrained(src, before);
      FullIsWhole(src, e, s.recorded);
      ReturnAnswers(src, s);
    }
  }

  lemma ReturnAnswers(src: nat -> Read, s: State)
    requires Step(src, s, Return).Some?
    ensures Step(src, s, Return).value.answer == Some(Answer(if s.kept.eof then Some(s.kept.buf) else None, s.kept.failed))
  {
  }

  /** The drain can read on to the end by itself. */
  lemma {:induction false} DrainerReadsTo(src: nat -> Read, events: seq<Event>, s: State, e: nat) returns (events': seq<Event>, s': State)
    requires Run(src, events) == Some(s) && s.drainer.Checking? && !Locked(s) && s.answer.None?
    requires s.fetched == s.recorded <= e && s.kept == KeptAfter(src, s.recorded) && EndsWithinCap(src, e)
    ensures Run(src, events') == Some(s') && s'.drainer.Gone? && s'.answer.None?
    decreases e - s.recorded
  {
    hide Run, Recording, KeptAfter, EndsWithinCap;
    NotFullYet(src, e, s.recorded);
    events', s' := Then(src, events, s, Check);
    events', s' := ReadsOnce(src, events', s', Drainer);
    if s.recorded < e {
      More(src, e, s.recorded);
      events', s' := DrainerReadsTo(src, events', s', e);
    } else {
      AtTheEnd(src, e);
    }
  }

  lemma NotFullYet(src: nat -> Read, e: nat, n: nat)
    requires EndsWithinCap(src, e) && n <= e
    ensures !Full(KeptAfter(src, n))
  {
    KeptIsThePrefix(src, n);
    DataGrows(src, n, e + 1);
  }

  lemma More(src: nat -> Read, e: nat, n: nat)
    requires EndsWithinCap(src, e) && n < e
    ensures src(n).end.More?
  {
  }

  lemma AtTheEnd(src: nat -> Read, e: nat)
    requires EndsWithinCap(src, e)
    ensures !src(e).end.More?
  {
  }

  /** Even when the upstream reads nothing at all, a run of the drain hands the whole of it on. */
  lemma HandedOnUnread(src: nat -> Read, e: nat) returns (events: seq<Event>)
    requires EndsWithinCap(src, e)
    ensures Run(src, events).Some? && Run(src, events).value.answer == Some(Answer(Some(Data(src, e + 1)), false))
  {
    hide Run, Recording, KeptAfter, EndsWithinCap;
    var s := INITIAL;
    events := [];
    NothingRun(src);
    NothingKept(src);
    events, s := Then(src, events, s, Quit);
    events, s := Then(src, events, s, StartDrain);
    events, s := DrainerReadsTo(src, events, s, e);
    var n := |events|;
    events, s := ThenReturn(src, events, s);
    DrainedIsHandedOn(src, events, n, e);
  }

  lemma ThenReturn(src: nat -> Read, events: seq<Event>, s: State) returns (events': seq<Event>, s': State)
    requires Run(src, events) == Some(s) && s.drainer.Gone? && s.answer.None?
    ensures events' == events + [Return] && events'[..|events|] == events && Run(src, events') == Some(s')
  {
    events' := events + [Return];
    assert events'[..|events|] == events;
    s' := Step(src, s, Return).value;
  }
}
