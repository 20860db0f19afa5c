/** The stdin of a composed hook: streamed to the upstream hook by one goroutine and drained by
    another, while a bounded copy is kept. Each step below is atomic under the locks of the code, and
    the steps of the two readers and of the caller interleave in any order. */
module Stdin {
  import opened Text

  const MAX_PAYLOAD_BYTES := 0x40_0000

  /** The bound on the copy: one byte more than a payload may have. */
  const LIMIT := MAX_PAYLOAD_BYTES + 1

  datatype End = More | Eof | Failed

  /** What one read of the source gives. */
  datatype Read = Read(data: string, end: End)

  /** What is kept of the reads recorded so far. */
  datatype Kept = Kept(buf: string, eof: bool, failed: bool)

  function Take(n: nat, s: string): string { if |s| <= n then s else s[..n] }

  /** The data of the first `n` reads. */
  function Data(src: nat -> Read, n: nat): string {
    if n == 0 then "" else Data(src, n - 1) + src(n - 1).data
  }

  /** Recording one read: what fits is kept, and how the read ended is noted. */
  function Recording(k: Kept, r: Read): Kept {
    Kept(if |k.buf| < LIMIT then Take(LIMIT, k.buf + r.data) else k.buf, k.eof || r.end.Eof?, k.failed || r.end.Failed?)
  }

  /** The bounded copy, updated in place as reads are recorded. */
  class Copy {
    var buf: string
    var eof: bool
    var failed: bool

    constructor ()
      ensures Value() == Kept("", false, false)
    {
      buf, eof, failed := "", false, false;
    }

    function Value(): Kept
      reads this
    {
      Kept(buf, eof, failed)
    }

    /** Records a read. The reader sees a failure as the end of the stream. */
    method Record(r: Read) returns (end: End)
      modifies this
      ensures Value() == Recording(old(Value()), r)
      ensures end == if r.end.Failed? then Eof else r.end
    {
      var room := LIMIT - |buf|;
      if |r.data| > 0 && room > 0 {
        buf := buf + r.data[..if |r.data| < room then |r.data| else room];
      }
      end := r.end;
      match r.end {
        case Eof => eof := true;
        case Failed =>
          failed := true;
          end := Eof;
        case More =>
      }
    }

    /** The test of the drain before each of its reads. */
    method Finished() returns (done: bool)
      ensures done <==> Full(Value())
    {
      return eof || failed || |buf| >= LIMIT;
    }
  }

  predicate Full(k: Kept) { k.eof || k.failed || |k.buf| >= LIMIT }

  // -------------------------------------------------------------- the interleavings

  datatype Reader = Copier | Drainer

  /** Where a reader is: about to check (the drain only), about to read, holding the read lock, holding
      it with a read not yet recorded, or gone. */
  datatype Pc = Absent | Checking | Wanting | Holding | Got(read: Read) | Gone

  datatype Answer = Answer(raw: Option<string>, failed: bool)

  /** `fetched` counts the reads of the source, `recorded` those recorded. */
  datatype State = State(fetched: nat, recorded: nat, kept: Kept, copier: Pc, drainer: Pc, answer: Option<Answer>)

  datatype Event = StartDrain | Check | Lock(r: Reader) | Fetch(r: Reader) | Record(r: Reader) | Quit | Return

  function PcOf(s: State, r: Reader): Pc { if r.Copier? then s.copier else s.drainer }

  function WithPc(s: State, r: Reader, pc: Pc): State {
    if r.Copier? then s.(copier := pc) else s.(drainer := pc)
  }

  predicate Locked(s: State) {
    s.copier.Holding? || s.copier.Got? || s.drainer.Holding? || s.drainer.Got?
  }

  function Step(src: nat -> Read, s: State, e: Event): Option<State> {
    match e
    case StartDrain => if s.drainer.Absent? then Some(s.(drainer := Checking)) else None
    case Check => if s.drainer.Checking? then Some(s.(drainer := if Full(s.kept) then Gone else Wanting)) else None
    case Lock(r) => if PcOf(s, r).Wanting? && !Locked(s) then Some(WithPc(s, r, Holding)) else None
    case Fetch(r) => if PcOf(s, r).Holding? then Some(WithPc(s, r, Got(src(s.fetched))).(fetched := s.fetched + 1)) else None
    case Record(r) =>
      if !PcOf(s, r).Got? then None
      else
        var read := PcOf(s, r).read;
        var next := if !read.end.More? then Gone else if r.Copier? then Wanting else Checking;
        Some(WithPc(s, r, next).(recorded := s.recorded + 1, kept := Recording(s.kept, read)))
    case Quit => if s.copier.Wanting? then Some(s.(copier := Gone)) else None
    case Return =>
      if s.drainer.Absent? || s.answer.Some? then None
      else Some(s.(answer := Some(Answer(if s.kept.eof then Some(s.kept.buf) else None, s.kept.failed))))
  }

  const INITIAL := State(0, 0, Kept("", false, false), Wanting, Absent, None)

  ghost function Run(src: nat -> Read, events: seq<Event>): Option<State> {
    if events == [] then Some(INITIAL)
    else
      var s := Run(src, events[..|events| - 1]);
      if s.None? then None else Step(src, s.value, events[|events| - 1])
  }

  // -------------------------------------------------------------- what every step keeps

  /** The copy after the first `n` reads. */
  function KeptAfter(src: nat -> Read, n: nat): Kept {
    if n == 0 then Kept("", false, false) else Recording(KeptAfter(src, n - 1), src(n - 1))
  }

  /** How many of the first `n` reads ended the stream. */
  function Ends(src: nat -> Read, n: nat): nat {
    if n == 0 then 0 else Ends(src, n - 1) + if src(n - 1).end.More? then 0 else 1
  }

  function GoneCount(s: State): nat {
    (if s.copier.Gone? then 1 else 0) + if s.drainer.Gone? then 1 else 0
  }

  /** Reads are recorded in the order they were made, with at most one made and not yet recorded, and
      each that ended the stream ended its reader. */
  ghost predicate Inv(src: nat -> Read, s: State) {
    && s.kept == KeptAfter(src, s.recorded)
    && (s.copier.Got? ==> !s.drainer.Holding? && !s.drainer.Got? && s.copier.read == src(s.recorded))
    && (s.drainer.Got? ==> !s.copier.Holding? && !s.copier.Got? && s.drainer.read == src(s.recorded))
    && (s.copier.Holding? ==> !s.drainer.Holding?)
    && s.fetched == s.recorded + (if s.copier.Got? || s.drainer.Got? then 1 else 0)
    && Ends(src, s.recorded) <= GoneCount(s) && s.copier != Absent && s.copier != Checking
    && (s.answer.Some? ==> exists n :: Answers(src, s, n))
  }

  /** The answer was taken when `n` reads were recorded. */
  predicate Answers(src: nat -> Read, s: State, n: nat) {
    && n <= s.recorded && s.answer.Some?
    && s.answer.value == Answer(if KeptAfter(src, n).eof then Some(KeptAfter(src, n).buf) else None, KeptAfter(src, n).failed)
  }

  lemma StepKeepsReads(src: nat -> Read, s: State, e: Event)
    requires Inv(src, s) && Step(src, s, e).Some?
    ensures Inv(src, Step(src, s, e).value)
  {
    hide Recording;
    var s' := Step(src, s, e).value;
    if s.answer.Some? {
      var n :| Answers(src, s, n);
      assert Answers(src, s', n);
    } else if s'.answer.Some? {
      assert Answers(src, s', s.recorded);
    }
  }

  lemma {:induction false} RunKeepsInv(src: nat -> Read, events: seq<Event>)
    requires Run(src, events).Some?
    ensures Inv(src, Run(src, events).value)
  {
    if events != [] {
      RunKeepsInv(src, events[..|events| - 1]);
      StepKeepsReads(src, Run(src, events[..|events| - 1]).value, events[|events| - 1]);
    }
  }

  predicate SomeEnd(src: nat -> Read, n: nat, end: End) {
    exists i: nat :: i < n && src(i).end == end
  }

  /** The copy is the first bytes read, up to the limit, in the order they were read. */
  lemma {:induction false} KeptIsThePrefix(src: nat -> Read, n: nat)
    ensures var k := KeptAfter(src, n);
            k.buf == Take(LIMIT, Data(src, n)) && (k.eof <==> SomeEnd(src, n, Eof)) && (k.failed <==> SomeEnd(src, n, Failed))
  {
    if n > 0 {
      KeptIsThePrefix(src, n - 1);
      var before, read := Data(src, n - 1), src(n - 1);
      TakeAppend(before, read.data);
      EndNext(src, n - 1, Eof);
      EndNext(src, n - 1, Failed);
    }
  }

  lemma TakeAppend(a: string, b: string)
    ensures Take(LIMIT, a + b) == if |Take(LIMIT, a)| < LIMIT then Take(LIMIT, Take(LIMIT, a) + b) else Take(LIMIT, a)
  {
  }

  lemma EndNext(src: nat -> Read, n: nat, end: End)
    ensures SomeEnd(src, n + 1, end) <==> SomeEnd(src, n, end) || src(n).end == end
  {
    if SomeEnd(src, n, end) {
      var i: nat :| i < n && src(i).end == end;
      assert i < n + 1;
    }
    if src(n).end == end { assert n < n + 1; }
  }

  lemma {:induction false} EndsGrow(src: nat -> Read, m: nat, n: nat)
    requires m <= n
    ensures Ends(src, m) <= Ends(src, n)
  {
    if m < n { EndsGrow(src, m, n - 1); }
  }

  // -------------------------------------------------------------- what is handed on

  /** The first read that ended the stream is `e`. */
  predicate FirstEnd(src: nat -> Read, e: nat) {
    !src(e).end.More? && forall i: nat :: i < e ==> src(i).end.More?
  }

  /** After the end of a stream there is nothing more. */
  ghost predicate EofIsFinal(src: nat -> Read) {
    forall i: nat, j: nat :: i <= j && src(i).end.Eof? ==> src(j).end.Eof? && (i < j ==> src(j).data == "")
  }

  /** A failed read came first and the stream ended all the same. */
  ghost predicate FailsThenEnds(src: nat -> Read, f: nat, e: nat) {
    f < e && FirstEnd(src, f) && src(f).end.Failed? && src(e).end.Eof? && forall i: nat :: f < i < e ==> src(i).end.More?
  }

  lemma {:induction false} LeastEnd(src: nat -> Read, n: nat) returns (e: nat)
    requires !src(n).end.More?
    ensures e <= n && FirstEnd(src, e)
  {
    if forall i: nat :: i < n ==> src(i).end.More? {
      e := n;
    } else {
      var m: nat :| m < n && !src(m).end.More?;
      e := LeastEnd(src, m);
    }
  }

  lemma {:induction false} SilentTail(src: nat -> Read, e: nat, n: nat)
    requires EofIsFinal(src) && src(e).end.Eof? && e < n
    ensures Data(src, n) == Data(src, e + 1)
  {
    if n > e + 1 {
      SilentTail(src, e, n - 1);
      assert src(n - 1).data == "";
    }
  }

  /** Bytes are handed on only after the stream has ended, in every interleaving. Either the first end
      is the end of input, and then they are the whole of it if that is within the cap and otherwise
      longer than the cap, or a read failed before and the failure is reported. */
  lemma HandedOnIsWhole(src: nat -> Read, events: seq<Event>) returns (e: nat, f: nat)
    requires EofIsFinal(src) && Run(src, events).Some? && Run(src, events).value.answer.Some?
    requires Run(src, events).value.answer.value.raw.Some?
    ensures var a := Run(src, events).value.answer.value;
            if FirstEnd(src, e) && src(e).end.Eof? then
              && a == Answer(Some(Take(LIMIT, Data(src, e + 1))), false)
              && (|Data(src, e + 1)| <= MAX_PAYLOAD_BYTES ==> a.raw.value == Data(src, e + 1))
              && (|Data(src, e + 1)| > MAX_PAYLOAD_BYTES ==> |a.raw.value| > MAX_PAYLOAD_BYTES)
            else
              FailsThenEnds(src, f, e) && a.failed && a.raw == Some(Take(LIMIT, Data(src, e + 1)))
  {
    hide Run, Recording;
    RunKeepsInv(src, events);
    var s := Run(src, events).value;
    var n :| Answers(src, s, n);
    KeptIsThePrefix(src, n);
    e, f := AnsweredAt(src, s, n);
    SilentTail(src, e, n);
    if FirstEnd(src, e) { NeverFailed(src, e, n); }
  }

  lemma NeverFailed(src: nat -> Read, e: nat, n: nat)
    requires EofIsFinal(src) && FirstEnd(src, e) && src(e).end.Eof?
    ensures !SomeEnd(src, n, Failed)
  {
    assert forall i: nat :: i < n ==> i < e || src(i).end.Eof?;
  }

  /** The end of input that was recorded, and the failure before it if there was one: two readers see
      at most two ends between them. */
  lemma AnsweredAt(src: nat -> Read, s: State, n: nat) returns (e: nat, f: nat)
    requires EofIsFinal(src) && Inv(src, s) && n <= s.recorded && SomeEnd(src, n, Eof)
    ensures e < n && src(e).end.Eof?
    ensures FirstEnd(src, e) || (FailsThenEnds(src, f, e) && SomeEnd(src, n, Failed))
  {
    hide KeptAfter;
    var i: nat :| i < n && src(i).end == Eof;
    f := LeastEnd(src, i);
    if src(f).end.Eof? {
      e := f;
    } else {
      e := i;
      EndsGrow(src, n, s.recorded);
      forall k: nat | f < k < e ensures src(k).end.More? {
        if !src(k).end.More? { ThreeEnds(src, f, k, e, n); }
      }
      assert f < n && src(f).end == Failed;
    }
  }

  lemma ThreeEnds(src: nat -> Read, i: nat, j: nat, k: nat, n: nat)
    requires i < j < k < n && !src(i).end.More? && !src(j).end.More? && !src(k).end.More?
    ensures Ends(src, n) >= 3
  {
    EndsGrow(src, i + 1, j);
    EndsGrow(src, j + 1, k);
    EndsGrow(src, k + 1, n);
  }

  // -------------------------------------------------------------- when a failure is handed on all the same

  lemma Then(src: nat -> Read, events: seq<Event>, s: State, e: Event) returns (events': seq<Event>, s': State)
    requires Run(src, events) == Some(s) && Step(src, s, e).Some?
    ensures Run(src, events') == Some(s') && s' == Step(src, s, e).value
  {
    events', s' := events + [e], Step(src, s, e).value;
    assert events'[..|events|] == events;
  }

  /** A reader about to read can make and record the next read. */
  lemma ReadsOnce(src: nat -> Read, events: seq<Event>, s: State, r: Reader) returns (events': seq<Event>, s': State)
    requires Run(src, events) == Some(s) && PcOf(s, r).Wanting? && !Locked(s) && s.fetched == s.recorded && s.kept == KeptAfter(src, s.recorded)
    ensures Run(src, events') == Some(s')
    ensures var read := src(s.recorded);
            var next := if !read.end.More? then Gone else if r.Copier? then Wanting else Checking;
            s' == WithPc(s, r, next).(recorded := s.recorded + 1, fetched := s.fetched + 1, kept := KeptAfter(src, s.recorded + 1))
  {
    hide Run, Recording;
    events', s' := Then(src, events, s, Lock(r));
    events', s' := Then(src, events', s', Fetch(r));
    events', s' := Then(src, events', s', Record(r));
  }

  /** The copier can read on to read `n` while no read ends the stream. */
  lemma {:induction false} CopierReadsTo(src: nat -> Read, events: seq<Event>, s: State, n: nat) returns (events': seq<Event>, s': State)
    requires Run(src, events) == Some(s) && s.copier.Wanting? && !Locked(s) && s.fetched == s.recorded && s.kept == KeptAfter(src, s.recorded)
    requires s.recorded <= n && forall i: nat :: s.recorded <= i < n ==> src(i).end.More?
    ensures Run(src, events') == Some(s') && s' == s.(recorded := n, fetched := n, kept := KeptAfter(src, n))
    decreases n - s.recorded
  {
    hide Run, Recording, KeptAfter;
    events', s' := events, s;
    if s.recorded < n {
      events', s' := ReadsOnce(src, events, s, Copier);
      events', s' := CopierReadsTo(src, events', s', n);
    }
  }

  /** Whenever a read fails and the next end after it is the end of input, some interleaving hands on
      what was read as though nothing had been lost. */
  lemma FailureCanBeHandedOn(src: nat -> Read, f: nat, e: nat) returns (events: seq<Event>)
    requires FailsThenEnds(src, f, e)
    ensures Run(src, events).Some? && Run(src, events).value.answer == Some(Answer(Some(Take(LIMIT, Data(src, e + 1))), true))
  {
    hide Run, Recording, KeptAfter;
    var s: State;
    events, s := [], INITIAL;
    assert Run(src, events) == Some(s) by { NothingRun(src); }
    events, s := Then(src, events, s, StartDrain);
    events, s := Then(src, events, s, Check);
    assert s.kept == KeptAfter(src, 0) by { NothingKept(src); }
    events, s := CopierReadsTo(src, events, s, f);
    events, s := ReadsOnce(src, events, s, Drainer);
    events, s := CopierReadsTo(src, events, s, e);
    events, s := ReadsOnce(src, events, s, Copier);
    KeptIsThePrefix(src, e + 1);
    assert SomeEnd(src, e + 1, Eof) && SomeEnd(src, e + 1, Failed) by { assert src(e).end == Eof && src(f).end == Failed; }
    events, s := Then(src, events, s, Return);
  }

  lemma NothingRun(src: nat -> Read)
    ensures Run(src, []) == Some(INITIAL)
  {
  }

  lemma NothingKept(src: nat -> Read)
    ensures KeptAfter(src, 0) == Kept("", false, false)
  {
  }
}
