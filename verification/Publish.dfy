/** Publishing a file under its final name so that a crash at any point leaves the old state of that
    name or the complete new content. A directory keeps what is on disk apart from the operations a
    crash may still lose, any of them independently; data not yet flushed may come back as anything. */
module Publish {
  import opened Text

  datatype File = File(content: string, synced: bool)

  datatype Op = Add(name: string, ino: nat) | Drop(name: string) | Move(from: string, to: string, ino: nat)

  /** `durable` are the entries on disk and `pending` the operations since the last flush of the
      directory, oldest first. */
  datatype Fs = Fs(files: map<nat, File>, durable: map<string, nat>, pending: seq<Op>)

  function Apply(entries: map<string, nat>, op: Op): map<string, nat> {
    match op
    case Add(n, i) => entries[n := i]
    case Drop(n) => entries - {n}
    case Move(f, t, i) => (entries - {f})[t := i]
  }

  /** The entries when the operations marked in `keep` take effect, in order. */
  function Surviving(durable: map<string, nat>, ops: seq<Op>, keep: seq<bool>): map<string, nat>
    requires |keep| == |ops|
  {
    if ops == [] then durable
    else
      var n := |ops| - 1;
      var before := Surviving(durable, ops[..n], keep[..n]);
      if keep[n] then Apply(before, ops[n]) else before
  }

  function All(n: nat): (keep: seq<bool>)
    ensures |keep| == n && forall i :: 0 <= i < n ==> keep[i]
  {
    seq(n, _ => true)
  }

  /** The entries a running program sees: every operation has taken effect. */
  function Visible(fs: Fs): map<string, nat> {
    Surviving(fs.durable, fs.pending, All(|fs.pending|))
  }

  /** What reading `name` can give when these are the entries: nothing, or the file's content, which
      is anything at all unless it was flushed. */
  predicate Reads(files: map<nat, File>, entries: map<string, nat>, name: string, o: Option<string>) {
    if name !in entries then o.None?
    else o.Some? && (entries[name] in files && files[entries[name]].synced ==> o.value == files[entries[name]].content)
  }

  /** `o` can be found at `name` after a crash now. */
  ghost predicate AfterCrash(fs: Fs, name: string, o: Option<string>) {
    exists keep :: Survives(fs, keep, name, o)
  }

  predicate Survives(fs: Fs, keep: seq<bool>, name: string, o: Option<string>) {
    |keep| == |fs.pending| && Reads(fs.files, Surviving(fs.durable, fs.pending, keep), name, o)
  }

  /** With nothing pending and every file flushed, a crash finds exactly what a program sees. */
  lemma SettledHasOneOutcome(fs: Fs, name: string, o: Option<string>)
    requires fs.pending == [] && name in fs.durable ==> fs.durable[name] in fs.files && fs.files[fs.durable[name]].synced
    requires fs.pending == []
    ensures AfterCrash(fs, name, o) <==> o == if name in fs.durable then Some(fs.files[fs.durable[name]].content) else None
  {
    assert Survives(fs, [], name, o) <==> Reads(fs.files, fs.durable, name, o);
    assert forall keep: seq<bool> :: |keep| == 0 ==> keep == [];
  }

  // -------------------------------------------------------------- what each call does to a name

  predicate Touches(op: Op, name: string) {
    match op
    case Add(n, _) => n == name
    case Drop(n) => n == name
    case Move(f, t, _) => f == name || t == name
  }

  function InoOf(op: Op): Option<nat> {
    match op
    case Add(_, i) => Some(i)
    case Drop(_) => None
    case Move(_, _, i) => Some(i)
  }

  /** The file numbers that some crash could leave at `name`. */
  ghost predicate MayName(fs: Fs, name: string, ino: nat) {
    || (name in fs.durable && fs.durable[name] == ino)
    || exists k :: 0 <= k < |fs.pending| && Touches(fs.pending[k], name) && InoOf(fs.pending[k]) == Some(ino)
  }

  lemma {:induction false} SurvivorsMayName(fs: Fs, keep: seq<bool>, name: string)
    requires |keep| == |fs.pending|
    requires name in Surviving(fs.durable, fs.pending, keep)
    ensures MayName(fs, name, Surviving(fs.durable, fs.pending, keep)[name])
    decreases |fs.pending|
  {
    if fs.pending != [] {
      var n := |fs.pending| - 1;
      var fs' := fs.(pending := fs.pending[..n]);
      var before := Surviving(fs.durable, fs'.pending, keep[..n]);
      if !keep[n] || !Touches(fs.pending[n], name) {
        SurvivorsMayName(fs', keep[..n], name);
        MayStillName(fs, fs', name, before[name]);
      }
    }
  }

  lemma MayStillName(fs: Fs, fs': Fs, name: string, ino: nat)
    requires fs.pending != [] && fs' == fs.(pending := fs.pending[..|fs.pending| - 1]) && MayName(fs', name, ino)
    ensures MayName(fs, name, ino)
  {
    if !(name in fs.durable && fs.durable[name] == ino) {
      var k :| 0 <= k < |fs'.pending| && Touches(fs'.pending[k], name) && InoOf(fs'.pending[k]) == Some(ino);
      assert fs.pending[k] == fs'.pending[k];
    }
  }

  /** A file that no crash can leave at `name` can change without anything changing there. */
  lemma ChangingElsewhere(fs: Fs, ino: nat, file: File, name: string)
    requires !MayName(fs, name, ino)
    ensures NoWorse(fs, fs.(files := fs.files[ino := file]), name)
  {
    hide MayName;
    var fs' := fs.(files := fs.files[ino := file]);
    forall o | AfterCrash(fs', name, o) ensures AfterCrash(fs, name, o) {
      var keep :| Survives(fs', keep, name, o);
      if name in Surviving(fs.durable, fs.pending, keep) { SurvivorsMayName(fs, keep, name); }
      assert Survives(fs, keep, name, o);
    }
  }

  /** Everything that can be found at `name` in the later state could be found there in the earlier. */
  ghost predicate NoWorse(before: Fs, after: Fs, name: string) {
    forall o :: AfterCrash(after, name, o) ==> AfterCrash(before, name, o)
  }

  lemma SurvivingNext(durable: map<string, nat>, ops: seq<Op>, op: Op, keep: seq<bool>)
    requires |keep| == |ops| + 1
    ensures Surviving(durable, ops + [op], keep)
         == if keep[|ops|] then Apply(Surviving(durable, ops, keep[..|ops|]), op) else Surviving(durable, ops, keep[..|ops|])
  {
    assert (ops + [op])[..|ops|] == ops;
  }

  /** An operation on other names changes nothing at `name`. */
  lemma OperatingElsewhere(fs: Fs, op: Op, name: string)
    requires !Touches(op, name)
    ensures NoWorse(fs, fs.(pending := fs.pending + [op]), name)
  {
    var fs' := fs.(pending := fs.pending + [op]);
    forall o | AfterCrash(fs', name, o) ensures AfterCrash(fs, name, o) {
      var keep :| Survives(fs', keep, name, o);
      SurvivingNext(fs.durable, fs.pending, op, keep);
      assert Survives(fs, keep[..|fs.pending|], name, o);
    }
  }

  /** Putting a flushed file at `name` adds its content to what can be found there. */
  lemma PlacingFlushed(fs: Fs, op: Op, ino: nat, name: string)
    requires op == Add(name, ino) || (op.Move? && op.to == name && op.from != name && op.ino == ino)
    requires ino in fs.files && fs.files[ino].synced
    ensures forall o :: AfterCrash(fs.(pending := fs.pending + [op]), name, o) ==> AfterCrash(fs, name, o) || o == Some(fs.files[ino].content)
  {
    var fs' := fs.(pending := fs.pending + [op]);
    forall o | AfterCrash(fs', name, o) ensures AfterCrash(fs, name, o) || o == Some(fs.files[ino].content) {
      var keep :| Survives(fs', keep, name, o);
      SurvivingNext(fs.durable, fs.pending, op, keep);
      if !keep[|fs.pending|] { assert Survives(fs, keep[..|fs.pending|], name, o); }
    }
  }

  /** Flushing the directory leaves one of the states a crash could have left before. */
  lemma FlushingDirectory(fs: Fs, name: string)
    ensures NoWorse(fs, Fs(fs.files, Visible(fs), []), name)
  {
    var fs' := Fs(fs.files, Visible(fs), []);
    forall o | AfterCrash(fs', name, o) ensures AfterCrash(fs, name, o) {
      var keep :| Survives(fs', keep, name, o);
      assert Survives(fs, All(|fs.pending|), name, o);
    }
  }

  lemma VisibleNext(fs: Fs, op: Op)
    ensures Visible(fs.(pending := fs.pending + [op])) == Apply(Visible(fs), op)
  {
    var keep := All(|fs.pending| + 1);
    SurvivingNext(fs.durable, fs.pending, op, keep);
    assert keep[..|fs.pending|] == All(|fs.pending|);
  }

  /** Every file number in use names a file. */
  ghost predicate WellFormed(fs: Fs) {
    && (forall n :: n in fs.durable ==> fs.durable[n] in fs.files)
    && (forall k :: 0 <= k < |fs.pending| && InoOf(fs.pending[k]).Some? ==> InoOf(fs.pending[k]).value in fs.files)
  }

  lemma FreshNamesNothing(fs: Fs, ino: nat, name: string)
    requires WellFormed(fs) && ino !in fs.files
    ensures !MayName(fs, name, ino)
  {
  }

  // -------------------------------------------------------------- the protocol

  /** Which calls work; `written` is how much of the content a failed write leaves. */
  datatype Faults = Faults(opens: bool, modes: bool, writes: bool, written: nat, syncs: bool, closes: bool,
                           moves: bool, flushes: bool, unlinks: bool)

  datatype Failure = CreateFailed | ChmodFailed | WriteFailed | SyncFailed | CloseFailed | PublishFailed | Exists | FlushFailed

  /** In every state from `from` on, a crash leaves at `name` what one could have left before, or the
      complete content. */
  ghost predicate AllSafe(history: seq<Fs>, from: nat, before: Fs, name: string, content: string) {
    && from <= |history|
    && forall k :: from <= k < |history| ==> Safe(before, history[k], name, content)
  }

  ghost predicate Safe(before: Fs, now: Fs, name: string, content: string) {
    forall o :: AfterCrash(now, name, o) ==> AfterCrash(before, name, o) || o == Some(content)
  }

  /** In every state from `from` on, a crash leaves at `name` only what one could have left before. */
  ghost predicate AllUntouched(history: seq<Fs>, from: nat, before: Fs, name: string) {
    && from <= |history|
    && forall k :: from <= k < |history| ==> NoWorse(before, history[k], name)
  }

  class Directory {
    var fs: Fs
    /** Every state the directory has been in. */
    ghost var history: seq<Fs>

    constructor (fs: Fs)
      ensures this.fs == fs && history == [fs]
    {
      this.fs, history := fs, [fs];
    }

    method Change(fs': Fs)
      modifies this
      ensures fs == fs' && history == old(history) + [fs']
    {
      fs := fs';
      history := history + [fs'];
    }

    /** Creates, fills and flushes the temporary file. `name` is untouched throughout. */
    method WriteTemp(name: string, tmp: string, ino: nat, content: string, f: Faults) returns (failure: Option<Failure>, created: bool)
      requires WellFormed(fs) && ino !in fs.files && tmp != name
      modifies this
      ensures old(history) <= history && AllUntouched(history, |old(history)|, old(fs), name)
      ensures NoWorse(old(fs), fs, name) && !MayName(fs, name, ino)
      ensures created <==> f.opens && tmp !in Visible(old(fs))
      ensures !created ==> fs == old(fs) && failure == Some(CreateFailed)
      ensures created ==> Visible(fs) == Visible(old(fs))[tmp := ino]
      ensures failure.None? <==> created && f.modes && f.writes && f.syncs && f.closes
      ensures failure.Some? ==> match failure.value
                case CreateFailed => !created
                case ChmodFailed => !f.modes
                case WriteFailed => f.modes && !f.writes
                case SyncFailed => f.writes && !f.syncs
                case CloseFailed => f.syncs && !f.closes
                case _ => false
      ensures failure.None? ==> ino in fs.files && fs.files[ino] == File(content, true)
    {
      hide AfterCrash, MayName, Visible;
      FreshNamesNothing(fs, ino, name);
      ghost var before := fs;
      assert NoWorse(before, fs, name);
      if !f.opens || tmp in Visible(fs) { return Some(CreateFailed), false; }
      created := true;
      ChangingElsewhere(fs, ino, File("", false), name);
      ghost var filed := fs.(files := fs.files[ino := File("", false)]);
      OperatingElsewhere(filed, Add(tmp, ino), name);
      VisibleNext(filed, Add(tmp, ino));
      SameEntries(fs, filed);
      StaysUnnamed(fs, filed.(pending := filed.pending + [Add(tmp, ino)]), name, ino, Add(tmp, ino));
      Change(fs.(files := fs.files[ino := File("", false)], pending := fs.pending + [Add(tmp, ino)]));
      if !f.modes { return Some(ChmodFailed), created; }
      if !f.writes {
        Rewrite(name, ino, File(content[..if f.written < |content| then f.written else |content|], false));
        return Some(WriteFailed), created;
      }
      Rewrite(name, ino, File(content, false));
      if !f.syncs { return Some(SyncFailed), created; }
      Rewrite(name, ino, File(content, true));
      if !f.closes { return Some(CloseFailed), created; }
      failure := None;
    }

    /** Changes a file that no crash can leave at `name`. */
    method Rewrite(ghost name: string, ino: nat, file: File)
      requires !MayName(fs, name, ino)
      modifies this
      ensures fs == old(fs).(files := old(fs).files[ino := file]) && history == old(history) + [fs]
      ensures NoWorse(old(fs), fs, name) && !MayName(fs, name, ino) && Visible(fs) == Visible(old(fs))
    {
      ChangingElsewhere(fs, ino, file, name);
      SameEntries(fs, fs.(files := fs.files[ino := file]));
      Change(fs.(files := fs.files[ino := file]));
    }

    /** Removes the temporary name, if that works. */
    method Cleanup(ghost name: string, tmp: string, f: Faults)
      requires tmp != name
      modifies this
      ensures f.unlinks ==> history == old(history) + [fs] && Visible(fs) == Visible(old(fs)) - {tmp}
      ensures !f.unlinks ==> history == old(history) && fs == old(fs)
      ensures NoWorse(old(fs), fs, name)
      ensures fs.files == old(fs.files)
    {
      if f.unlinks {
        OperatingElsewhere(fs, Drop(tmp), name);
        VisibleNext(fs, Drop(tmp));
        Change(fs.(pending := fs.pending + [Drop(tmp)]));
      }
    }

    /** Gives the temporary file its final name by `op`, and flushes the directory. */
    method Place(name: string, tmp: string, ino: nat, op: Op, f: Faults) returns (flushed: bool)
      requires tmp != name && ino in fs.files && fs.files[ino].synced
      requires op == Add(name, ino) || op == Move(tmp, name, ino)
      modifies this
      ensures flushed == f.flushes
      ensures old(history) <= history
      ensures fs.files == old(fs.files) && Visible(fs) == Apply(Visible(old(fs)), op)
      ensures flushed ==> fs.pending == []
      ensures Safe(old(fs), fs, name, fs.files[ino].content)
      ensures AllSafe(history, |old(history)|, old(fs), name, fs.files[ino].content)
    {
      hide AfterCrash, Visible;
      ghost var before := fs;
      PlacingFlushed(fs, op, ino, name);
      VisibleNext(fs, op);
      Change(fs.(pending := fs.pending + [op]));
      if !f.flushes { return false; }
      FlushingDirectory(fs, name);
      VisibleWhenFlushed(fs);
      Change(Fs(fs.files, Visible(fs), []));
      return true;
    }

    /** Publishes `content` at `name`: moved over an existing entry when `replace`, and otherwise
        linked, which leaves an existing entry alone. */
    method PublishFile(name: string, tmp: string, ino: nat, content: string, replace: bool, f: Faults) returns (failure: Option<Failure>)
      requires WellFormed(fs) && ino !in fs.files && tmp != name
      modifies this
      ensures old(history) <= history && AllSafe(history, |old(history)|, old(fs), name, content)
      ensures failure.None? ==> forall o :: AfterCrash(fs, name, o) ==> o == Some(content)
      ensures failure.None? ==> Visible(fs) - {tmp} == Visible(old(fs))[name := ino] - {tmp} && ino in fs.files && fs.files[ino].content == content
      ensures failure.Some? && failure != Some(FlushFailed) ==>
                AllUntouched(history, |old(history)|, old(fs), name) && Visible(fs) - {tmp} == Visible(old(fs)) - {tmp}
      ensures !replace && name in Visible(old(fs)) ==> failure.Some? && failure != Some(FlushFailed)
      ensures failure == Some(FlushFailed) ==> Visible(fs) - {tmp} == Visible(old(fs))[name := ino] - {tmp}
      ensures f.opens && tmp !in Visible(old(fs)) && f.unlinks ==> tmp !in Visible(fs)
      ensures failure.None? <==> f.opens && tmp !in Visible(old(fs)) && f.modes && f.writes && f.syncs && f.closes && f.moves && f.flushes
                                 && (replace || name !in Visible(old(fs)))
      ensures failure.Some? ==> match failure.value
                case CreateFailed => !f.opens || tmp in Visible(old(fs))
                case ChmodFailed => !f.modes
                case WriteFailed => f.modes && !f.writes
                case SyncFailed => f.writes && !f.syncs
                case CloseFailed => f.syncs && !f.closes
                case Exists => f.closes && !replace && name in Visible(old(fs))
                case PublishFailed => f.closes && !f.moves
                case FlushFailed => f.moves && !f.flushes
    {
      hide AfterCrash, MayName, Visible, WellFormed;
      ghost var before := fs;
      var created;
      failure, created := WriteTemp(name, tmp, ino, content, f);
      if failure.None? && (!f.moves || (!replace && name in Visible(fs))) {
        failure := Some(if !replace && name in Visible(fs) then Exists else PublishFailed);
      }
      UntouchedIsSafe(history, |old(history)|, before, name, content);
      if failure.Some? {
        if created { Cleanup(name, tmp, f); }
        assert NoWorse(before, fs, name);
        assert Visible(fs) - {tmp} == Visible(before) - {tmp};
        UntouchedIsSafe(history, |old(history)|, before, name, content);
        return;
      }
      ghost var ready, mid := fs, |history|;
      var flushed := Place(name, tmp, ino, if replace then Move(tmp, name, ino) else Add(name, ino), f);
      SafeJoins(history, |old(history)|, mid, before, ready, name, content);
      assert Safe(before, fs, name, content);
      ghost var placed := fs;
      if !replace { Cleanup(name, tmp, f); }
      assert Safe(before, fs, name, content);
      assert Visible(fs) - {tmp} == Visible(before)[name := ino] - {tmp};
      if !flushed { return Some(FlushFailed); }
      FlushedIsComplete(placed, name, ino);
    }
  }

  lemma VisibleWhenFlushed(fs: Fs)
    ensures Visible(Fs(fs.files, Visible(fs), [])) == Visible(fs)
  {
  }

  lemma UntouchedIsSafe(history: seq<Fs>, from: nat, before: Fs, name: string, content: string)
    requires AllUntouched(history, from, before, name)
    ensures AllSafe(history, from, before, name, content)
  {
    hide AfterCrash;
    forall k | from <= k < |history| ensures Safe(before, history[k], name, content) {
      assert NoWorse(before, history[k], name);
    }
  }

  lemma SafeJoins(history: seq<Fs>, from: nat, mid: nat, before: Fs, ready: Fs, name: string, content: string)
    requires from <= mid <= |history| && NoWorse(before, ready, name)
    requires forall k :: from <= k < mid ==> Safe(before, history[k], name, content)
    requires AllSafe(history, mid, ready, name, content)
    ensures AllSafe(history, from, before, name, content)
  {
    hide AfterCrash;
    forall k | from <= k < |history| ensures Safe(before, history[k], name, content) {
      if k >= mid { assert Safe(ready, history[k], name, content); }
    }
  }

  /** Once the directory is flushed only the complete content can be found. */
  lemma FlushedIsComplete(fs: Fs, name: string, ino: nat)
    requires fs.pending == [] && name in Visible(fs) && Visible(fs)[name] == ino && ino in fs.files && fs.files[ino].synced
    ensures forall o :: AfterCrash(fs, name, o) ==> o == Some(fs.files[ino].content)
  {
    forall o | AfterCrash(fs, name, o) ensures o == Some(fs.files[ino].content) {
      var keep :| Survives(fs, keep, name, o);
    }
  }

  lemma SameEntries(a: Fs, b: Fs)
    requires a.durable == b.durable && a.pending == b.pending
    ensures Visible(a) == Visible(b)
  {
  }

  lemma StaysUnnamed(fs: Fs, fs': Fs, name: string, ino: nat, op: Op)
    requires !MayName(fs, name, ino) && fs'.durable == fs.durable && fs'.pending == fs.pending + [op] && !Touches(op, name)
    ensures !MayName(fs', name, ino)
  {
    forall k | 0 <= k < |fs'.pending| ensures !(Touches(fs'.pending[k], name) && InoOf(fs'.pending[k]) == Some(ino)) {
      if k < |fs.pending| { assert fs'.pending[k] == fs.pending[k]; }
    }
  }
}
