/** What the climb to the runtime passes through, told from the process table alone: which command
    lines make a shell a wrapper, and whom a helper under any such shells is bound to. */
module Wrappers {
  import opened Text
  import opened Kernel
  import opened Binding
  import Paths

  // -------------------------------------------------------------- option clusters

  predicate Letters(s: string) {
    forall i :: 0 <= i < |s| ==> 'a' <= s[i] <= 'z' || 'A' <= s[i] <= 'Z'
  }

  /** ^-[A-Za-z]*c[A-Za-z]*$ */
  ghost predicate Cluster(a: string) {
    exists x, y :: IsCluster(a, x, y)
  }

  predicate IsCluster(a: string, x: string, y: string) {
    Letters(x) && Letters(y) && a == "-" + x + "c" + y
  }

  /** Any letters around a c make a command-string option, and every such option is of that form. */
  lemma ClusterExactly(a: string)
    ensures ShortFlagWithC(a) <==> Cluster(a)
  {
    if ShortFlagWithC(a) {
      var k :| 1 <= k < |a| && a[k] == 'c';
      assert a == "-" + a[1..k] + "c" + a[k + 1..];
      assert IsCluster(a, a[1..k], a[k + 1..]);
    }
    if Cluster(a) {
      var x, y :| IsCluster(a, x, y);
      assert a[|x| + 1] == 'c';
      assert forall i :: 1 <= i < |a| ==> a[i] == if i <= |x| then x[i - 1] else if i == |x| + 1 then 'c' else y[i - |x| - 2];
    }
  }

  // -------------------------------------------------------------- the arguments of a process

  /** A command line as the kernel keeps it: every argument with a zero byte after it. */
  function CommandLine(args: seq<string>): string {
    if args == [] then "" else args[0] + ['\0'] + CommandLine(args[1..])
  }

  predicate NoZeros(args: seq<string>) {
    forall i :: 0 <= i < |args| ==> '\0' !in args[i]
  }

  lemma {:induction false} TrimRightKeeps(a: string, b: string, c: char)
    requires a != "" && a[|a| - 1] != c
    ensures TrimRight(a + b, c) == a + TrimRight(b, c)
    decreases |b|
  {
    if b == "" {
      assert a + b == a;
    } else {
      assert (a + b)[|a + b| - 1] == b[|b| - 1] && (a + b)[..|a + b| - 1] == a + b[..|b| - 1];
      if b[|b| - 1] == c { TrimRightKeeps(a, b[..|b| - 1], c); }
    }
  }

  lemma {:induction false} TrimRightPrefix(s: string, c: char)
    ensures |TrimRight(s, c)| <= |s| && TrimRight(s, c) == s[..|TrimRight(s, c)|]
  {
    if |s| > 0 && s[|s| - 1] == c {
      TrimRightPrefix(s[..|s| - 1], c);
    }
  }

  /** The arguments up to a non-empty one are read as they were given. */
  lemma {:induction false} ArgsReadBack(args: seq<string>, k: nat)
    requires NoZeros(args) && k < |args| && args[k] != ""
    ensures |ArgsOf(CommandLine(args))| > k && ArgsOf(CommandLine(args))[..k + 1] == args[..k + 1]
    decreases k
  {
    hide Split, TrimRight;
    if k == 0 {
      FirstArgReadBack(args[0], CommandLine(args[1..]));
    } else {
      ArgsReadBack(args[1..], k - 1);
      LastOfLine(args[1..], k - 1);
      ConsArg(args[0], CommandLine(args[1..]));
      assert args[..k + 1] == [args[0]] + args[1..][..k];
    }
  }

  lemma FirstArgReadBack(a: string, rest: string)
    requires '\0' !in a && a != ""
    ensures ArgsOf(a + ['\0'] + rest)[..1] == [a]
  {
    hide Split;
    var tail := TrimRight(['\0'] + rest, '\0');
    assert a + ['\0'] + rest == a + (['\0'] + rest);
    TrimRightKeeps(a, ['\0'] + rest, '\0');
    TrimRightPrefix(['\0'] + rest, '\0');
    if tail == "" {
      assert a + tail == a;
      Paths.SplitOne(a, '\0');
    } else {
      assert a + tail == a + ['\0'] + tail[1..];
      Paths.SplitAt(a, '\0', tail[1..]);
    }
  }

  /** One more argument in front. */
  lemma ConsArg(a: string, rest: string)
    requires '\0' !in a && exists m :: 0 <= m < |rest| && rest[m] != '\0'
    ensures ArgsOf(a + ['\0'] + rest) == [a] + ArgsOf(rest)
  {
    hide Split, TrimRight;
    var m :| 0 <= m < |rest| && rest[m] != '\0';
    var upTo, after := rest[..m + 1], rest[m + 1..];
    assert a + ['\0'] + rest == (a + ['\0'] + upTo) + after && rest == upTo + after;
    TrimRightKeeps(a + ['\0'] + upTo, after, '\0');
    TrimRightKeeps(upTo, after, '\0');
    assert a + ['\0'] + upTo + TrimRight(after, '\0') == a + ['\0'] + (upTo + TrimRight(after, '\0'));
    Paths.SplitAt(a, '\0', TrimRight(rest, '\0'));
  }

  lemma {:induction false} LastOfLine(args: seq<string>, k: nat)
    requires NoZeros(args) && k < |args| && args[k] != ""
    ensures exists m :: 0 <= m < |CommandLine(args)| && CommandLine(args)[m] != '\0'
  {
    var a, rest := args[0], CommandLine(args[1..]);
    if k == 0 {
      assert CommandLine(args)[0] == a[0];
    } else {
      LastOfLine(args[1..], k - 1);
      var m :| 0 <= m < |rest| && rest[m] != '\0';
      assert CommandLine(args)[|a| + 1 + m] == rest[m];
    }
  }

  // -------------------------------------------------------------- wrappers on the process table

  /** The file a process runs, as /proc names it: removed files carry a note. */
  predicate RunsFile(p: Proc, dir: string, name: string) {
    '/' !in name && (p.exe == dir + "/" + name || p.exe == dir + "/" + name + " (deleted)")
  }

  predicate ShellName(name: string) {
    || name == "sh" || name == "bash" || name == "dash" || name == "ash" || name == "zsh" || name == "ksh" || name == "mksh" || name == "busybox"
  }

  /** `p` was started with `args`, of which the first `k` after its name are options and the next is a
      cluster with a c. */
  ghost predicate StartedWithCommand(p: Proc, args: seq<string>, k: nat) {
    && NoZeros(args) && 1 <= k < |args| && p.cmdline == CommandLine(args)
    && Cluster(args[k]) && forall j :: 1 <= j < k ==> args[j] != "" && args[j][0] == '-'
  }

  lemma TrimDeleted(base: string)
    ensures TrimSuffix(base + " (deleted)", " (deleted)") == base
  {
    var s := base + " (deleted)";
    assert s[|s| - 10..] == " (deleted)" && s[..|s| - 10] == base;
  }

  lemma FileNames(p: Proc, dir: string, name: string)
    requires RunsFile(p, dir, name) && !HasSuffix(name, " (deleted)")
    ensures AfterLast(InfoOf(p, true).exe, '/') == name
  {
    Paths.AfterLastOf(dir, name);
    TrimDeleted(dir + "/" + name);
    NotDeleted(dir, name);
  }

  lemma NotDeleted(dir: string, name: string)
    requires !HasSuffix(name, " (deleted)")
    ensures !HasSuffix(dir + "/" + name, " (deleted)")
  {
    var base, note := dir + "/" + name, " (deleted)";
    assert forall i :: 0 <= i < |note| ==> note[i] != '/';
    if |name| >= |note| {
      assert name[|name| - |note|..] == base[|base| - |note|..];
    } else if |base| >= |note| {
      assert base[|base| - |note|..][|note| - 1 - |name|] == '/';
    }
  }

  lemma ShortNames(name: string)
    requires ShellName(name)
    ensures |name| <= 7 && '/' !in name && !HasSuffix(name, " (deleted)")
  {
  }

  /** A shell of any of the eight names, started with a command string, is climbed through. */
  lemma ShellIsWrapper(p: Proc, dir: string, name: string, args: seq<string>, k: nat)
    requires ShellName(name) && RunsFile(p, dir, name) && StartedWithCommand(p, args, k)
    ensures Wrapper(p)
  {
    ShortNames(name);
    FileNames(p, dir, name);
    forall j | 1 <= j <= k ensures args[j] != "" && args[j][0] == '-' {
      if j == k { var x, y :| IsCluster(args[k], x, y); }
    }
    ArgsReadBack(args, k);
    ClusterExactly(args[k]);
    var read := ArgsOf(p.cmdline);
    assert forall j :: 0 <= j <= k ==> read[j] == read[..k + 1][j] && args[j] == args[..k + 1][j];
    assert forall j :: 1 <= j < k ==> HasPrefix(read[j], "-");
    assert ShortFlagWithC(read[k]);
  }

  /** A process that runs another file is not, whatever its arguments say. */
  lemma OthersAreNot(p: Proc, dir: string, name: string)
    requires !ShellName(name) && RunsFile(p, dir, name) && !HasSuffix(name, " (deleted)")
    ensures !Wrapper(p)
  {
    FileNames(p, dir, name);
  }

  /** Nor is a shell whose first argument that is no option comes before any command-string option. */
  lemma ScriptIsNot(p: Proc, args: seq<string>, k: nat)
    requires NoZeros(args) && 1 <= k < |args| && p.cmdline == CommandLine(args)
    requires args[k] != "" && args[k][0] != '-' && forall j :: 1 <= j < k ==> !Cluster(args[j])
    ensures !Wrapper(p)
  {
    ArgsReadBack(args, k);
    var read := ArgsOf(p.cmdline);
    hide Split, TrimRight, AfterLast, TrimSuffix, CommandLine;
    forall j | 0 <= j <= k ensures read[j] == args[j] { assert read[j] == read[..k + 1][j] && args[j] == args[..k + 1][j]; }
    StopsAt(InfoOf(p, true).exe, read, k) by {
      forall j | 1 <= j < k ensures !ShortFlagWithC(read[j]) { ClusterExactly(args[j]); }
    }
  }

  lemma StopsAt(exe: string, args: seq<string>, k: nat)
    requires 1 <= k < |args| && args[k] != "" && args[k][0] != '-' && forall j :: 1 <= j < k ==> !ShortFlagWithC(args[j])
    ensures !RunsCommandString(exe, args)
  {
    assert !ShortFlagWithC(args[k]) && !HasPrefix(args[k], "-");
  }

  // -------------------------------------------------------------- whom a helper is bound to

  /** `pids` lead from the peer up the table, each the parent of the one before: a helper, shells running
      command strings, and a process that is none, all of the peer's user and none younger than the one
      below it. */
  ghost predicate Ladder(t: map<int, Proc>, peer: Peer, helper: Option<(nat, nat)>, pids: seq<int>) {
    && |pids| >= 2 && pids[0] == peer.pid
    && (forall i :: 0 <= i < |pids| ==> pids[i] in t && t[pids[i]].uid == peer.uid)
    && (forall i :: 1 <= i < |pids| ==> pids[i] == t[pids[i - 1]].ppid && pids[i] >= 2 && t[pids[i]].start <= t[pids[i - 1]].start)
    && helper == Some((t[peer.pid].dev, t[peer.pid].ino))
    && (forall i :: 1 <= i < |pids| - 1 ==> CommandShell(t[pids[i]]))
  }

  ghost predicate CommandShell(p: Proc) {
    exists dir, name, args, k: nat :: ShellName(name) && RunsFile(p, dir, name) && StartedWithCommand(p, args, k)
  }

  ghost predicate NoShell(p: Proc) {
    exists dir, name :: !ShellName(name) && RunsFile(p, dir, name) && !HasSuffix(name, " (deleted)")
  }

  lemma {:induction false} LadderClimbs(t: map<int, Proc>, peer: Peer, helper: Option<(nat, nat)>, pids: seq<int>, n: nat)
    requires Ladder(t, peer, helper, pids) && n < |pids|
    ensures Up(t, peer.pid, n) == pids[n]
  {
    if n > 0 { LadderClimbs(t, peer, helper, pids, n - 1); }
  }

  lemma ShellsAreClimbed(p: Proc)
    ensures CommandShell(p) ==> Wrapper(p)
    ensures NoShell(p) ==> !Wrapper(p)
  {
    if CommandShell(p) {
      var dir, name, args, k: nat :| ShellName(name) && RunsFile(p, dir, name) && StartedWithCommand(p, args, k);
      ShellIsWrapper(p, dir, name, args, k);
    }
    if NoShell(p) {
      var dir, name :| !ShellName(name) && RunsFile(p, dir, name) && !HasSuffix(name, " (deleted)");
      OthersAreNot(p, dir, name);
    }
  }

  /** Up to three shells lead to the runtime; a fourth one in their place refuses. */
  lemma LadderLeads(t: map<int, Proc>, peer: Peer, helper: Option<(nat, nat)>, pids: seq<int>)
    requires Ladder(t, peer, helper, pids)
    ensures |pids| <= 5 && NoShell(t[pids[|pids| - 1]]) ==> RuntimeAt(t, peer, helper, |pids| - 1) && Up(t, peer.pid, |pids| - 1) == pids[|pids| - 1]
    ensures |pids| > 5 ==> !exists n :: RuntimeAt(t, peer, helper, n)
  {
    hide CommandShell, NoShell, Wrapper;
    forall n: nat | n < |pids| ensures Up(t, peer.pid, n) == pids[n] { LadderClimbs(t, peer, helper, pids, n); }
    forall i | 0 <= i < |pids|
      ensures CommandShell(t[pids[i]]) ==> Wrapper(t[pids[i]])
      ensures NoShell(t[pids[i]]) ==> !Wrapper(t[pids[i]])
    {
      ShellsAreClimbed(t[pids[i]]);
    }
    if |pids| > 5 && exists n :: RuntimeAt(t, peer, helper, n) {
      var n :| RuntimeAt(t, peer, helper, n);
      RuntimeIsNone(t, peer, helper, n, n);
    }
  }

  /** On the way to the runtime at `n`, process `m` is a wrapper exactly when it is below. */
  lemma RuntimeIsNone(t: map<int, Proc>, peer: Peer, helper: Option<(nat, nat)>, n: int, m: int)
    requires RuntimeAt(t, peer, helper, n) && 0 <= m
    ensures 0 <= n <= 4
    ensures m <= n ==> Up(t, peer.pid, m) in t && (0 < m ==> (Wrapper(t[Up(t, peer.pid, m)]) <==> m < n))
    ensures peer.pid in t && (n == 0 <==> helper != Some((t[peer.pid].dev, t[peer.pid].ino)))
  {
    hide Wrapper, Above;
  }

  lemma RuntimeIsUnique(t: map<int, Proc>, peer: Peer, helper: Option<(nat, nat)>, m: int, n: int)
    requires RuntimeAt(t, peer, helper, m) && RuntimeAt(t, peer, helper, n)
    ensures m == n
  {
    RuntimeIsNone(t, peer, helper, m, m);
    RuntimeIsNone(t, peer, helper, n, n);
    RuntimeIsNone(t, peer, helper, n, m);
    RuntimeIsNone(t, peer, helper, m, n);
    hide RuntimeAt, Wrapper;
  }

  predicate IsAsOnTable(l: Link, t: map<int, Proc>, pid: int, peer: Peer) {
    && l.pid == pid && pid in t && l.info.start == t[pid].start && l.info.ppid == t[pid].ppid
    && l.info.dev == t[pid].dev && l.info.ino == t[pid].ino && l.info.uid == peer.uid
  }

  /** On an unchanging table a helper below any shells that run command strings is bound to the first
      process above them that is none, as the table has it; with more than three shells it is refused. */
  method BindThroughShells(fs: ProcFs, peer: Peer, helper: Option<(nat, nat)>, ghost pids: seq<int>) returns (r: Result<Link, Refusal>)
    requires Run(fs.kernel) && fs.Quiet(fs.now)
    requires Ladder(Living(fs.kernel(fs.now).table), peer, helper, pids)
    modifies fs
    ensures var t := Living(old(fs.kernel(fs.now).table));
            var top := pids[|pids| - 1];
            && (|pids| <= 5 && NoShell(t[top]) ==> r.Ok? && IsAsOnTable(r.value, t, top, peer))
            && (|pids| > 5 ==> r.Err?)
  {
    hide NoShell, RuntimeAt, ChainMeetsRule, Snapshot;
    ghost var t := Living(fs.kernel(fs.now).table);
    LadderLeads(t, peer, helper, pids);
    ghost var chain, instant;
    r, chain, instant := fs.BindRuntime(peer, helper);
    if r.Ok? && |pids| <= 5 && NoShell(t[pids[|pids| - 1]]) { RuntimeIsUnique(t, peer, helper, |pids| - 1, |chain| - 1); }
  }
}
