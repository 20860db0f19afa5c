/** Which process an assertion is bound to: reading one process through /proc, and climbing
    from the requesting process to the runtime above it, while the process table changes
    between any two reads. */
module Binding {
  import opened Text
  import opened Kernel

  const MAX_WRAPPER_HOPS := 3

  datatype Peer = Peer(uid: nat, pid: int)

  datatype ProcInfo = ProcInfo(exe: string, args: seq<string>, start: nat, dev: nat, ino: nat,
                               ppid: int, uid: nat, hasUid: bool)

  datatype Link = Link(pid: int, info: ProcInfo)

  datatype Refusal = PeerUnattested | RuntimeUnbound

  // -------------------------------------------------------------- command wrappers

  const SHELL_NAMES: set<string> := {"sh", "bash", "dash", "ash", "zsh", "ksh", "mksh", "busybox"}

  /** A short-option cluster that includes c, such as -c or -lc. */
  predicate ShortFlagWithC(a: string) {
    |a| >= 2 && a[0] == '-' && (forall i :: 1 <= i < |a| ==> Letter(a[i])) && 'c' in a
  }

  /** A shell whose leading options contain a command-string option. */
  ghost predicate RunsCommandString(exe: string, args: seq<string>) {
    && AfterLast(exe, '/') in SHELL_NAMES
    && exists k :: 1 <= k < |args| && ShortFlagWithC(args[k]) && forall j :: 1 <= j < k ==> HasPrefix(args[j], "-")
  }

  method IsCommandWrapper(p: ProcInfo) returns (wrapper: bool)
    ensures wrapper <==> RunsCommandString(p.exe, p.args)
  {
    if AfterLast(p.exe, '/') !in SHELL_NAMES { return false; }
    var i := if |p.args| < 1 then |p.args| else 1;
    while i < |p.args|
      invariant i <= |p.args| && (|p.args| > 0 ==> 1 <= i)
      invariant forall j :: 1 <= j < i ==> HasPrefix(p.args[j], "-") && !ShortFlagWithC(p.args[j])
    {
      if ShortFlagWithC(p.args[i]) { return true; }
      if !HasPrefix(p.args[i], "-") { return false; }
      i := i + 1;
    }
    return false;
  }

  /** Text after the deciding argument, such as the command string, changes nothing. */
  lemma WrapperIgnoresLaterArguments(exe: string, args: seq<string>, args': seq<string>, k: nat)
    requires 1 <= k < |args| && k < |args'|
    requires ShortFlagWithC(args[k]) || !HasPrefix(args[k], "-")
    requires args[..k + 1] == args'[..k + 1]
    ensures RunsCommandString(exe, args) <==> RunsCommandString(exe, args')
  {
    assert forall j :: 0 <= j <= k ==> args[j] == args[..k + 1][j] && args'[j] == args'[..k + 1][j];
    if RunsCommandString(exe, args) {
      var i :| 1 <= i < |args| && ShortFlagWithC(args[i]) && forall j :: 1 <= j < i ==> HasPrefix(args[j], "-");
      var d := if i <= k then i else k;
      assert ShortFlagWithC(args'[d]);
    }
    if RunsCommandString(exe, args') {
      var i :| 1 <= i < |args'| && ShortFlagWithC(args'[i]) && forall j :: 1 <= j < i ==> HasPrefix(args'[j], "-");
      var d := if i <= k then i else k;
      assert ShortFlagWithC(args[d]);
    }
  }

  // -------------------------------------------------------------- reading one process

  function ArgsOf(cmdline: string): seq<string> {
    Split(TrimRight(cmdline, '\0'), '\0')
  }

  function InfoOf(p: Proc, hasUid: bool): ProcInfo {
    ProcInfo(TrimSuffix(p.exe, " (deleted)"), ArgsOf(p.cmdline), p.start, p.dev, p.ino, p.ppid,
             if hasUid then p.uid else 0, hasUid)
  }

  /** The process table as one reader meets it. `wait` is how many kernel steps pass before each
      read and `fails` which reads fail for a reason of their own; both are arbitrary. */
  class ProcFs {
    const kernel: nat -> State
    const wait: nat -> nat
    const fails: nat -> bool
    const suppliesUid: bool
    var now: nat
    var lookups: nat

    constructor (kernel: nat -> State, wait: nat -> nat, fails: nat -> bool, suppliesUid: bool)
      ensures this.kernel == kernel && this.wait == wait && this.fails == fails
      ensures this.suppliesUid == suppliesUid && now == 0 && lookups == 0
    {
      this.kernel, this.wait, this.fails, this.suppliesUid := kernel, wait, fails, suppliesUid;
      now, lookups := 0, 0;
    }

    /** From instant `from` on nothing changes and no read fails of itself. */
    ghost predicate Quiet(from: nat) {
      && suppliesUid
      && (forall t: nat :: t >= from ==> kernel(t) == kernel(from))
      && (forall r: nat :: !fails(r))
    }

    /** One read was made, after as many kernel steps as the kernel took before it. */
    ghost predicate Waited(before: nat, lookup: nat)
      reads this
    {
      now == before + wait(lookup) && lookups == lookup + 1
    }

    /** One read of one file of /proc/<pid>: what it shows is true at the instant of the read. */
    method Look(pid: int) returns (r: Option<Proc>)
      modifies this
      ensures now >= old(now) && Waited(old(now), old(lookups))
      ensures r.Some? ==> pid in kernel(now).table && r.value == kernel(now).table[pid]
      ensures r.None? ==> pid !in kernel(now).table || fails(old(lookups))
    {
      now := now + wait(lookups);
      var failed := fails(lookups);
      lookups := lookups + 1;
      if failed || pid !in kernel(now).table { return None; }
      return Some(kernel(now).table[pid]);
    }

    /** One read that follows the link to the executable: it fails for a zombie. */
    method LookAtFile(pid: int) returns (r: Option<Proc>)
      modifies this
      ensures now >= old(now) && Waited(old(now), old(lookups))
      ensures r.Some? ==> pid in Living(kernel(now).table) && r.value == Living(kernel(now).table)[pid]
      ensures r.None? ==> pid !in Living(kernel(now).table) || fails(old(lookups))
    {
      r := Look(pid);
      if r.Some? && r.value.zombie { return None; }
    }

    /** Every member of `i` was true of the one process `pid` at some instant of [t0, t1]. */
    ghost predicate OneProcess(pid: int, i: ProcInfo, t0: nat, t1: nat) {
      && t0 <= t1
      && (forall t: nat :: t0 <= t <= t1 ==> Present(kernel(t), pid, i.start))
      && Shows(kernel(t0), pid, i.start, i.ppid) && Shows(kernel(t1), pid, i.start, i.ppid)
      && (exists t: nat :: t0 <= t <= t1 && Running(kernel(t), pid, i.start) && i.exe == TrimSuffix(kernel(t).table[pid].exe, " (deleted)"))
      && RunsFileOf(pid, i, t0, t1)
      && (exists t: nat :: t0 <= t <= t1 && pid in kernel(t).table && i.args == ArgsOf(kernel(t).table[pid].cmdline))
      && (i.hasUid ==> exists t: nat :: t0 <= t <= t1 && pid in kernel(t).table && i.uid == kernel(t).table[pid].uid)
    }

    /** Reads a process bracketed by its start time and parent pid. */
    method ReadProc(pid: int) returns (r: Option<ProcInfo>, ghost t0: nat)
      requires Run(kernel)
      modifies this
      ensures old(now) <= t0 <= now
      ensures r.Some? ==> OneProcess(pid, r.value, t0, now) && r.value.hasUid == suppliesUid
      ensures Quiet(old(now)) ==>
                r == if pid in Living(kernel(old(now)).table) then Some(InfoOf(Living(kernel(old(now)).table)[pid], true)) else None
    {
      hide Waited, Kernel.Run, TrimSuffix, ArgsOf;
      var before := Look(pid);
      t0 := now;
      if before.None? { return None, t0; }
      var exe := LookAtFile(pid);
      if exe.None? { return None, t0; }
      ghost var t1 := now;
      var id := LookAtFile(pid);
      if id.None? { return None, t0; }
      ghost var t2 := now;
      var cmd := Look(pid);
      if cmd.None? { return None, t0; }
      ghost var t3 := now;
      var uid := 0;
      if suppliesUid {
        var u := Look(pid);
        if u.None? { return None, t0; }
        uid := u.value.uid;
      }
      ghost var t4 := now;
      var after := Look(pid);
      if after.None? { return None, t0; }
      if before.value.start != after.value.start { return None, t0; }
      if before.value.ppid != after.value.ppid { return None, t0; }
      r := Some(ProcInfo(TrimSuffix(exe.value.exe, " (deleted)"), ArgsOf(cmd.value.cmdline), before.value.start,
                         id.value.dev, id.value.ino, before.value.ppid, uid, suppliesUid));
      PresentThroughout(t0, now, pid, before.value.start);
      assert t0 <= t1 <= t2 <= t3 <= t4 <= now;
      assert kernel(t1) == kernel(t1) && kernel(t2) == kernel(t2) && kernel(t3) == kernel(t3) && kernel(t4) == kernel(t4);
    }

    lemma PresentThroughout(t0: nat, t1: nat, pid: int, start: nat)
      requires Run(kernel) && t0 <= t1 && Present(kernel(t0), pid, start) && Present(kernel(t1), pid, start)
      ensures forall t: nat :: t0 <= t <= t1 ==> Present(kernel(t), pid, start)
    {
      forall t: nat | t0 <= t <= t1 ensures Present(kernel(t), pid, start) {
        PresentBetween(kernel, t0, t, t1, pid, start);
      }
    }

    /** At some instant of [t0, t1] the instance runs the executable file that `i` names. */
    ghost predicate RunsFileOf(pid: int, i: ProcInfo, t0: nat, t1: nat) {
      exists t: nat :: t0 <= t <= t1 && Running(kernel(t), pid, i.start) && i.dev == kernel(t).table[pid].dev && i.ino == kernel(t).table[pid].ino
    }

    /** Re-reads a process and refuses when it is not the one first read, or runs another file. */
    method Confirm(pid: int, first: ProcInfo) returns (refusal: Option<Refusal>)
      requires Run(kernel)
      modifies this
      ensures now >= old(now)
      ensures refusal.None? ==> Shows(kernel(now), pid, first.start, first.ppid) && RunsFileOf(pid, first, old(now), now)
      ensures Quiet(old(now)) && pid in Living(kernel(old(now)).table) && first == InfoOf(Living(kernel(old(now)).table)[pid], true) ==> refusal.None?
    {
      var again, _ := ReadProc(pid);
      if again.None? { return Some(PeerUnattested); }
      if again.value.start != first.start || again.value.ppid != first.ppid
         || again.value.dev != first.dev || again.value.ino != first.ino {
        return Some(RuntimeUnbound);
      }
      return None;
    }

    /** One step up: the parent of `below`, refused when it breaks the rule of the climb. */
    method ReadParent(peer: Peer, below: Link) returns (r: Result<Link, Refusal>, ghost seenAt: nat)
      requires Run(kernel)
      modifies this
      ensures old(now) <= seenAt <= now
      ensures r.Ok? ==> Seen(r.value, seenAt) && Climbed(below, r.value) && RunsAs(r.value, peer)
      ensures Quiet(old(now)) ==>
                && (r.Ok? <==> MeetsRuleAbove(Living(kernel(old(now)).table), peer, below))
                && (r.Ok? ==> r.value.info == InfoOf(Living(kernel(old(now)).table)[below.info.ppid], true))
    {
      seenAt := now;
      var ppid := below.info.ppid;
      if ppid <= 1 { return Err(RuntimeUnbound), seenAt; }
      var parent;
      parent, seenAt := ReadProc(ppid);
      if parent.None? { return Err(PeerUnattested), seenAt; }
      if !parent.value.hasUid || parent.value.uid != peer.uid { return Err(RuntimeUnbound), seenAt; }
      if parent.value.start > below.info.start { return Err(RuntimeUnbound), seenAt; }
      return Ok(Link(ppid, parent.value)), seenAt;
    }

    /** The climb: from the helper `first` up to the first ancestor that is not a wrapper. */
    method Climb(peer: Peer, ghost helper: Option<(nat, nat)>, first: ProcInfo, ghost seen0: nat)
      returns (r: Result<seq<Link>, Refusal>, ghost seen: seq<nat>)
      requires Run(kernel) && ReadSoFar([Link(peer.pid, first)], [seen0], now)
      requires RunsAs(Link(peer.pid, first), peer) && helper == Some((first.dev, first.ino))
      modifies this
      ensures now >= old(now)
      ensures r.Ok? ==> ReadSoFar(r.value, seen, now) && ChainMeetsRule(peer, helper, r.value)
      ensures Quiet(old(now)) && OnTable(Living(kernel(old(now)).table), peer.pid, [Link(peer.pid, first)]) ==>
                && (r.Ok? ==> OnTable(Living(kernel(old(now)).table), peer.pid, r.value))
                && (r.Err? ==> !exists n :: RuntimeAt(Living(kernel(old(now)).table), peer, helper, n))
    {
      ghost var table := Living(kernel(now).table);
      ghost var still := Quiet(now) && OnTable(table, peer.pid, [Link(peer.pid, first)]);
      var links := [Link(peer.pid, first)];
      seen := [seen0];
      var hops := 0;
      while true
        invariant 0 <= hops <= MAX_WRAPPER_HOPS && |links| == hops + 1
        invariant links[0] == Link(peer.pid, first) && old(now) <= now
        invariant ReadSoFar(links, seen, now)
        invariant Wrappers(peer, links)
        invariant still ==> OnTable(table, peer.pid, links)
        decreases MAX_WRAPPER_HOPS - hops
      {
        var parent, seenAt := ReadParent(peer, links[hops]);
        if parent.Err? {
          if still { NoRuntime(table, peer, helper, links); }
          return Err(parent.error), seen;
        }
        ExtendChain(peer, helper, links, seen, parent.value, seenAt, now);
        if still { ExtendOnTable(table, peer, links, parent.value); }
        links := links + [parent.value];
        seen := seen + [seenAt];
        var wrapper := IsCommandWrapper(parent.value.info);
        if !wrapper { break; }
        if hops >= MAX_WRAPPER_HOPS {
          if still { NoRuntime(table, peer, helper, links); }
          return Err(RuntimeUnbound), seen;
        }
        hops := hops + 1;
      }
      return Ok(links), seen;
    }

    /** The second pass: every member re-read, in order. */
    method ConfirmAll(links: seq<Link>) returns (refusal: Option<Refusal>, ghost confirmed: seq<nat>)
      requires Run(kernel)
      modifies this
      ensures now >= old(now)
      ensures refusal.None? ==> |confirmed| == |links|
      ensures refusal.None? ==> forall k :: 0 <= k < |links| ==> old(now) <= confirmed[k] <= now && Seen(links[k], confirmed[k])
      ensures refusal.None? ==> forall k :: 0 <= k < |links| ==> RunsFileOf(links[k].pid, links[k].info, old(now), now)
      ensures Quiet(old(now)) && AllCurrent(Living(kernel(old(now)).table), links) ==> refusal.None?
    {
      confirmed := [];
      var k := 0;
      while k < |links|
        invariant 0 <= k <= |links| && |confirmed| == k && old(now) <= now
        invariant forall i :: 0 <= i < k ==> old(now) <= confirmed[i] <= now && Seen(links[i], confirmed[i])
        invariant forall i :: 0 <= i < k ==> RunsFileOf(links[i].pid, links[i].info, old(now), now)
      {
        refusal := Confirm(links[k].pid, links[k].info);
        if refusal.Some? { return refusal, confirmed; }
        confirmed := confirmed + [now];
        k := k + 1;
      }
      return None, confirmed;
    }

    /** The first pass: the peer alone, or from a helper up to its runtime. */
    method FirstPass(peer: Peer, helper: Option<(nat, nat)>) returns (r: Result<seq<Link>, Refusal>, ghost seen: seq<nat>)
      requires Run(kernel)
      modifies this
      ensures now >= old(now)
      ensures r.Ok? ==> ReadSoFar(r.value, seen, now) && ChainMeetsRule(peer, helper, r.value)
      ensures Quiet(old(now)) ==>
                && (r.Ok? ==> OnTable(Living(kernel(old(now)).table), peer.pid, r.value))
                && (r.Err? ==> !exists n :: RuntimeAt(Living(kernel(old(now)).table), peer, helper, n))
    {
      ghost var table := Living(kernel(now).table);
      ghost var quiet := Quiet(now);
      seen := [];
      var first, seen0 := ReadProc(peer.pid);
      if first.None? { return Err(PeerUnattested), seen; }
      if !first.value.hasUid || first.value.uid != peer.uid {
        assert quiet ==> Up(table, peer.pid, 0) == peer.pid;
        return Err(RuntimeUnbound), seen;
      }
      var links := [Link(peer.pid, first.value)];
      seen := [seen0];
      assert quiet ==> OnTable(table, peer.pid, links);
      if helper == Some((first.value.dev, first.value.ino)) {
        r, seen := Climb(peer, helper, first.value, seen0);
        return;
      }
      assert ChainMeetsRule(peer, helper, links);
      return Ok(links), seen;
    }

    /** The process an issuance for `peer` binds to. `helper` identifies the gatekeeper client
        executable, when one is configured and can be resolved. On success `instant` lies after
        the first pass and before the second, and the whole chain is real at it. */
    method BindRuntime(peer: Peer, helper: Option<(nat, nat)>)
      returns (r: Result<Link, Refusal>, ghost chain: seq<Link>, ghost instant: nat)
      requires Run(kernel)
      modifies this
      ensures now >= old(now)
      ensures r.Ok? ==> ChainMeetsRule(peer, helper, chain) && r.value == chain[|chain| - 1]
      ensures r.Ok? ==> old(now) <= instant <= now && Snapshot(kernel(instant), chain)
      ensures r.Ok? ==> forall k :: 0 <= k < |chain| ==> RunsFileOf(chain[k].pid, chain[k].info, instant, now)
      ensures Quiet(old(now)) ==> (r.Ok? <==> exists n :: RuntimeAt(Living(kernel(old(now)).table), peer, helper, n))
      ensures Quiet(old(now)) && r.Ok? ==>
                && RuntimeAt(Living(kernel(old(now)).table), peer, helper, |chain| - 1)
                && r.value.pid == Up(Living(kernel(old(now)).table), peer.pid, |chain| - 1)
                && r.value.pid in Living(kernel(old(now)).table) && r.value.info == InfoOf(Living(kernel(old(now)).table)[r.value.pid], true)
    {
      hide RuntimeAt, RunsCommandString, Above;
      ghost var table := Living(kernel(now).table);
      ghost var quiet := Quiet(now);
      chain, instant := [], now;
      var links, seen := FirstPass(peer, helper);
      if links.Err? { return Err(links.error), chain, instant; }
      chain, instant := links.value, now;
      if quiet {
        ChainOnTable(table, peer, helper, chain);
        assert Living(kernel(now).table) == table && Quiet(now) && AllCurrent(table, chain);
      }
      var refusal, confirmed := ConfirmAll(links.value);
      if refusal.Some? { return Err(refusal.value), chain, instant; }
      DoubleCollect(chain, seen, instant, confirmed, now);
      return Ok(links.value[|links.value| - 1]), chain, instant;
    }

    ghost predicate Seen(l: Link, t: nat) {
      Shows(kernel(t), l.pid, l.info.start, l.info.ppid)
    }

    ghost predicate ReadSoFar(links: seq<Link>, seen: seq<nat>, until: nat) {
      && |links| == |seen|
      && forall k :: 0 <= k < |links| ==> seen[k] <= until && Seen(links[k], seen[k])
    }

    lemma ExtendChain(peer: Peer, helper: Option<(nat, nat)>, links: seq<Link>, seen: seq<nat>, l: Link, at: nat, until: nat)
      requires 1 <= |links| <= MAX_WRAPPER_HOPS + 1 && Wrappers(peer, links)
      requires links[0].pid == peer.pid && helper == Some((links[0].info.dev, links[0].info.ino))
      requires ReadSoFar(links, seen, until) && at <= until && Seen(l, at)
      requires Climbed(links[|links| - 1], l) && RunsAs(l, peer)
      ensures ReadSoFar(links + [l], seen + [at], until)
      ensures RunsCommandString(l.info.exe, l.info.args) ==> Wrappers(peer, links + [l])
      ensures !RunsCommandString(l.info.exe, l.info.args) ==> ChainMeetsRule(peer, helper, links + [l])
    {
    }

    /** The two passes agree, so the chain was real at every instant between them. */
    lemma DoubleCollect(links: seq<Link>, seen: seq<nat>, instant: nat, confirmed: seq<nat>, until: nat)
      requires Run(kernel) && ReadSoFar(links, seen, instant) && |confirmed| == |links|
      requires forall k :: 1 <= k < |links| ==> Climbed(links[k - 1], links[k])
      requires forall k :: 0 <= k < |links| ==> instant <= confirmed[k] && Seen(links[k], confirmed[k])
      requires forall k :: 0 <= k < |links| ==> RunsFileOf(links[k].pid, links[k].info, instant, until)
      ensures Snapshot(kernel(instant), links)
    {
      forall k | 0 <= k < |links|
        ensures Running(kernel(instant), links[k].pid, links[k].info.start)
        ensures k + 1 < |links| ==> kernel(instant).table[links[k].pid].ppid == links[k + 1].pid
      {
        var l := links[k];
        var t: nat :| instant <= t <= until && Running(kernel(t), l.pid, l.info.start);
        RunningBefore(kernel, seen[k], instant, t, l.pid, l.info.start);
        if k + 1 < |links| {
          assert Climbed(links[k], links[k + 1]);
          ParentBetween(kernel, seen[k], instant, confirmed[k], l.pid, l.info.start, l.info.ppid);
        }
      }
    }
  }

  ghost predicate RunsAs(l: Link, peer: Peer) {
    l.info.hasUid && l.info.uid == peer.uid
  }

  /** `above` may stand directly above `below` in a chain. */
  ghost predicate Climbed(below: Link, above: Link) {
    above.pid == below.info.ppid && above.pid > 1 && above.info.start <= below.info.start
  }

  /** All run as the peer's uid, each stands above the one before, and all but the peer are wrappers. */
  ghost predicate Wrappers(peer: Peer, links: seq<Link>) {
    && (forall k :: 0 <= k < |links| ==> RunsAs(links[k], peer))
    && (forall k :: 1 <= k < |links| ==> Climbed(links[k - 1], links[k]) && RunsCommandString(links[k].info.exe, links[k].info.args))
  }

  /** Every member is running as the instance recorded, and its kernel parent is the next member. */
  ghost predicate Snapshot(k: State, chain: seq<Link>) {
    forall i :: 0 <= i < |chain| ==>
      && Running(k, chain[i].pid, chain[i].info.start)
      && (i + 1 < |chain| ==> k.table[chain[i].pid].ppid == chain[i + 1].pid)
  }

  /** The rule of the climb: the peer alone when it is not the helper; else wrappers, at most
      three, and one process that is not a wrapper, all of the peer's uid and none younger than
      the process below it. */
  ghost predicate ChainMeetsRule(peer: Peer, helper: Option<(nat, nat)>, chain: seq<Link>) {
    && 1 <= |chain| <= MAX_WRAPPER_HOPS + 2
    && chain[0].pid == peer.pid
    && (|chain| == 1 <==> helper != Some((chain[0].info.dev, chain[0].info.ino)))
    && (forall k :: 0 <= k < |chain| ==> RunsAs(chain[k], peer))
    && (forall k :: 1 <= k < |chain| ==> Climbed(chain[k - 1], chain[k]))
    && (forall k :: 1 <= k < |chain| ==> (RunsCommandString(chain[k].info.exe, chain[k].info.args) <==> k < |chain| - 1))
  }

  /** The `n`-th ancestor of `p`, or 0 when there is none. */
  ghost function Up(t: map<int, Proc>, p: int, n: nat): int {
    if n == 0 then p
    else
      var b := Up(t, p, n - 1);
      if b in t then t[b].ppid else 0
  }

  ghost predicate Wrapper(p: Proc) {
    RunsCommandString(InfoOf(p, true).exe, InfoOf(p, true).args)
  }

  /** On a table that does not change, the `n`-th ancestor of the peer is its runtime. */
  ghost predicate RuntimeAt(t: map<int, Proc>, peer: Peer, helper: Option<(nat, nat)>, n: int) {
    && 0 <= n <= MAX_WRAPPER_HOPS + 1
    && peer.pid in t
    && (n == 0 <==> helper != Some((t[peer.pid].dev, t[peer.pid].ino)))
    && (forall m :: 0 <= m <= n ==> Up(t, peer.pid, m) in t && t[Up(t, peer.pid, m)].uid == peer.uid)
    && (forall m :: 1 <= m <= n ==> Above(t, peer.pid, m) && (Wrapper(t[Up(t, peer.pid, m)]) <==> m < n))
  }

  ghost predicate Above(t: map<int, Proc>, p: int, m: nat)
    requires m > 0
  {
    && Up(t, p, m) > 1
    && Up(t, p, m) in t && Up(t, p, m - 1) in t
    && t[Up(t, p, m)].start <= t[Up(t, p, m - 1)].start
  }

  ghost predicate AllCurrent(t: map<int, Proc>, links: seq<Link>) {
    forall k :: 0 <= k < |links| ==> links[k].pid in t && links[k].info == InfoOf(t[links[k].pid], true)
  }

  /** What the level above `below` must be for the climb to go on. */
  ghost predicate MeetsRuleAbove(t: map<int, Proc>, peer: Peer, below: Link) {
    && below.info.ppid > 1 && below.info.ppid in t
    && t[below.info.ppid].uid == peer.uid && t[below.info.ppid].start <= below.info.start
  }

  ghost predicate OnTable(t: map<int, Proc>, p: int, links: seq<Link>) {
    forall k :: 0 <= k < |links| ==> links[k].pid == Up(t, p, k) && links[k].pid in t && links[k].info == InfoOf(t[links[k].pid], true)
  }

  lemma ExtendOnTable(t: map<int, Proc>, peer: Peer, links: seq<Link>, l: Link)
    requires |links| > 0 && OnTable(t, peer.pid, links) && MeetsRuleAbove(t, peer, links[|links| - 1])
    requires Climbed(links[|links| - 1], l) && l.info == InfoOf(t[l.pid], true)
    ensures OnTable(t, peer.pid, links + [l])
  {
    assert links[|links| - 1].pid == Up(t, peer.pid, |links| - 1);
  }

  lemma ChainOnTable(t: map<int, Proc>, peer: Peer, helper: Option<(nat, nat)>, links: seq<Link>)
    requires ChainMeetsRule(peer, helper, links) && OnTable(t, peer.pid, links)
    ensures RuntimeAt(t, peer, helper, |links| - 1)
  {
    forall m | 1 <= m <= |links| - 1
      ensures Above(t, peer.pid, m) && (Wrapper(t[Up(t, peer.pid, m)]) <==> m < |links| - 1)
    {
      assert Climbed(links[m - 1], links[m]);
    }
    assert forall m :: 0 <= m <= |links| - 1 ==> links[m].pid == Up(t, peer.pid, m);
  }

  lemma RuntimeNeeds(t: map<int, Proc>, peer: Peer, helper: Option<(nat, nat)>, h: nat, n: int)
    requires RuntimeAt(t, peer, helper, n) && helper == Some((t[peer.pid].dev, t[peer.pid].ino))
    ensures 1 <= n <= MAX_WRAPPER_HOPS + 1
    ensures Up(t, peer.pid, n) in t && !Wrapper(t[Up(t, peer.pid, n)])
    ensures n > h ==> Up(t, peer.pid, h + 1) in t && t[Up(t, peer.pid, h + 1)].uid == peer.uid && Above(t, peer.pid, h + 1)
  {
  }

  /** When every level read so far is a wrapper and there are too many of them, or the next level
      breaks the rule, there is no runtime. */
  lemma NoRuntime(t: map<int, Proc>, peer: Peer, helper: Option<(nat, nat)>, links: seq<Link>)
    requires |links| >= 1 && OnTable(t, peer.pid, links) && Wrappers(peer, links)
    requires peer.pid in t && helper == Some((t[peer.pid].dev, t[peer.pid].ino))
    requires |links| == MAX_WRAPPER_HOPS + 2 || !MeetsRuleAbove(t, peer, links[|links| - 1])
    ensures !exists n :: RuntimeAt(t, peer, helper, n)
  {
    assert forall n :: 1 <= n < |links| ==> Up(t, peer.pid, n) == links[n].pid && Wrapper(t[Up(t, peer.pid, n)]);
    forall n ensures !RuntimeAt(t, peer, helper, n) {
      if RuntimeAt(t, peer, helper, n) {
        RuntimeNeeds(t, peer, helper, |links| - 1, n);
        assert false;
      }
    }
  }
}
