/** The kernel's process table as a step relation.

    A process instance is a pid together with its start time. Processes fork, exit,
    exec and change uid between any two reads of /proc; children of a process that
    exits are adopted by one of its ancestors or by init, and the process may stay in
    the table as a zombie until it is reaped. The lemmas derive from
    these steps alone what a reader that sees only single instants may rely on. */
module Kernel {

  datatype Proc = Proc(start: nat, ppid: int, uid: nat, exe: string, dev: nat, ino: nat, cmdline: string, zombie: bool)

  /** `born` holds every instance that was ever created, so that none recurs. */
  datatype State = State(table: map<int, Proc>, born: set<(int, nat)>)

  const INIT_PID := 1

  ghost predicate WellFormed(k: State) {
    && (forall p | p in k.table :: p >= INIT_PID && (p, k.table[p].start) in k.born)
    && (forall p | p in k.table :: k.table[p].ppid == 0 || (k.table[p].ppid in k.table && !k.table[k.table[p].ppid].zombie))
    && (INIT_PID in k.table ==> k.table[INIT_PID].ppid == 0 && !k.table[INIT_PID].zombie)
  }

  /** `a` is reached from `p` by exactly `n` parent links. */
  ghost predicate NthAncestor(t: map<int, Proc>, p: int, a: int, n: nat)
    decreases n
  {
    if n == 0 then p == a && p in t
    else p in t && NthAncestor(t, t[p].ppid, a, n - 1)
  }

  ghost predicate AncestorOrSelf(t: map<int, Proc>, p: int, a: int) {
    exists n: nat :: NthAncestor(t, p, a, n)
  }

  ghost predicate Fork(k: State, k': State, parent: int, child: int) {
    && parent in k.table && !k.table[parent].zombie && child !in k.table && child > INIT_PID
    && child in k'.table && !k'.table[child].zombie
    && (child, k'.table[child].start) !in k.born
    && (k'.table[child].ppid == parent || k'.table[child].ppid == k.table[parent].ppid)
    && k'.table == k.table[child := k'.table[child]]
    && k'.born == k.born + {(child, k'.table[child].start)}
  }

  /** Who may adopt a child of `p` when `p` exits: nobody visible, init, or a proper ancestor. */
  ghost predicate MayAdopt(t: map<int, Proc>, p: int, adopter: int) {
    || adopter == 0
    || (adopter == INIT_PID && INIT_PID in t)
    || (adopter != p && AncestorOrSelf(t, p, adopter))
  }

  /** `p` exits: its children are adopted, and it leaves the table or stays as a zombie. */
  ghost predicate Exit(k: State, k': State, p: int) {
    && p in k.table && p != INIT_PID && !k.table[p].zombie
    && (k'.table.Keys == k.table.Keys || k'.table.Keys == k.table.Keys - {p})
    && (p in k'.table ==> k'.table[p] == k.table[p].(zombie := true) && k.table[p].ppid != p)
    && k'.born == k.born
    && forall c | c in k'.table && c != p ::
         if k.table[c].ppid == p
         then k'.table[c] == k.table[c].(ppid := k'.table[c].ppid) && MayAdopt(k.table, p, k'.table[c].ppid)
         else k'.table[c] == k.table[c]
  }

  /** A zombie is reaped. */
  ghost predicate Reap(k: State, k': State, p: int) {
    && p in k.table && k.table[p].zombie
    && k'.table == k.table - {p} && k'.born == k.born
  }

  /** exec, setuid and the like: everything but the instance and its parent may change. */
  ghost predicate Alter(k: State, k': State, p: int) {
    && p in k.table && p in k'.table
    && k'.table == k.table[p := k'.table[p]]
    && k'.table[p].start == k.table[p].start
    && k'.table[p].ppid == k.table[p].ppid
    && k'.table[p].zombie == k.table[p].zombie
    && k'.born == k.born
  }

  ghost predicate Step(k: State, k': State) {
    || k' == k
    || (exists parent, child :: Fork(k, k', parent, child))
    || (exists p :: Exit(k, k', p))
    || (exists p :: Reap(k, k', p))
    || (exists p :: Alter(k, k', p))
  }

  ghost predicate StepsAt(kernel: nat -> State, i: nat) {
    Step(kernel(i), kernel(i + 1))
  }

  /** A run of the kernel: a well-formed start and a legal step at every instant. */
  ghost predicate Run(kernel: nat -> State) {
    WellFormed(kernel(0)) && forall i: nat :: StepsAt(kernel, i)
  }

  /** The instance is in the table, perhaps as a zombie. */
  ghost predicate Present(k: State, p: int, start: nat) {
    p in k.table && k.table[p].start == start
  }

  /** The instance is in the table and has not exited. */
  ghost predicate Running(k: State, p: int, start: nat) {
    Present(k, p, start) && !k.table[p].zombie
  }

  /** The entries that are no zombies: those whose executable can be read. */
  ghost function Living(t: map<int, Proc>): map<int, Proc> {
    map p | p in t && !t[p].zombie :: t[p]
  }

  ghost predicate Shows(k: State, p: int, start: nat, ppid: int) {
    Present(k, p, start) && k.table[p].ppid == ppid
  }

  // -------------------------------------------------------------- one step

  lemma StepKeepsWellFormed(k: State, k': State)
    requires WellFormed(k) && Step(k, k')
    ensures WellFormed(k')
  {
    if p :| Exit(k, k', p) {
      forall c | c in k'.table
        ensures k'.table[c].ppid == 0 || (k'.table[c].ppid in k'.table && !k'.table[k'.table[c].ppid].zombie)
      {
        if k.table[c].ppid == p && AncestorOrSelf(k.table, p, k'.table[c].ppid) {
          var n: nat :| NthAncestor(k.table, p, k'.table[c].ppid, n);
          AncestorIsPresent(k.table, p, k'.table[c].ppid, n);
          if c != p { AncestorIsRunning(k, p, k'.table[c].ppid, n); }
        }
      }
    }
  }

  /** No zombie has children, so a proper ancestor is none. */
  lemma {:induction false} AncestorIsRunning(k: State, p: int, a: int, n: nat)
    requires WellFormed(k) && NthAncestor(k.table, p, a, n) && p != a
    ensures a in k.table && !k.table[a].zombie
    decreases n
  {
    var q := k.table[p].ppid;
    if q == a {
      AncestorIsPresent(k.table, q, a, n - 1);
    } else {
      AncestorIsRunning(k, q, a, n - 1);
    }
  }

  lemma {:induction false} AncestorIsPresent(t: map<int, Proc>, p: int, a: int, n: nat)
    requires NthAncestor(t, p, a, n)
    ensures p in t && a in t
    decreases n
  {
    if n > 0 { AncestorIsPresent(t, t[p].ppid, a, n - 1); }
  }

  /** An instance known to have existed is in the table after a step only if it was there before it. */
  lemma NoRebirth(k: State, k': State, p: int, start: nat)
    requires WellFormed(k) && Step(k, k')
    requires (p, start) in k.born && Present(k', p, start)
    ensures Present(k, p, start)
  {
  }

  lemma SurvivorKeepsInstance(k: State, k': State, p: int)
    requires Step(k, k') && p in k.table && p in k'.table
    ensures k.table[p].start == k'.table[p].start
  {
  }

  /** A zombie stays one. */
  lemma NoRevival(k: State, k': State, p: int, start: nat)
    requires Step(k, k') && Present(k, p, start) && Running(k', p, start)
    ensures Running(k, p, start)
  {
  }

  /** A survivor's parent changes only in a step in which the old parent exits. */
  lemma ParentChangesOnlyByExit(k: State, k': State, p: int)
    requires Step(k, k') && p in k.table && p in k'.table
    requires k.table[p].ppid != k'.table[p].ppid
    ensures k.table[p].ppid in k'.table ==> k'.table[k.table[p].ppid].zombie
    ensures MayAdopt(k.table, k.table[p].ppid, k'.table[p].ppid)
  {
  }

  lemma {:induction false} Chain(t: map<int, Proc>, p: int, q: int, a: int, m: nat, n: nat)
    requires NthAncestor(t, p, q, m) && NthAncestor(t, q, a, n)
    ensures NthAncestor(t, p, a, m + n)
    decreases m
  {
    if m > 0 { Chain(t, t[p].ppid, q, a, m - 1, n); }
  }

  /** Nothing new becomes an ancestor of a process that already exists, init aside. */
  lemma {:induction false} AncestorsOnlyShrink(k: State, k': State, p: int, a: int, n: nat)
    requires WellFormed(k) && WellFormed(k') && Step(k, k')
    requires p in k.table && NthAncestor(k'.table, p, a, n) && a > INIT_PID
    ensures AncestorOrSelf(k.table, p, a)
    decreases n
  {
    if n == 0 {
      assert NthAncestor(k.table, p, a, 0);
    } else {
      var q := k'.table[p].ppid;
      AncestorIsPresent(k'.table, q, a, n - 1);
      if q == INIT_PID {
        if n > 1 { AncestorIsPresent(k'.table, 0, a, n - 2); }
        assert false;
      }
      if q == k.table[p].ppid {
        assert NthAncestor(k.table, p, q, 1) by { assert NthAncestor(k.table, q, q, 0); }
        AncestorsOnlyShrink(k, k', q, a, n - 1);
        var m: nat :| NthAncestor(k.table, q, a, m);
        Chain(k.table, p, q, a, 1, m);
      } else {
        ParentChangesOnlyByExit(k, k', p);
        var old_ := k.table[p].ppid;
        var l: nat :| NthAncestor(k.table, old_, q, l);
        AncestorIsPresent(k.table, old_, q, l);
        assert NthAncestor(k.table, p, q, l + 1);
        AncestorsOnlyShrink(k, k', q, a, n - 1);
        var m: nat :| NthAncestor(k.table, q, a, m);
        Chain(k.table, p, q, a, l + 1, m);
      }
    }
  }

  // -------------------------------------------------------------- whole runs

  lemma {:induction false} RunWellFormed(kernel: nat -> State, i: nat)
    requires Run(kernel)
    ensures WellFormed(kernel(i))
  {
    if i > 0 {
      RunWellFormed(kernel, i - 1);
      assert StepsAt(kernel, i - 1);
      StepKeepsWellFormed(kernel(i - 1), kernel(i));
    }
  }

  lemma {:induction false} BornStays(kernel: nat -> State, i: nat, j: nat, id: (int, nat))
    requires Run(kernel) && i <= j && id in kernel(i).born
    ensures id in kernel(j).born
    decreases j - i
  {
    if i < j {
      assert StepsAt(kernel, i);
      BornStays(kernel, i + 1, j, id);
    }
  }

  /** An instance seen at two instants was in the table at every instant between them. */
  lemma {:induction false} PresentBetween(kernel: nat -> State, i: nat, t: nat, j: nat, p: int, start: nat)
    requires Run(kernel) && i <= t <= j
    requires Present(kernel(i), p, start) && Present(kernel(j), p, start)
    ensures Present(kernel(t), p, start)
    decreases j - t
  {
    if t < j {
      PresentBetween(kernel, i, t + 1, j, p, start);
      RunWellFormed(kernel, i);
      RunWellFormed(kernel, t);
      BornStays(kernel, i, t, (p, start));
      assert StepsAt(kernel, t);
      NoRebirth(kernel(t), kernel(t + 1), p, start);
    }
  }

  /** An instance seen at one instant and running at a later one was running at every instant between
      them. */
  lemma {:induction false} RunningBefore(kernel: nat -> State, i: nat, t: nat, j: nat, p: int, start: nat)
    requires Run(kernel) && i <= t <= j
    requires Present(kernel(i), p, start) && Running(kernel(j), p, start)
    ensures Running(kernel(t), p, start)
    decreases j - t
  {
    if t < j {
      RunningBefore(kernel, i, t + 1, j, p, start);
      PresentBetween(kernel, i, t, j, p, start);
      assert StepsAt(kernel, t);
      NoRevival(kernel(t), kernel(t + 1), p, start);
    }
  }

  /** Whoever is an ancestor of a process later was already its ancestor, and present, earlier. */
  lemma {:induction false} AncestorWasAncestor(kernel: nat -> State, i: nat, j: nat, p: int, start: nat, a: int)
    requires Run(kernel) && i <= j
    requires Present(kernel(i), p, start) && Present(kernel(j), p, start)
    requires AncestorOrSelf(kernel(j).table, p, a) && a > INIT_PID
    ensures AncestorOrSelf(kernel(i).table, p, a)
    ensures a in kernel(i).table && a in kernel(j).table
    ensures kernel(i).table[a].start == kernel(j).table[a].start
    decreases j - i
  {
    var n: nat :| NthAncestor(kernel(j).table, p, a, n);
    AncestorIsPresent(kernel(j).table, p, a, n);
    if i < j {
      PresentBetween(kernel, i, j - 1, j, p, start);
      RunWellFormed(kernel, j - 1);
      RunWellFormed(kernel, j);
      assert StepsAt(kernel, j - 1);
      AncestorsOnlyShrink(kernel(j - 1), kernel(j), p, a, n);
      AncestorWasAncestor(kernel, i, j - 1, p, start, a);
      SurvivorKeepsInstance(kernel(j - 1), kernel(j), a);
    }
  }

  /** A process that shows the same instance and the same parent pid at two instants had that
      very parent instance, without interruption, at every instant between them. */
  lemma ParentBetween(kernel: nat -> State, i: nat, t: nat, j: nat, p: int, start: nat, ppid: int)
    requires Run(kernel) && i <= t <= j && ppid > INIT_PID
    requires Shows(kernel(i), p, start, ppid) && Shows(kernel(j), p, start, ppid)
    ensures Shows(kernel(t), p, start, ppid)
    ensures ppid in kernel(j).table && Running(kernel(t), ppid, kernel(j).table[ppid].start)
  {
    RunWellFormed(kernel, j);
    assert NthAncestor(kernel(j).table, p, ppid, 1) by {
      assert NthAncestor(kernel(j).table, ppid, ppid, 0);
    }
    AncestorWasAncestor(kernel, i, j, p, start, ppid);
    ParentStays(kernel, i, t, j, p, start, ppid, kernel(j).table[ppid].start);
    RunningBefore(kernel, i, t, j, ppid, kernel(j).table[ppid].start);
  }

  lemma {:induction false} ParentStays(kernel: nat -> State, i: nat, t: nat, j: nat, p: int, start: nat, ppid: int, pstart: nat)
    requires Run(kernel) && i <= t <= j
    requires Shows(kernel(i), p, start, ppid) && Present(kernel(j), p, start)
    requires Present(kernel(i), ppid, pstart) && Running(kernel(j), ppid, pstart)
    ensures Shows(kernel(t), p, start, ppid)
    decreases t
  {
    if i < t {
      ParentStays(kernel, i, t - 1, j, p, start, ppid, pstart);
      PresentBetween(kernel, i, t, j, p, start);
      RunningBefore(kernel, i, t, j, ppid, pstart);
      assert StepsAt(kernel, t - 1);
      if kernel(t).table[p].ppid != ppid {
        ParentChangesOnlyByExit(kernel(t - 1), kernel(t), p);
      }
    }
  }
}
