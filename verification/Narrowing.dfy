/** Narrowing a child's roles by the deployment's policy and by its parent, and the report of
    what each policy dropped. */
module Narrowing {
  import opened Text

  const POLICY_DELEGABLE := "identity.delegable_roles"
  const POLICY_PARENT := "parent_token.roles"

  datatype PolicyStep = PolicyStep(policy: string, dropped: seq<string>)

  datatype Report = Report(policy: string, dropped: seq<string>, steps: seq<PolicyStep>)

  /** A policy and the roles it allows; None allows every role. */
  datatype Policy = Policy(name: string, allow: Option<seq<string>>)

  predicate Allows(allow: Option<seq<string>>, role: string) {
    allow.Some? ==> role in allow.value
  }

  /** The members of `want` that are allowed, or are not, in order. */
  function Chosen(want: seq<string>, allow: Option<seq<string>>, allowed: bool): seq<string> {
    if want == [] then []
    else
      var last := want[|want| - 1];
      Chosen(want[..|want| - 1], allow, allowed) + if Allows(allow, last) == allowed then [last] else []
  }

  method Intersect(want: seq<string>, policy: Option<seq<string>>) returns (kept: seq<string>, dropped: seq<string>)
    ensures kept == Chosen(want, policy, true) && dropped == Chosen(want, policy, false)
  {
    if policy.None? {
      NoPolicyKeepsAll(want);
      return want, [];
    }
    var allowed: set<string> := {};
    for i := 0 to |policy.value|
      invariant forall r :: r in allowed <==> r in policy.value[..i]
    {
      assert policy.value[..i + 1] == policy.value[..i] + [policy.value[i]];
      allowed := allowed + {policy.value[i]};
    }
    assert policy.value[..|policy.value|] == policy.value;
    kept, dropped := [], [];
    for i := 0 to |want|
      invariant kept == Chosen(want[..i], policy, true) && dropped == Chosen(want[..i], policy, false)
    {
      assert want[..i + 1][..i] == want[..i];
      if want[i] in allowed { kept := kept + [want[i]]; } else { dropped := dropped + [want[i]]; }
    }
    assert want[..|want|] == want;
  }

  lemma {:induction false} NoPolicyKeepsAll(want: seq<string>)
    ensures Chosen(want, None, true) == want && Chosen(want, None, false) == []
  {
    if want != [] {
      NoPolicyKeepsAll(want[..|want| - 1]);
      assert want == want[..|want| - 1] + [want[|want| - 1]];
    }
  }

  // -------------------------------------------------------------- several policies in turn

  function Kept(want: seq<string>, policies: seq<Policy>): seq<string> {
    if policies == [] then want
    else Chosen(Kept(want, policies[..|policies| - 1]), policies[|policies| - 1].allow, true)
  }

  /** What the last policy drops of the roles the others leave. */
  function LastDrop(want: seq<string>, policies: seq<Policy>): seq<string>
    requires policies != []
  {
    Chosen(Kept(want, policies[..|policies| - 1]), policies[|policies| - 1].allow, false)
  }

  /** The report of the policies that dropped something, if any did. */
  function ReportOf(want: seq<string>, policies: seq<Policy>): Option<Report> {
    if policies == [] then None
    else Added(ReportOf(want, policies[..|policies| - 1]), policies[|policies| - 1].name, LastDrop(want, policies))
  }

  function Added(n: Option<Report>, policy: string, dropped: seq<string>): Option<Report> {
    if dropped == [] then n
    else if n.None? then Some(Report(policy, dropped, [PolicyStep(policy, dropped)]))
    else Some(Report(n.value.policy + "," + policy, n.value.dropped + dropped, n.value.steps + [PolicyStep(policy, dropped)]))
  }

  class NarrowingReport {
    var policy: string
    var dropped: seq<string>
    var steps: seq<PolicyStep>

    constructor ()
      ensures policy == "" && dropped == [] && steps == []
    {
      policy, dropped, steps := "", [], [];
    }
  }

  function View(n: NarrowingReport?): Option<Report>
    reads n
  {
    if n == null then None else Some(Report(n.policy, n.dropped, n.steps))
  }

  /** Records what a policy dropped in a report that may not exist yet. */
  method Add(n: NarrowingReport?, policy: string, dropped: seq<string>) returns (r: NarrowingReport?)
    modifies n
    ensures View(r) == Added(old(View(n)), policy, dropped)
    ensures r == n || fresh(r)
  {
    r := n;
    if |dropped| == 0 { return; }
    if r == null {
      r := new NarrowingReport();
    } else {
      r.policy := r.policy + ",";
    }
    assert "" + policy == policy && [] + dropped == dropped && [] + [PolicyStep(policy, dropped)] == [PolicyStep(policy, dropped)];
    r.policy := r.policy + policy;
    r.dropped := r.dropped + dropped;
    r.steps := r.steps + [PolicyStep(policy, dropped)];
  }

  /** Applies the policies one after the other. */
  method Narrow(want: seq<string>, policies: seq<Policy>) returns (roles: seq<string>, report: NarrowingReport?)
    ensures roles == Kept(want, policies)
    ensures View(report) == ReportOf(want, policies)
    ensures report != null ==> fresh(report)
  {
    roles, report := want, null;
    for i := 0 to |policies|
      invariant roles == Kept(want, policies[..i])
      invariant View(report) == ReportOf(want, policies[..i])
      invariant report != null ==> fresh(report)
    {
      assert policies[..i + 1][..i] == policies[..i];
      var dropped;
      roles, dropped := Intersect(roles, policies[i].allow);
      report := Add(report, policies[i].name, dropped);
    }
    assert policies[..|policies|] == policies;
  }

  // -------------------------------------------------------------- nothing is lost or reordered

  /** Positions of `want` at which the members of `sub` stand, in order. */
  ghost predicate Embeds(sub: seq<string>, want: seq<string>, at: seq<nat>) {
    && |at| == |sub|
    && (forall i :: 0 <= i < |at| ==> at[i] < |want| && want[at[i]] == sub[i])
    && (forall i, j :: 0 <= i < j < |at| ==> at[i] < at[j])
  }

  /** Every member of `want` is chosen on one side or the other. */
  lemma {:induction false} ChosenSplits(want: seq<string>, allow: Option<seq<string>>)
    ensures multiset(want) == multiset(Chosen(want, allow, true)) + multiset(Chosen(want, allow, false))
  {
    hide Allows;
    if want != [] {
      var init, last := want[..|want| - 1], want[|want| - 1];
      ChosenSplits(init, allow);
      assert want == init + [last];
    }
  }

  /** A member is chosen on the allowed side exactly when the policy allows it. */
  lemma {:induction false} ChosenExactly(want: seq<string>, allow: Option<seq<string>>, allowed: bool, role: string)
    ensures role in Chosen(want, allow, allowed) <==> role in want && Allows(allow, role) == allowed
  {
    hide Allows;
    if want != [] {
      var init, last := want[..|want| - 1], want[|want| - 1];
      ChosenExactly(init, allow, allowed, role);
      assert want == init + [last];
      assert role in Chosen(want, allow, allowed) <==> role in Chosen(init, allow, allowed) || (role == last && Allows(allow, last) == allowed);
    }
  }

  lemma {:induction false} ChosenKeepsOrder(want: seq<string>, allow: Option<seq<string>>, allowed: bool) returns (at: seq<nat>)
    ensures Embeds(Chosen(want, allow, allowed), want, at)
  {
    at := [];
    if want != [] {
      at := ChosenKeepsOrder(want[..|want| - 1], allow, allowed);
      if Allows(allow, want[|want| - 1]) == allowed { at := at + [|want| - 1]; }
    }
  }

  lemma {:induction false} KeptKeepsOrder(want: seq<string>, policies: seq<Policy>) returns (at: seq<nat>)
    ensures Embeds(Kept(want, policies), want, at)
  {
    if policies == [] {
      at := seq(|want|, i => i);
    } else {
      var outer := KeptKeepsOrder(want, policies[..|policies| - 1]);
      var inner := ChosenKeepsOrder(Kept(want, policies[..|policies| - 1]), policies[|policies| - 1].allow, true);
      at := seq(|inner|, i requires 0 <= i < |inner| => outer[inner[i]]);
    }
  }

  predicate AllAllow(policies: seq<Policy>, role: string) {
    forall i :: 0 <= i < |policies| ==> Allows(policies[i].allow, role)
  }

  /** A role is kept exactly when the definition has it and every policy allows it. */
  lemma {:induction false} KeptExactly(want: seq<string>, policies: seq<Policy>, role: string)
    ensures role in Kept(want, policies) <==> role in want && AllAllow(policies, role)
  {
    hide Allows;
    if policies != [] {
      var init, last := policies[..|policies| - 1], policies[|policies| - 1];
      KeptExactly(want, init, role);
      ChosenExactly(Kept(want, init), last.allow, true, role);
      assert AllAllow(policies, role) <==> AllAllow(init, role) && Allows(last.allow, role);
    }
  }

  function Dropped(report: Option<Report>): seq<string> {
    if report.Some? then report.value.dropped else []
  }

  function AllDropped(steps: seq<PolicyStep>): seq<string> {
    if steps == [] then [] else AllDropped(steps[..|steps| - 1]) + steps[|steps| - 1].dropped
  }

  function AllPolicies(steps: seq<PolicyStep>): string {
    if steps == [] then ""
    else if |steps| == 1 then steps[0].policy
    else AllPolicies(steps[..|steps| - 1]) + "," + steps[|steps| - 1].policy
  }

  /** Every step of a report dropped something, the steps make up all that was dropped, and the
      report names their policies in order. */
  ghost predicate WellReported(report: Option<Report>) {
    report.Some? ==>
      && report.value.steps != [] && report.value.dropped != []
      && report.value.dropped == AllDropped(report.value.steps)
      && report.value.policy == AllPolicies(report.value.steps)
      && forall i :: 0 <= i < |report.value.steps| ==> report.value.steps[i].dropped != []
  }

  /** The roles wanted are the roles kept and the roles reported as dropped, each as often as it was
      wanted, and there is a report exactly when something was dropped. */
  lemma {:induction false} NothingLost(want: seq<string>, policies: seq<Policy>)
    ensures var report := ReportOf(want, policies);
            && multiset(want) == multiset(Kept(want, policies)) + multiset(Dropped(report))
            && WellReported(report)
            && (report.None? <==> Kept(want, policies) == want)
  {
    if policies != [] {
      var before := policies[..|policies| - 1];
      NothingLost(want, before);
      ChosenSplits(Kept(want, before), policies[|policies| - 1].allow);
      var drop := LastDrop(want, policies);
      if drop != [] {
        assert |multiset(want)| == |want|;
        var report := ReportOf(want, before);
        ReportGrows(report, policies[|policies| - 1].name, drop);
        assert |Kept(want, policies)| < |want|;
      } else {
        NothingDropped(Kept(want, before), policies[|policies| - 1].allow);
      }
    }
  }

  lemma {:induction false} NothingDropped(want: seq<string>, allow: Option<seq<string>>)
    requires Chosen(want, allow, false) == []
    ensures Chosen(want, allow, true) == want
  {
    if want != [] {
      NothingDropped(want[..|want| - 1], allow);
      assert want == want[..|want| - 1] + [want[|want| - 1]];
    }
  }

  lemma ReportGrows(n: Option<Report>, policy: string, dropped: seq<string>)
    requires WellReported(n) && dropped != []
    ensures WellReported(Added(n, policy, dropped)) && Dropped(Added(n, policy, dropped)) == Dropped(n) + dropped
  {
    var step := PolicyStep(policy, dropped);
    if n.None? {
      assert [step][..0] == [];
      assert AllDropped([step]) == [] + dropped;
    } else {
      assert (n.value.steps + [step])[..|n.value.steps|] == n.value.steps;
    }
  }
}
