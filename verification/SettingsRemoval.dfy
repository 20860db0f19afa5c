/** Removing after registering: when the settings had nothing of ours and no empty container that
    a removal would drop, they come back exactly as they were. */
module SettingsRemoval {
  import opened Registration
  import opened Json
  import opened Settings
  import opened SettingsLaws

  ghost predicate NoEntryOfOurs(groups: seq<Json>) {
    forall i, j :: 0 <= i < |groups| && 0 <= j < |EntriesOf(groups[i])| ==> !AnyOurs(EntryCommand(EntriesOf(groups[i])[j]))
  }

  /** Every command the installation registers is taken for some event's entry of ours. */
  ghost predicate Removable(install: Install) {
    forall k :: 0 <= k < |REGISTRATIONS| ==> AnyOurs(install.Command(REGISTRATIONS[k].event))
  }

  lemma RecognisedIsRemovable(install: Install)
    requires Recognised(install)
    ensures Removable(install)
  {
  }

  /** The hooks object has no entry of ours and no empty list an event would be registered in. */
  ghost predicate FreshHooks(h: Object) {
    forall k :: 0 <= k < |REGISTRATIONS| && REGISTRATIONS[k].runtime in h && h[REGISTRATIONS[k].runtime].Arr? ==>
      h[REGISTRATIONS[k].runtime].items != [] && NoEntryOfOurs(h[REGISTRATIONS[k].runtime].items)
  }

  /** Settings without a trace of ours and without empty hooks or permissions containers. */
  ghost predicate Fresh(root: Object) {
    && ("hooks" in root && root["hooks"].Obj? ==> root["hooks"].members != map[] && FreshHooks(root["hooks"].members))
    && ("permissions" in root && root["permissions"].Obj? ==>
          var p := root["permissions"].members;
          p != map[] && ("allow" in p && p["allow"].Arr? ==> p["allow"].items != [] && Str(ALLOW_RULE) !in p["allow"].items))
  }

  // -------------------------------------------------------------- groups and entries

  lemma {:induction false} StripNothingEntries(entries: seq<Json>)
    requires forall j :: 0 <= j < |entries| ==> !AnyOurs(EntryCommand(entries[j]))
    ensures StripEntries(entries) == entries
  {
    if entries != [] {
      StripNothingEntries(entries[1..]);
      assert entries == [entries[0]] + entries[1..];
    }
  }

  lemma {:induction false} StripNothing(groups: seq<Json>)
    requires NoEntryOfOurs(groups)
    ensures StripGroups(groups) == groups
  {
    if groups != [] {
      hide AnyOurs, EntryCommand;
      StripNothingEntries(EntriesOf(groups[0]));
      StripNothing(groups[1..]);
      assert WithEntries(groups[0], EntriesOf(groups[0])) == groups[0];
      assert groups == [groups[0]] + groups[1..];
    }
  }

  lemma StripCons(g: Json, gs: seq<Json>)
    ensures var kept := StripEntries(EntriesOf(g));
            StripGroups([g] + gs)
            == if EntriesOf(g) != [] && kept == [] then StripGroups(gs) else [WithEntries(g, kept)] + StripGroups(gs)
  {
    hide StripEntries, EntriesOf, WithEntries;
    assert ([g] + gs)[1..] == gs;
    assert [] + StripGroups(gs) == StripGroups(gs);
  }

  lemma {:induction false} StripAppend(a: seq<Json>, b: seq<Json>)
    ensures StripGroups(a + b) == StripGroups(a) + StripGroups(b)
  {
    hide StripEntries, EntriesOf, WithEntries;
    if a == [] { assert a + b == b && [] + StripGroups(b) == StripGroups(b); }
    else {
      hide StripGroups;
      assert a + b == [a[0]] + (a[1..] + b) && a == [a[0]] + a[1..];
      StripCons(a[0], a[1..] + b);
      StripCons(a[0], a[1..]);
      StripAppend(a[1..], b);
      Assoc(WithEntries(a[0], StripEntries(EntriesOf(a[0]))), StripGroups(a[1..]), StripGroups(b));
    }
  }

  lemma StripNew(w: Want)
    ensures StripGroups([NewGroup(w)]) == if AnyOurs(w.command) then [] else [NewGroup(w)]
  {
    hide AnyOurs;
    var g := NewGroup(w);
    var e := EntriesOf(g)[0];
    assert EntriesOf(g) == [e] && [e][1..] == [] && EntryCommand(e) == w.command && WithEntries(g, [e]) == g;
    hide NewGroup, EntriesOf, WithEntries, EntryCommand;
    assert StripEntries([]) == [] && StripGroups([]) == [];
    assert StripEntries([e]) == if AnyOurs(w.command) then [] else [e];
    StripCons(g, []);
    assert [g] + [] == [g];
  }

  lemma {:induction false} NoneOfThisEvent(entries: seq<Json>, k: nat)
    requires k < |REGISTRATIONS|
    requires forall j :: 0 <= j < |entries| ==> !AnyOurs(EntryCommand(entries[j]))
    ensures OursIn(entries, REGISTRATIONS[k].event) == 0
  {
    hide Ours, EntryCommand;
    if entries != [] {
      assert !AnyOurs(EntryCommand(entries[0]));
      NoneOfThisEvent(entries[1..], k);
    }
  }

  lemma {:induction false} NoneOfThisEventInGroups(groups: seq<Json>, k: nat)
    requires k < |REGISTRATIONS| && NoEntryOfOurs(groups)
    ensures OursInGroups(groups, REGISTRATIONS[k].event) == 0
  {
    hide AnyOurs, EntryCommand;
    if groups != [] {
      NoneOfThisEvent(EntriesOf(groups[0]), k);
      NoneOfThisEventInGroups(groups[1..], k);
    }
  }

  /** Groups without an entry of ours are only appended to, and stripping takes off just that. */
  lemma AppendAndStrip(groups: seq<Json>, install: Install, k: nat)
    requires k < |REGISTRATIONS| && NoEntryOfOurs(groups)
    ensures var w := WantOf(install, REGISTRATIONS[k]);
            && EventGroups(groups, w) == groups + [NewGroup(w)]
            && StripGroups(EventGroups(groups, w)) == if AnyOurs(w.command) then groups else groups + [NewGroup(w)]
  {
    hide AnyOurs, NewGroup, EditGroups, StripGroups, NoEntryOfOurs, Install.Command;
    var w := WantOf(install, REGISTRATIONS[k]);
    NoneOfThisEventInGroups(groups, k);
    NoneToEdit(groups, w);
    StripNothing(groups);
    StripAppend(groups, [NewGroup(w)]);
    StripNew(w);
    assert groups + [] == groups;
  }

  // -------------------------------------------------------------- the hooks object

  lemma {:induction false} RemoveKeeps(h: Object, k: nat, m: string)
    requires k <= |REGISTRATIONS| && RemoveFrom(h, k).1
    requires forall j :: k <= j < |REGISTRATIONS| ==> REGISTRATIONS[j].runtime != m
    ensures m in RemoveFrom(h, k).0 <==> m in h
    ensures m in h ==> RemoveFrom(h, k).0[m] == h[m]
    decreases |REGISTRATIONS| - k
  {
    if k < |REGISTRATIONS| {
      hide StripGroups;
      var r := REGISTRATIONS[k].runtime;
      if r !in h { RemoveKeeps(h, k + 1, m); }
      else {
        var kept := StripGroups(h[r].items);
        RemoveKeeps(if kept == [] && h[r].items != [] then Drop(h, r) else h[r := Arr(kept)], k + 1, m);
      }
    }
  }

  lemma {:induction false} RemoveAt(h: Object, k: nat, j: nat)
    requires k <= j < |REGISTRATIONS| && RemoveFrom(h, k).1
    ensures var r := REGISTRATIONS[j].runtime;
            if r in h && h[r].Arr? && (StripGroups(h[r].items) != [] || h[r].items == [])
            then r in RemoveFrom(h, k).0 && RemoveFrom(h, k).0[r] == Arr(StripGroups(h[r].items))
            else r !in RemoveFrom(h, k).0
    decreases |REGISTRATIONS| - k
  {
    hide StripGroups;
    var r := REGISTRATIONS[k].runtime;
    var h' := if r !in h then h
              else if StripGroups(h[r].items) == [] && h[r].items != [] then Drop(h, r)
              else h[r := Arr(StripGroups(h[r].items))];
    if j == k {
      forall i | k < i < |REGISTRATIONS| ensures REGISTRATIONS[i].runtime != r { RuntimesDiffer(k, i); }
      RemoveKeeps(h', k + 1, r);
    } else {
      RuntimesDiffer(k, j);
      RemoveAt(h', k + 1, j);
    }
  }

  lemma {:induction false} RemoveSucceeds(h: Object, k: nat)
    requires k <= |REGISTRATIONS|
    requires forall j :: k <= j < |REGISTRATIONS| && REGISTRATIONS[j].runtime in h ==> h[REGISTRATIONS[j].runtime].Arr?
    ensures RemoveFrom(h, k).1
    decreases |REGISTRATIONS| - k
  {
    if k < |REGISTRATIONS| {
      hide StripGroups;
      var r := REGISTRATIONS[k].runtime;
      if r !in h { RemoveSucceeds(h, k + 1); }
      else {
        var kept := StripGroups(h[r].items);
        RemoveSucceeds(if kept == [] && h[r].items != [] then Drop(h, r) else h[r := Arr(kept)], k + 1);
      }
    }
  }

  lemma {:induction false} RegisterNeedsArrays(install: Install, h: Object, k: nat, j: nat)
    requires k <= j < |REGISTRATIONS| && RegisterFrom(install, h, k).1
    ensures REGISTRATIONS[j].runtime in h ==> h[REGISTRATIONS[j].runtime].Arr?
    decreases |REGISTRATIONS| - k
  {
    if k < j {
      hide EventGroups, WantOf;
      RuntimesDiffer(k, j);
      RegisterNeedsArrays(install, h[REGISTRATIONS[k].runtime := Arr(Groups(h, install, k))], k + 1, j);
    }
  }

  /** One event of the hooks object, registered and removed again. */
  lemma EventRestored(install: Install, h: Object, k: nat)
    requires RegisterFrom(install, h, 0).1 && FreshHooks(h) && k < |REGISTRATIONS|
    requires RemoveFrom(RegisterFrom(install, h, 0).0, 0).1
    ensures var r := REGISTRATIONS[k].runtime;
            var h2 := RemoveFrom(RegisterFrom(install, h, 0).0, 0).0;
            if AnyOurs(install.Command(REGISTRATIONS[k].event))
            then (r in h2 <==> r in h) && (r in h ==> h2[r] == h[r])
            else r in h2 && !(r in h && h2[r] == h[r])
  {
    hide RegisterFrom, RemoveFrom, EventGroups, StripGroups, AnyOurs, NoEntryOfOurs, NewGroup;
    var r := REGISTRATIONS[k].runtime;
    var h1 := RegisterFrom(install, h, 0).0;
    RegisterNeedsArrays(install, h, 0, k);
    RegisterAt(install, h, 0, k);
    var groups := GroupsAt(h, r);
    assert NoEntryOfOurs(groups) by { if r !in h { NoGroupsNoEntries(); } }
    AppendAndStrip(groups, install, k);
    RemoveAt(h1, 0, k);
  }

  lemma NoGroupsNoEntries()
    ensures NoEntryOfOurs([])
  {
  }

  lemma HooksRestored(install: Install, h: Object)
    requires RegisterFrom(install, h, 0).1 && FreshHooks(h)
    ensures RemoveFrom(RegisterFrom(install, h, 0).0, 0).1
    ensures RemoveFrom(RegisterFrom(install, h, 0).0, 0).0 == h <==> Removable(install)
    ensures RemoveFrom(RegisterFrom(install, h, 0).0, 0).0 == map[] ==> Removable(install)
    ensures RegisterFrom(install, h, 0).0 != h
  {
    hide RegisterFrom, RemoveFrom, EventGroups, FreshHooks, AnyOurs;
    var h1 := RegisterFrom(install, h, 0).0;
    RegisterFromAt(install, h);
    RemoveSucceeds(h1, 0);
    var h2 := RemoveFrom(h1, 0).0;
    forall k | 0 <= k < |REGISTRATIONS|
      ensures AnyOurs(install.Command(REGISTRATIONS[k].event)) ==>
                (REGISTRATIONS[k].runtime in h2 <==> REGISTRATIONS[k].runtime in h)
                && (REGISTRATIONS[k].runtime in h ==> h2[REGISTRATIONS[k].runtime] == h[REGISTRATIONS[k].runtime])
      ensures !AnyOurs(install.Command(REGISTRATIONS[k].event)) ==> h2 != h && h2 != map[]
    {
      EventRestored(install, h, k);
    }
    if Removable(install) {
      forall m ensures (m in h2 <==> m in h) && (m in h ==> h2[m] == h[m]) {
        if forall j :: 0 <= j < |REGISTRATIONS| ==> REGISTRATIONS[j].runtime != m {
          RegisterKeeps(install, h, 0, m);
          RemoveKeeps(h1, 0, m);
        }
      }
    }
    Registered(install, h);
  }

  /** A registration where nothing of ours was always adds something. */
  lemma Registered(install: Install, h: Object)
    requires RegisterFrom(install, h, 0).1 && FreshHooks(h)
    ensures RegisterFrom(install, h, 0).0 != h
  {
    hide RegisterFrom, EventGroups, NoEntryOfOurs, NewGroup, StripGroups, AnyOurs;
    var r := REGISTRATIONS[0].runtime;
    RegisterNeedsArrays(install, h, 0, 0);
    RegisterAt(install, h, 0, 0);
    if r in h { AppendAndStrip(h[r].items, install, 0); }
  }

  // -------------------------------------------------------------- the rule and the whole

  lemma {:induction false} RuleStripped(allow: seq<Json>)
    requires Str(ALLOW_RULE) !in allow
    ensures WithoutRule(allow) == allow && WithoutRule(allow + [Str(ALLOW_RULE)]) == allow
  {
    if allow == [] {
      assert [Str(ALLOW_RULE)][1..] == [] && allow + [Str(ALLOW_RULE)] == [Str(ALLOW_RULE)];
    } else {
      assert (allow + [Str(ALLOW_RULE)])[1..] == allow[1..] + [Str(ALLOW_RULE)];
      RuleStripped(allow[1..]);
      assert allow == [allow[0]] + allow[1..];
    }
  }

  lemma RuleRestored(root: Object)
    requires AddRule(root).1 && Fresh(root)
    ensures RemoveRule(AddRule(root).0) == (root, true)
  {
    hide FreshHooks;
    RuleStripped([]);
    if "permissions" !in root {
      var p: Object := map["allow" := Arr([Str(ALLOW_RULE)])];
      assert [] + [Str(ALLOW_RULE)] == [Str(ALLOW_RULE)];
      assert Drop(p, "allow") == map[];
      assert Drop(root["permissions" := Obj(p)], "permissions") == root;
    } else {
      var p := root["permissions"].members;
      assert root["permissions" := Obj(p)] == root;
      var items := if "allow" in p then p["allow"].items else [];
      var with := p["allow" := Arr(items + [Str(ALLOW_RULE)])];
      RuleStripped(items);
      assert AddRule(root).0 == root["permissions" := Obj(with)];
      assert (if items == [] then Drop(with, "allow") else with["allow" := Arr(items)]) == p;
      assert root["permissions" := Obj(with)]["permissions" := Obj(p)] == root;
    }
  }

  lemma FreshElsewhere(root: Object, h: Json)
    requires Fresh(root) && AddRule(root["hooks" := h]).1
    ensures RemoveRule(AddRule(root["hooks" := h]).0) == (root["hooks" := h], true)
  {
    hide FreshHooks;
    assert "hooks" != "permissions";
    var bare := Drop(root, "hooks");
    assert root["hooks" := h] == bare["hooks" := h];
    if AddRule(bare).1 {
      assert Fresh(bare);
      RuleRestored(bare);
    }
    RemoveAddElsewhere(bare, h);
  }

  /** Adding and removing the rule does not look at the hooks. */
  lemma RemoveAddElsewhere(root: Object, h: Json)
    requires "hooks" !in root && AddRule(root["hooks" := h]).1
    requires AddRule(root).1 ==> RemoveRule(AddRule(root).0) == (root, true)
    ensures RemoveRule(AddRule(root["hooks" := h]).0) == (root["hooks" := h], true)
  {
    assert "hooks" != "permissions";
    AddRuleCommutes(root, h);
    var a := AddRule(root).0;
    var p := a["permissions"].members;
    assert Drop(a["hooks" := h], "permissions") == Drop(a, "permissions")["hooks" := h];
    if "allow" in p && p["allow"].Arr? {
      var kept := WithoutRule(p["allow"].items);
      SwapUpdates(a, h, Obj(if kept == [] then Drop(p, "allow") else p["allow" := Arr(kept)]));
    }
  }

  /** Remove after Apply gives back exactly the settings there were, for any settings without a
      trace of ours, if and only if every registered command is recognised as ours. */
  lemma RemoveUndoesApply(install: Install, root: Object)
    requires Applied(install, root).1 && Fresh(root)
    ensures Removed(Applied(install, root).0) == (root, true) <==> Removable(install)
  {
    hide RegisterFrom, RemoveFrom, AddRule, RemoveRule, Removable, FreshHooks, Install.Valid;
    var h0 := if "hooks" in root then root["hooks"].members else map[];
    var h1 := RegisterFrom(install, h0, 0).0;
    NothingIsFresh();
    HooksRestored(install, h0);
    FreshElsewhere(root, Obj(h1));
    var h2 := RemoveFrom(h1, 0).0;
    var root1 := root["hooks" := Obj(h1)];
    assert Drop(root1, "hooks") == Drop(root, "hooks");
    if "hooks" !in root { assert Drop(root, "hooks") == root; }
    else { assert root["hooks" := Obj(h0)] == root; }
    assert root1["hooks" := Obj(h2)]["hooks"] == Obj(h2);
    assert root1["hooks" := Obj(h2)] == root["hooks" := Obj(h2)];
  }

  lemma NothingIsFresh()
    ensures FreshHooks(map[])
  {
  }

  /** Settings a registration can edit: wherever it looks for an object or an array there is one or
      nothing. */
  ghost predicate Editable(root: Object) {
    && ("hooks" in root ==> root["hooks"].Obj? && EventsAreArrays(root["hooks"].members))
    && ("permissions" in root ==> root["permissions"].Obj? && ("allow" in root["permissions"].members ==> root["permissions"].members["allow"].Arr?))
  }

  ghost predicate EventsAreArrays(h: Object) {
    forall j :: 0 <= j < |REGISTRATIONS| ==> REGISTRATIONS[j].runtime in h ==> h[REGISTRATIONS[j].runtime].Arr?
  }

  /** A registration succeeds exactly on a valid installation and settings it can edit. */
  lemma AppliesExactly(install: Install, root: Object)
    ensures Applied(install, root).1 <==> install.Valid() && Editable(root)
  {
    hide RegisterFrom, Install.Valid;
    var h0 := if "hooks" in root then (if root["hooks"].Obj? then root["hooks"].members else map[]) else map[];
    if EventsAreArrays(h0) { RegisterSucceeds(install, h0, 0); }
    if RegisterFrom(install, h0, 0).1 {
      forall j | 0 <= j < |REGISTRATIONS| ensures REGISTRATIONS[j].runtime in h0 ==> h0[REGISTRATIONS[j].runtime].Arr? {
        RegisterNeedsArrays(install, h0, 0, j);
      }
    }
    assert "hooks" != "permissions";
  }
}
