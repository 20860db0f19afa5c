/** The edits as the program makes them: loops over events, groups and entries that change the
    settings tree in place and report whether they changed it. */
module SettingsEdit {
  import opened Text
  import opened Registration
  import opened Json
  import opened Settings
  import opened SettingsLaws
  import opened SettingsRemoval

  method IsAnyOurs(command: string) returns (any: bool)
    ensures any <==> AnyOurs(command)
  {
    for k := 0 to |REGISTRATIONS|
      invariant forall j :: 0 <= j < k ==> !Ours(command, REGISTRATIONS[j].event)
    {
      if Ours(command, REGISTRATIONS[k].event) { return true; }
    }
    return false;
  }

  /** Brings one entry of ours up to date. */
  method UpdateEntry(entry: Json, w: Want) returns (updated: Json, changed: bool)
    requires entry.Obj? && "command" in entry.members && entry.members["command"].Str?
    ensures updated == Updated(entry, w)
    ensures changed <==> updated != entry
  {
    var e := entry.members;
    changed := false;
    if e["command"] != Str(w.command) {
      e := e["command" := Str(w.command)];
      changed := true;
    }
    assert e == entry.members["command" := Str(w.command)];
    if "timeout" !in e || e["timeout"] != Num(w.timeout) {
      e := e["timeout" := Num(w.timeout)];
      changed := true;
    }
    assert e == entry.members["command" := Str(w.command)]["timeout" := Num(w.timeout)];
    updated := Obj(e);
  }

  /** How far an edit of `items` has come: `rest` is what it will make of those not yet seen. */
  ghost predicate Progress(items: seq<Json>, whole: seq<Json>, kept: seq<Json>, rest: seq<Json>, i: nat, changed: bool) {
    && i <= |items| && |kept| <= i
    && whole == kept + rest
    && (changed <==> kept != items[..i])
  }

  lemma Begun(items: seq<Json>, whole: seq<Json>)
    ensures Progress(items, whole, [], whole, 0, false) && items[0..] == items
  {
  }

  /** The next item is replaced by `out`, or dropped. */
  lemma Proceed(items: seq<Json>, whole: seq<Json>, kept: seq<Json>, rest: seq<Json>, i: nat, changed: bool,
                out: Option<Json>, rest': seq<Json>)
    requires Progress(items, whole, kept, rest, i, changed) && i < |items|
    requires rest == if out.None? then rest' else [out.value] + rest'
    ensures Progress(items, whole, if out.None? then kept else kept + [out.value], rest', i + 1, changed || out != Some(items[i]))
    ensures items[i..] == [items[i]] + items[i + 1..]
  {
    assert items[..i + 1] == items[..i] + [items[i]];
    if out.Some? { Shift(kept, out.value, rest'); }
  }

  lemma Ended(items: seq<Json>, whole: seq<Json>, kept: seq<Json>, changed: bool)
    requires Progress(items, whole, kept, [], |items|, changed)
    ensures whole == kept && (changed <==> kept != items)
  {
    assert items[..|items|] == items;
  }

  /** What becomes of one entry, and whether one of ours has been found by then. */
  function EditedEntry(entry: Json, w: Want, found: bool): (Option<Json>, bool) {
    if !Ours(EntryCommand(entry), w.event) then (Some(entry), found)
    else if found then (None, true)
    else (Some(Updated(entry, w)), true)
  }

  method EditEntry(entry: Json, w: Want, foundBefore: bool) returns (out: Option<Json>, found: bool, changed: bool)
    ensures (out, found) == EditedEntry(entry, w, foundBefore) && (changed <==> out != Some(entry))
  {
    hide Ours, Updated, EntryCommand;
    if !Ours(EntryCommand(entry), w.event) { return Some(entry), foundBefore, false; }
    if foundBefore { return None, true, true; }
    OursHasCommand(entry, w.event);
    var e, different := UpdateEntry(entry, w);
    return Some(e), true, different;
  }

  lemma EditedFirst(e: Json, es: seq<Json>, w: Want, found: bool)
    ensures var one := EditedEntry(e, w, found);
            var rest := EditEntries(es, w, one.1);
            EditEntries([e] + es, w, found) == (if one.0.None? then rest.0 else [one.0.value] + rest.0, rest.1)
  {
    hide Ours, Updated, EditEntries, EntryCommand;
    ConsEntry(e, es, w, found);
  }

  method EditEntryList(entries: seq<Json>, w: Want, foundBefore: bool) returns (kept: seq<Json>, found: bool, changed: bool)
    ensures (kept, found) == EditEntries(entries, w, foundBefore)
    ensures changed <==> kept != entries
  {
    hide EditedEntry, EditEntries, Progress;
    kept, found, changed := [], foundBefore, false;
    var i := 0;
    ghost var whole := EditEntries(entries, w, foundBefore);
    Begun(entries, whole.0);
    while i < |entries|
      invariant 0 <= i <= |entries|
      invariant Progress(entries, whole.0, kept, EditEntries(entries[i..], w, found).0, i, changed)
      invariant whole.1 == EditEntries(entries[i..], w, found).1
    {
      assert entries[i..] == [entries[i]] + entries[i + 1..];
      EditedFirst(entries[i], entries[i + 1..], w, found);
      ghost var rest := EditEntries(entries[i..], w, found).0;
      var out, different;
      out, found, different := EditEntry(entries[i], w, found);
      Proceed(entries, whole.0, kept, rest, i, changed, out, EditEntries(entries[i + 1..], w, found).0);
      if different { changed := true; }
      if out.Some? { kept := kept + [out.value]; }
      i := i + 1;
    }
    assert entries[i..] == [];
    NothingInNothing(w, found);
    Ended(entries, whole.0, kept, changed);
  }

  lemma Shift(a: seq<Json>, x: Json, b: seq<Json>)
    ensures a + ([x] + b) == a + [x] + b
  {
  }

  lemma OursHasCommand(entry: Json, event: string)
    requires Ours(EntryCommand(entry), event)
    ensures entry.Obj? && "command" in entry.members && entry.members["command"].Str?
  {
  }

  /** What becomes of one group, and whether one of ours has been found by then. */
  function EditedGroup(group: Json, w: Want, found: bool): (Option<Json>, bool) {
    var e := EditEntries(EntriesOf(group), w, found);
    (if EntriesOf(group) != [] && e.0 == [] then None else Some(WithEntries(group, e.0)), e.1)
  }

  lemma EditedGroupFirst(g: Json, gs: seq<Json>, w: Want, found: bool)
    ensures var one := EditedGroup(g, w, found);
            var rest := EditGroups(gs, w, one.1);
            EditGroups([g] + gs, w, found) == (if one.0.None? then rest.0 else [one.0.value] + rest.0, rest.1)
  {
    hide EditEntries, EntriesOf, WithEntries, EditGroups;
    ConsGroup(g, gs, w, found);
  }

  /** One group: none is left of it when dropping duplicates emptied it. */
  method EditGroup(group: Json, w: Want, foundBefore: bool) returns (kept: Option<Json>, found: bool, changed: bool)
    ensures (kept, found) == EditedGroup(group, w, foundBefore) && (changed <==> kept != Some(group))
  {
    hide EditEntries, EntriesOf;
    var entries := EntriesOf(group);
    var keptEntries;
    NothingInNothing(w, foundBefore);
    keptEntries, found, changed := EditEntryList(entries, w, foundBefore);
    SameEntriesSameGroup(group, keptEntries);
    if entries != [] && keptEntries == [] { return None, found, changed; }
    return Some(WithEntries(group, keptEntries)), found, changed;
  }

  method EditGroupList(groups: seq<Json>, w: Want) returns (kept: seq<Json>, found: bool, changed: bool)
    ensures (kept, found) == EditGroups(groups, w, false)
    ensures changed <==> kept != groups
  {
    hide EditedGroup, EditGroups, Progress;
    kept, found, changed := [], false, false;
    var i := 0;
    ghost var whole := EditGroups(groups, w, false);
    Begun(groups, whole.0);
    while i < |groups|
      invariant 0 <= i <= |groups|
      invariant Progress(groups, whole.0, kept, EditGroups(groups[i..], w, found).0, i, changed)
      invariant whole.1 == EditGroups(groups[i..], w, found).1
    {
      assert groups[i..] == [groups[i]] + groups[i + 1..];
      EditedGroupFirst(groups[i], groups[i + 1..], w, found);
      ghost var rest := EditGroups(groups[i..], w, found).0;
      var group, different;
      group, found, different := EditGroup(groups[i], w, found);
      Proceed(groups, whole.0, kept, rest, i, changed, group, EditGroups(groups[i + 1..], w, found).0);
      if different { changed := true; }
      i := i + 1;
      if group.Some? { kept := kept + [group.value]; }
    }
    assert groups[i..] == [];
    NoGroups(w, found);
    Ended(groups, whole.0, kept, changed);
  }

  lemma SameEntriesSameGroup(group: Json, kept: seq<Json>)
    ensures kept == EntriesOf(group) ==> WithEntries(group, kept) == group
    ensures kept != EntriesOf(group) && EntriesOf(group) != [] ==> WithEntries(group, kept) != group
  {
  }

  /** One event: the edited groups, with ours appended when there was none. */
  method ApplyEvent(install: Install, h: Object, r: Reg) returns (h': Option<Object>, changed: bool)
    ensures h'.Some? <==> !(r.runtime in h && !h[r.runtime].Arr?)
    ensures h'.Some? ==> h'.value == h[r.runtime := Arr(EventGroups(GroupsAt(h, r.runtime), WantOf(install, r)))]
    ensures h'.Some? ==> (changed <==> h'.value != h)
  {
    hide EditGroups, NewGroup, WantOf;
    if r.runtime in h && !h[r.runtime].Arr? { return None, false; }
    var w := WantOf(install, r);
    var groups := GroupsAt(h, r.runtime);
    var kept, found;
    kept, found, changed := EditGroupList(groups, w);
    if found {
      assert kept + [] == kept;
      if r.runtime !in h { NoGroups(w, false); }
    } else {
      NewEntryIsNew(groups, w);
      kept := kept + [NewGroup(w)];
      changed := true;
    }
    h' := Some(h[r.runtime := Arr(kept)]);
    assert r.runtime in h && kept == groups ==> h'.value == h;
  }

  /** One event of a removal: its groups without ours, or nothing when no group is left. */
  method RemoveEvent(h: Object, runtime: string) returns (h': Option<Object>, changed: bool)
    ensures h'.None? <==> runtime in h && !h[runtime].Arr?
    ensures h'.Some? ==> h'.value == Removing(h, runtime) && (changed <==> h'.value != h)
    ensures h'.Some? ==> forall m :: m != runtime ==> (m in h <==> m in h'.value) && (m in h ==> h[m] == h'.value[m])
  {
    hide StripGroups;
    if runtime !in h { return Some(h), false; }
    if !h[runtime].Arr? { return None, false; }
    var groups := h[runtime].items;
    var kept, different := StripGroupList(groups);
    if kept == [] && groups != [] { return Some(Drop(h, runtime)), true; }
    var out := h[runtime := Arr(kept)];
    assert kept == groups ==> out == h;
    assert kept != groups ==> out[runtime] != h[runtime];
    return Some(out), different;
  }

  function Removing(h: Object, runtime: string): Object
    requires runtime in h ==> h[runtime].Arr?
  {
    if runtime !in h then h
    else
      var kept := StripGroups(h[runtime].items);
      if kept == [] && h[runtime].items != [] then Drop(h, runtime) else h[runtime := Arr(kept)]
  }

  lemma RemoveStep(h: Object, k: nat)
    requires k < |REGISTRATIONS|
    ensures var r := REGISTRATIONS[k].runtime;
            RemoveFrom(h, k) == if r in h && !h[r].Arr? then (h, false) else RemoveFrom(Removing(h, r), k + 1)
  {
    hide StripGroups;
  }

  lemma RemoveEnd(h: Object)
    ensures RemoveFrom(h, |REGISTRATIONS|) == (h, true)
  {
  }

  /** From the `k`-th event on, `h` is still as it was in `h0`. */
  ghost predicate SameFrom(h: Object, h0: Object, k: nat) {
    forall j :: k <= j < |REGISTRATIONS| ==>
      && (REGISTRATIONS[j].runtime in h <==> REGISTRATIONS[j].runtime in h0)
      && (REGISTRATIONS[j].runtime in h ==> h[REGISTRATIONS[j].runtime] == h0[REGISTRATIONS[j].runtime])
  }

  lemma SameAtFirst(h: Object)
    ensures SameFrom(h, h, 0)
  {
  }

  lemma SameStep(h: Object, h': Option<Object>, h0: Object, k: nat)
    requires k < |REGISTRATIONS| && SameFrom(h, h0, k) && h'.Some?
    requires forall m :: m != REGISTRATIONS[k].runtime ==> (m in h <==> m in h'.value) && (m in h ==> h[m] == h'.value[m])
    ensures SameFrom(h'.value, h0, k + 1)
    ensures h'.value != h0 <==> h != h0 || h'.value != h
  {
    forall j | k < j < |REGISTRATIONS| ensures REGISTRATIONS[j].runtime != REGISTRATIONS[k].runtime { RuntimesDiffer(k, j); }
    if m :| (m in h && m !in h0) || (m in h0 && m !in h) || (m in h && m in h0 && h[m] != h0[m]) {
      assert m != REGISTRATIONS[k].runtime;
    } else {
      assert h == h0;
    }
  }

  lemma RegisterStep(install: Install, h: Object, k: nat)
    requires k < |REGISTRATIONS|
    ensures var r := REGISTRATIONS[k];
            RegisterFrom(install, h, k) ==
            if r.runtime in h && !h[r.runtime].Arr? then (h, false)
            else RegisterFrom(install, h[r.runtime := Arr(EventGroups(GroupsAt(h, r.runtime), WantOf(install, r)))], k + 1)
  {
  }

  lemma RegisterEnd(install: Install, h: Object)
    ensures RegisterFrom(install, h, |REGISTRATIONS|) == (h, true)
  {
  }

  /** Every item of an allow list but the rule. */
  method StripRule(allow: seq<Json>) returns (kept: seq<Json>)
    ensures kept == WithoutRule(allow)
  {
    kept := [];
    var i := 0;
    while i < |allow|
      invariant 0 <= i <= |allow| && WithoutRule(allow) == kept + WithoutRule(allow[i..])
    {
      assert allow[i..][1..] == allow[i + 1..];
      if allow[i] != Str(ALLOW_RULE) { kept := kept + [allow[i]]; }
      i := i + 1;
    }
    assert allow[i..] == [] && kept + [] == kept;
  }

  class SettingsFile {
    var root: Object

    constructor (root: Object)
      ensures this.root == root
    {
      this.root := root;
    }

    /** Appends the rule to permissions.allow unless it is there. None is a refusal. */
    method AddAllowRule() returns (changed: Option<bool>)
      modifies this
      ensures root == AddRule(old(root)).0 && changed.Some? == AddRule(old(root)).1
      ensures changed.Some? ==> (changed.value <==> root != old(root))
    {
      var p: Object := map[];
      var allow: seq<Json> := [];
      if "permissions" in root {
        if !root["permissions"].Obj? { return None; }
        p := root["permissions"].members;
        if "allow" in p {
          if !p["allow"].Arr? { return None; }
          allow := p["allow"].items;
        }
      }
      for i := 0 to |allow|
        invariant Str(ALLOW_RULE) !in allow[..i] && root == old(root)
      {
        if allow[i] == Str(ALLOW_RULE) { return Some(false); }
      }
      assert allow == allow[..|allow|];
      p := p["allow" := Arr(allow + [Str(ALLOW_RULE)])];
      assert [] + [Str(ALLOW_RULE)] == [Str(ALLOW_RULE)];
      root := root["permissions" := Obj(p)];
      assert root["permissions"] == Obj(p);
      return Some(true);
    }

    /** Deletes every copy of the rule, and an allow list or permissions object that leaves empty. */
    method RemoveAllowRule() returns (changed: Option<bool>)
      modifies this
      ensures root == RemoveRule(old(root)).0 && changed.Some? == RemoveRule(old(root)).1
      ensures changed.Some? ==> (changed.value <==> root != old(root))
    {
      hide WithoutRule;
      if "permissions" !in root { return Some(false); }
      if !root["permissions"].Obj? { return None; }
      var p := root["permissions"].members;
      if "allow" !in p { return Some(false); }
      if !p["allow"].Arr? { return None; }
      var allow := p["allow"].items;
      var kept := StripRule(allow);
      if |kept| == |allow| { return Some(false); }
      if kept == [] { p := Drop(p, "allow"); } else { p := p["allow" := Arr(kept)]; }
      assert p != root["permissions"].members;
      if p == map[] { root := Drop(root, "permissions"); } else { root := root["permissions" := Obj(p)]; }
      return Some(true);
    }

    /** Registers the hooks. It reports a change exactly when it made one; None is a refusal, which
        may leave the tree half edited. */
    method Apply(install: Install) returns (changed: Option<bool>)
      modifies this
      ensures root == Applied(install, old(root)).0 && changed.Some? == Applied(install, old(root)).1
      ensures changed.Some? ==> (changed.value <==> root != old(root))
    {
      hide AddRule, RegisterFrom, EventGroups, Install.Valid, SameFrom;
      if !install.Valid() { return None; }
      if "hooks" in root && !root["hooks"].Obj? { return None; }
      var h: Object := if "hooks" in root then root["hooks"].members else map[];
      ghost var h0 := h;
      SameAtFirst(h);
      root := root["hooks" := Obj(h)];
      var edited := false;
      var k := 0;
      while k < |REGISTRATIONS|
        invariant 0 <= k <= |REGISTRATIONS|
        invariant root == old(root)["hooks" := Obj(h)]
        invariant RegisterFrom(install, h0, 0) == RegisterFrom(install, h, k)
        invariant SameFrom(h, h0, k)
        invariant edited <==> h != h0
      {
        RegisterStep(install, h, k);
        var h', different := ApplyEvent(install, h, REGISTRATIONS[k]);
        if h'.None? { return None; }
        SameStep(h, h', h0, k);
        h := h'.value;
        if different { edited := true; }
        root := root["hooks" := Obj(h)];
        k := k + 1;
      }
      RegisterEnd(install, h);
      HooksChange(old(root), h0, h);
      AddRuleLeavesHooks(root);
      RegisterNonEmpty(install, h0);
      var rule := AddAllowRule();
      if rule.None? { return None; }
      return Some(edited || rule.value);
    }

    /** Unregisters every entry of ours. It reports a change exactly when it made one. */
    method Remove() returns (changed: Option<bool>)
      modifies this
      ensures root == Removed(old(root)).0 && changed.Some? == Removed(old(root)).1
      ensures changed.Some? ==> (changed.value <==> root != old(root))
    {
      hide RemoveRule, RemoveFrom, StripGroups, AnyOurs, SameFrom;
      var rule := RemoveAllowRule();
      if rule.None? { return None; }
      ghost var root1 := root;
      RemoveRuleLeavesHooks(old(root));
      if "hooks" !in root { return rule; }
      if !root["hooks"].Obj? { return None; }
      var h := root["hooks"].members;
      ghost var h0 := h;
      SameAtFirst(h);
      assert root["hooks" := Obj(h)] == root;
      var edited := false;
      var k := 0;
      while k < |REGISTRATIONS|
        invariant 0 <= k <= |REGISTRATIONS|
        invariant root == root1["hooks" := Obj(h)]
        invariant RemoveFrom(h0, 0) == RemoveFrom(h, k)
        invariant SameFrom(h, h0, k)
        invariant edited <==> h != h0
      {
        RemoveStep(h, k);
        var h', different := RemoveEvent(h, REGISTRATIONS[k].runtime);
        if h'.None? { return None; }
        SameStep(h, h', h0, k);
        h := h'.value;
        if different { edited := true; }
        root := root["hooks" := Obj(h)];
        k := k + 1;
      }
      RemoveEnd(h);
      assert h != h0 ==> root1["hooks" := Obj(h)]["hooks"] != root1["hooks"];
      assert Drop(root, "hooks") == Drop(root1, "hooks");
      if edited && h == map[] {
        root := Drop(root, "hooks");
      }
      return Some(edited || rule.value);
    }
  }

  lemma StripEntryCons(e: Json, es: seq<Json>)
    ensures StripEntries([e] + es) == if AnyOurs(EntryCommand(e)) then StripEntries(es) else [e] + StripEntries(es)
  {
    hide AnyOurs, EntryCommand;
    assert ([e] + es)[1..] == es && [] + StripEntries(es) == StripEntries(es);
  }

  method StripEntryList(entries: seq<Json>) returns (kept: seq<Json>, changed: bool)
    ensures kept == StripEntries(entries) && (changed <==> kept != entries)
  {
    hide AnyOurs, EntryCommand, StripEntries, Progress;
    kept, changed := [], false;
    var i := 0;
    ghost var whole := StripEntries(entries);
    Begun(entries, whole);
    while i < |entries|
      invariant 0 <= i <= |entries|
      invariant Progress(entries, whole, kept, StripEntries(entries[i..]), i, changed)
    {
      ghost var rest := entries[i + 1..];
      assert entries[i..] == [entries[i]] + rest;
      StripEntryCons(entries[i], rest);
      var any := IsAnyOurs(EntryCommand(entries[i]));
      Proceed(entries, whole, kept, StripEntries(entries[i..]), i, changed, if any then None else Some(entries[i]), StripEntries(rest));
      if any { changed := true; } else { kept := kept + [entries[i]]; }
      i := i + 1;
    }
    assert entries[i..] == [];
    StripNothingEntries([]);
    Ended(entries, whole, kept, changed);
  }

  method StripGroupList(groups: seq<Json>) returns (kept: seq<Json>, changed: bool)
    ensures kept == StripGroups(groups)
    ensures changed <==> kept != groups
  {
    hide EntriesOf, AnyOurs, StripEntries, StripGroups, WithEntries, Progress;
    kept, changed := [], false;
    var i := 0;
    ghost var whole := StripGroups(groups);
    Begun(groups, whole);
    while i < |groups|
      invariant 0 <= i <= |groups|
      invariant Progress(groups, whole, kept, StripGroups(groups[i..]), i, changed)
    {
      var group := groups[i];
      ghost var rest := groups[i + 1..];
      assert groups[i..] == [group] + rest;
      StripCons(group, rest);
      StripNothingEntries([]);
      var entries := EntriesOf(group);
      var keptEntries, different := StripEntryList(entries);
      SameEntriesSameGroup(group, keptEntries);
      var out := if keptEntries == [] && entries != [] then None else Some(WithEntries(group, keptEntries));
      Proceed(groups, whole, kept, StripGroups(groups[i..]), i, changed, out, StripGroups(rest));
      if different { changed := true; }
      if out.Some? { kept := kept + [out.value]; }
      i := i + 1;
    }
    assert groups[i..] == [];
    StripNothing([]);
    Ended(groups, whole, kept, changed);
  }

  // -------------------------------------------------------------- what the flags rest on

  lemma NewEntryIsNew(groups: seq<Json>, w: Want)
    requires !EditGroups(groups, w, false).1
    ensures EditGroups(groups, w, false).0 + [NewGroup(w)] != groups
  {
    EditGroupsLaws(groups, w, false);
    NoneToEdit(groups, w);
  }

  lemma HooksChange(root: Object, h0: Object, h: Object)
    requires h0 == if "hooks" in root && root["hooks"].Obj? then root["hooks"].members else map[]
    requires "hooks" in root ==> root["hooks"].Obj?
    ensures "hooks" in root ==> (root["hooks" := Obj(h)] == root <==> h == h0)
    ensures "hooks" !in root ==> root["hooks" := Obj(h)] != root
  {
    assert root["hooks" := Obj(h)]["hooks"] == Obj(h);
  }

  lemma AddRuleLeavesHooks(root: Object)
    ensures "hooks" in AddRule(root).0 <==> "hooks" in root
    ensures "hooks" in root ==> AddRule(root).0["hooks"] == root["hooks"]
  {
    assert "hooks" != "permissions";
  }

  lemma RemoveRuleLeavesHooks(root: Object)
    ensures "hooks" in RemoveRule(root).0 <==> "hooks" in root
    ensures "hooks" in root ==> RemoveRule(root).0["hooks"] == root["hooks"]
  {
    assert "hooks" != "permissions";
  }

  lemma RegisterNonEmpty(install: Install, h: Object)
    requires RegisterFrom(install, h, 0).1
    ensures RegisterFrom(install, h, 0).0 != map[]
  {
    RegisterAt(install, h, 0, 0);
  }
}
