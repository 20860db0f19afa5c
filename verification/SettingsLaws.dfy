/** What registering and removing promise together: a second registration changes nothing, what
    is not ours is kept in order, exactly one entry per event remains, and removing undoes it. */
module SettingsLaws {
  import opened Registration
  import opened Json
  import opened Settings

  // -------------------------------------------------------------- one event

  function OursIn(entries: seq<Json>, event: string): nat {
    if entries == [] then 0 else (if Ours(EntryCommand(entries[0]), event) then 1 else 0) + OursIn(entries[1..], event)
  }

  /** How many entries of ours an event's groups hold. */
  function OursInGroups(groups: seq<Json>, event: string): nat {
    if groups == [] then 0 else OursIn(EntriesOf(groups[0]), event) + OursInGroups(groups[1..], event)
  }

  function ForeignEntries(entries: seq<Json>, event: string): seq<Json> {
    if entries == [] then []
    else (if Ours(EntryCommand(entries[0]), event) then [] else [entries[0]]) + ForeignEntries(entries[1..], event)
  }

  /** The groups without our entries, and without the groups that held nothing else. */
  function Foreign(groups: seq<Json>, event: string): seq<Json> {
    if groups == [] then []
    else
      var kept := ForeignEntries(EntriesOf(groups[0]), event);
      (if EntriesOf(groups[0]) != [] && kept == [] then [] else [WithEntries(groups[0], kept)]) + Foreign(groups[1..], event)
  }

  lemma EntriesOfWith(group: Json, entries: seq<Json>)
    requires EntriesOf(group) == [] ==> entries == []
    ensures EntriesOf(WithEntries(group, entries)) == entries
    ensures WithEntries(WithEntries(group, entries), EntriesOf(WithEntries(group, entries))) == WithEntries(group, entries)
    ensures forall es :: WithEntries(WithEntries(group, entries), es) == WithEntries(group, es)
  {
    if group.Obj? {
      forall es ensures group.members["hooks" := Arr(entries)]["hooks" := Arr(es)] == group.members["hooks" := Arr(es)] {}
    }
  }

  lemma UpdatedCommand(entry: Json, w: Want)
    requires entry.Obj?
    ensures EntryCommand(Updated(entry, w)) == w.command && Updated(Updated(entry, w), w) == Updated(entry, w)
  {
  }

  lemma OursIsObject(entry: Json, event: string)
    requires Ours(EntryCommand(entry), event)
    ensures entry.Obj?
  {
  }

  lemma ConsEntry(e: Json, es: seq<Json>, w: Want, found: bool)
    ensures EditEntries([e] + es, w, found) ==
            if !Ours(EntryCommand(e), w.event) then ([e] + EditEntries(es, w, found).0, EditEntries(es, w, found).1)
            else if found then EditEntries(es, w, true)
            else ([Updated(e, w)] + EditEntries(es, w, true).0, EditEntries(es, w, true).1)
    ensures OursIn([e] + es, w.event) == (if Ours(EntryCommand(e), w.event) then 1 else 0) + OursIn(es, w.event)
    ensures ForeignEntries([e] + es, w.event)
            == if Ours(EntryCommand(e), w.event) then ForeignEntries(es, w.event) else [e] + ForeignEntries(es, w.event)
  {
    assert ([e] + es)[1..] == es;
    assert [] + EditEntries(es, w, true).0 == EditEntries(es, w, true).0;
    assert [] + ForeignEntries(es, w.event) == ForeignEntries(es, w.event);
  }

  /** What editing the entries of one group does. */
  ghost predicate EntriesEdited(entries: seq<Json>, w: Want, found: bool) {
    var e := EditEntries(entries, w, found);
    && e.1 == (found || OursIn(entries, w.event) > 0)
    && (Ours(w.command, w.event) ==>
          && EditEntries(e.0, w, found) == e
          && ForeignEntries(e.0, w.event) == ForeignEntries(entries, w.event)
          && OursIn(e.0, w.event) == (if found || !e.1 then 0 else 1))
    && (!Ours(w.command, w.event) ==> OursIn(e.0, w.event) == 0)
  }

  lemma {:induction false} EditEntriesLaws(entries: seq<Json>, w: Want, found: bool)
    ensures EntriesEdited(entries, w, found)
  {
    if entries != [] {
      var e, es := entries[0], entries[1..];
      assert entries == [e] + es;
      ConsEntry(e, es, w, found);
      if !Ours(EntryCommand(e), w.event) {
        EditEntriesLaws(es, w, found);
        hide EditEntries, OursIn, ForeignEntries, Ours, Updated, EntryCommand;
        ConsEntry(e, EditEntries(es, w, found).0, w, found);
      } else {
        OursIsObject(e, w.event);
        UpdatedCommand(e, w);
        EditEntriesLaws(es, w, true);
        hide EditEntries, OursIn, ForeignEntries, Ours, Updated, EntryCommand;
        ConsEntry(Updated(e, w), EditEntries(es, w, true).0, w, found);
      }
    }
  }

  lemma ConsGroup(g: Json, gs: seq<Json>, w: Want, found: bool)
    ensures var kept := EditEntries(EntriesOf(g), w, found);
            EditGroups([g] + gs, w, found) ==
            if EntriesOf(g) != [] && kept.0 == [] then EditGroups(gs, w, kept.1)
            else ([WithEntries(g, kept.0)] + EditGroups(gs, w, kept.1).0, EditGroups(gs, w, kept.1).1)
    ensures OursInGroups([g] + gs, w.event) == OursIn(EntriesOf(g), w.event) + OursInGroups(gs, w.event)
    ensures var kept := ForeignEntries(EntriesOf(g), w.event);
            Foreign([g] + gs, w.event) ==
            if EntriesOf(g) != [] && kept == [] then Foreign(gs, w.event)
            else [WithEntries(g, kept)] + Foreign(gs, w.event)
  {
    hide EditEntries, EntriesOf, OursIn, ForeignEntries, WithEntries;
    assert ([g] + gs)[1..] == gs;
    var kept := EditEntries(EntriesOf(g), w, found);
    assert [] + EditGroups(gs, w, kept.1).0 == EditGroups(gs, w, kept.1).0;
    assert [] + Foreign(gs, w.event) == Foreign(gs, w.event);
  }

  /** What editing the groups of one event does. */
  ghost predicate GroupsEdited(groups: seq<Json>, w: Want, found: bool) {
    var e := EditGroups(groups, w, found);
    && e.1 == (found || OursInGroups(groups, w.event) > 0)
    && (Ours(w.command, w.event) ==>
          && EditGroups(e.0, w, found) == e
          && Foreign(e.0, w.event) == Foreign(groups, w.event)
          && OursInGroups(e.0, w.event) == (if found || !e.1 then 0 else 1))
    && (!Ours(w.command, w.event) ==> OursInGroups(e.0, w.event) == 0)
  }

  lemma NothingInNothing(w: Want, found: bool)
    ensures EditEntries([], w, found) == ([], found) && ForeignEntries([], w.event) == [] && OursIn([], w.event) == 0
  {
  }

  lemma {:induction false} EditGroupsLaws(groups: seq<Json>, w: Want, found: bool)
    ensures GroupsEdited(groups, w, found)
  {
    if groups != [] {
      var g, gs := groups[0], groups[1..];
      assert groups == [g] + gs;
      hide EditEntries, OursIn, ForeignEntries, Ours, EntriesOf, WithEntries;
      var entries := EntriesOf(g);
      var kept := EditEntries(entries, w, found);
      EditEntriesLaws(entries, w, found);
      EditGroupsLaws(gs, w, kept.1);
      ConsGroup(g, gs, w, found);
      NothingInNothing(w, found);
      hide EditGroups, OursInGroups, Foreign;
      if entries == [] || kept.0 != [] {
        EntriesOfWith(g, kept.0);
        ConsGroup(WithEntries(g, kept.0), EditGroups(gs, w, kept.1).0, w, found);
      }
    }
  }

  lemma Assoc(x: Json, a: seq<Json>, b: seq<Json>)
    ensures [x] + (a + b) == [x] + a + b
  {
  }

  lemma NoGroups(w: Want, found: bool)
    ensures EditGroups([], w, found) == ([], found) && Foreign([], w.event) == [] && OursInGroups([], w.event) == 0
  {
  }

  lemma {:induction false} GroupsAppend(a: seq<Json>, b: seq<Json>, w: Want, found: bool)
    ensures EditGroups(a + b, w, found)
            == (EditGroups(a, w, found).0 + EditGroups(b, w, EditGroups(a, w, found).1).0,
                EditGroups(b, w, EditGroups(a, w, found).1).1)
    ensures Foreign(a + b, w.event) == Foreign(a, w.event) + Foreign(b, w.event)
    ensures OursInGroups(a + b, w.event) == OursInGroups(a, w.event) + OursInGroups(b, w.event)
  {
    hide EditEntries, OursIn, ForeignEntries, EntriesOf, WithEntries, EditGroups, OursInGroups, Foreign;
    NoGroups(w, found);
    if a == [] {
      assert a + b == b;
      assert [] + EditGroups(b, w, found).0 == EditGroups(b, w, found).0;
      assert [] + Foreign(b, w.event) == Foreign(b, w.event);
    } else {
      assert a + b == [a[0]] + (a[1..] + b) && a == [a[0]] + a[1..];
      ConsGroup(a[0], a[1..] + b, w, found);
      ConsGroup(a[0], a[1..], w, found);
      var next := EditEntries(EntriesOf(a[0]), w, found).1;
      GroupsAppend(a[1..], b, w, next);
      Assoc(WithEntries(a[0], EditEntries(EntriesOf(a[0]), w, found).0), EditGroups(a[1..], w, next).0,
        EditGroups(b, w, EditGroups(a[1..], w, next).1).0);
      Assoc(WithEntries(a[0], ForeignEntries(EntriesOf(a[0]), w.event)), Foreign(a[1..], w.event), Foreign(b, w.event));
    }
  }

  lemma NewGroupLaws(w: Want)
    ensures OursInGroups([NewGroup(w)], w.event) == if Ours(w.command, w.event) then 1 else 0
    ensures Ours(w.command, w.event) ==> EditGroups([NewGroup(w)], w, false) == ([NewGroup(w)], true)
    ensures Ours(w.command, w.event) ==> Foreign([NewGroup(w)], w.event) == []
  {
    var g := NewGroup(w);
    var e := EntriesOf(g)[0];
    assert EntriesOf(g) == [e] + [] && WithEntries(g, [e]) == g;
    assert e.Obj? && EntryCommand(e) == w.command && Updated(e, w) == e;
    hide Ours, EntryCommand, Updated, WithEntries, EntriesOf, EditEntries, OursIn, ForeignEntries, NewGroup;
    ConsEntry(e, [], w, false);
    NothingInNothing(w, true);
    ConsGroup(g, [], w, false);
    assert [e] + [] == [e] && [g] + [] == [g];
    NoGroups(w, true);
  }

  /** One event after a registration: exactly one entry of ours, everything else as it was, and
      nothing left to do, provided the command we register is recognised as ours. */
  lemma EventLaws(groups: seq<Json>, w: Want)
    requires Ours(w.command, w.event)
    ensures OursInGroups(EventGroups(groups, w), w.event) == 1
    ensures Foreign(EventGroups(groups, w), w.event) == Foreign(groups, w.event)
    ensures EventGroups(EventGroups(groups, w), w) == EventGroups(groups, w)
  {
    hide Ours, EditGroups, OursInGroups, Foreign, NewGroup;
    var e := EditGroups(groups, w, false);
    EditGroupsLaws(groups, w, false);
    if e.1 {
      assert e.0 + [] == e.0;
    } else {
      NewGroupLaws(w);
      GroupsAppend(e.0, [NewGroup(w)], w, false);
      assert Foreign(groups, w.event) + [] == Foreign(groups, w.event);
      assert e.0 + [NewGroup(w)] + [] == e.0 + [NewGroup(w)];
    }
  }

  /** A command that is not recognised as ours is registered again every time. */
  lemma UnrecognisedGrows(groups: seq<Json>, w: Want)
    requires !Ours(w.command, w.event)
    ensures EventGroups(EventGroups(groups, w), w) != EventGroups(groups, w)
  {
    hide Ours, EditGroups, OursInGroups, Foreign, NewGroup;
    var g := EventGroups(groups, w);
    EditGroupsLaws(groups, w, false);
    NewGroupLaws(w);
    GroupsAppend(EditGroups(groups, w, false).0, [NewGroup(w)], w, false);
    assert OursInGroups(g, w.event) == 0 by {
      assert EditGroups(groups, w, false).0 + [] == EditGroups(groups, w, false).0;
    }
    EditGroupsLaws(g, w, false);
    NoneToEdit(g, w);
  }

  lemma {:induction false} NoneInEntries(entries: seq<Json>, w: Want)
    requires OursIn(entries, w.event) == 0
    ensures EditEntries(entries, w, false) == (entries, false)
  {
    if entries != [] {
      NoneInEntries(entries[1..], w);
      assert entries == [entries[0]] + entries[1..];
    }
  }

  lemma {:induction false} NoneToEdit(groups: seq<Json>, w: Want)
    requires OursInGroups(groups, w.event) == 0
    ensures EditGroups(groups, w, false) == (groups, false)
  {
    if groups != [] {
      NoneInEntries(EntriesOf(groups[0]), w);
      NoneToEdit(groups[1..], w);
      assert WithEntries(groups[0], EntriesOf(groups[0])) == groups[0];
      assert groups == [groups[0]] + groups[1..];
    }
  }

  // -------------------------------------------------------------- the whole registration

  /** Every command the installation registers is recognised as its own. */
  ghost predicate Recognised(install: Install) {
    forall k :: 0 <= k < |REGISTRATIONS| ==> Ours(install.Command(REGISTRATIONS[k].event), REGISTRATIONS[k].event)
  }

  function Groups(h: Object, install: Install, k: nat): seq<Json>
    requires k < |REGISTRATIONS|
  {
    EventGroups(GroupsAt(h, REGISTRATIONS[k].runtime), WantOf(install, REGISTRATIONS[k]))
  }

  lemma RuntimesDiffer(j: nat, k: nat)
    requires j < |REGISTRATIONS| && k < |REGISTRATIONS| && j != k
    ensures REGISTRATIONS[j].runtime != REGISTRATIONS[k].runtime
  {
    assert REGISTRATIONS[0].runtime[1] == 'e' && REGISTRATIONS[0].runtime[0] == 'S';
    assert REGISTRATIONS[1].runtime[0] == 'U' && REGISTRATIONS[3].runtime[0] == 'P';
    assert |REGISTRATIONS[2].runtime| == 13 && |REGISTRATIONS[4].runtime| == 12;
    assert REGISTRATIONS[2].runtime[1] == 'u' && REGISTRATIONS[4].runtime[1] == 'u';
  }

  /** A member that is none of the later events is not touched by them. */
  lemma {:induction false} RegisterKeeps(install: Install, h: Object, k: nat, m: string)
    requires k <= |REGISTRATIONS| && RegisterFrom(install, h, k).1
    requires forall j :: k <= j < |REGISTRATIONS| ==> REGISTRATIONS[j].runtime != m
    ensures m in RegisterFrom(install, h, k).0 <==> m in h
    ensures m in h ==> RegisterFrom(install, h, k).0[m] == h[m]
    decreases |REGISTRATIONS| - k
  {
    if k < |REGISTRATIONS| {
      hide EventGroups, WantOf;
      RegisterKeeps(install, h[REGISTRATIONS[k].runtime := Arr(Groups(h, install, k))], k + 1, m);
    }
  }

  lemma {:induction false} RegisterAt(install: Install, h: Object, k: nat, j: nat)
    requires k <= j < |REGISTRATIONS| && RegisterFrom(install, h, k).1
    ensures REGISTRATIONS[j].runtime in RegisterFrom(install, h, k).0
    ensures RegisterFrom(install, h, k).0[REGISTRATIONS[j].runtime] == Arr(Groups(h, install, j))
    decreases |REGISTRATIONS| - k
  {
    hide EventGroups, WantOf;
    var r := REGISTRATIONS[k].runtime;
    var h' := h[r := Arr(Groups(h, install, k))];
    if j == k {
      forall i | k < i < |REGISTRATIONS| ensures REGISTRATIONS[i].runtime != r { RuntimesDiffer(k, i); }
      RegisterKeeps(install, h', k + 1, r);
    } else {
      RuntimesDiffer(k, j);
      RegisterAt(install, h', k + 1, j);
    }
  }

  /** Each event's groups are edited once. */
  lemma RegisterFromAt(install: Install, h: Object)
    requires RegisterFrom(install, h, 0).1
    ensures forall j :: 0 <= j < |REGISTRATIONS| ==>
              REGISTRATIONS[j].runtime in RegisterFrom(install, h, 0).0
              && RegisterFrom(install, h, 0).0[REGISTRATIONS[j].runtime] == Arr(Groups(h, install, j))
  {
    hide EventGroups, WantOf, RegisterFrom;
    forall j | 0 <= j < |REGISTRATIONS|
      ensures REGISTRATIONS[j].runtime in RegisterFrom(install, h, 0).0
              && RegisterFrom(install, h, 0).0[REGISTRATIONS[j].runtime] == Arr(Groups(h, install, j))
    {
      RegisterAt(install, h, 0, j);
    }
  }

  lemma {:induction false} RegisterFixed(install: Install, h: Object, k: nat)
    requires k <= |REGISTRATIONS|
    requires forall j :: k <= j < |REGISTRATIONS| ==>
               REGISTRATIONS[j].runtime in h && h[REGISTRATIONS[j].runtime] == Arr(Groups(h, install, j))
    ensures RegisterFrom(install, h, k) == (h, true)
    decreases |REGISTRATIONS| - k
  {
    if k < |REGISTRATIONS| {
      hide EventGroups, WantOf;
      var r := REGISTRATIONS[k].runtime;
      assert h[r := Arr(Groups(h, install, k))] == h;
      RegisterFixed(install, h, k + 1);
    }
  }

  lemma {:induction false} RegisterSucceeds(install: Install, h: Object, k: nat)
    requires k <= |REGISTRATIONS|
    requires forall j :: k <= j < |REGISTRATIONS| ==> REGISTRATIONS[j].runtime in h ==> h[REGISTRATIONS[j].runtime].Arr?
    ensures RegisterFrom(install, h, k).1
    decreases |REGISTRATIONS| - k
  {
    if k < |REGISTRATIONS| {
      hide EventGroups, WantOf;
      RegisterSucceeds(install, h[REGISTRATIONS[k].runtime := Arr(Groups(h, install, k))], k + 1);
    }
  }

  /** Registering twice changes nothing the second time, exactly when every registered command is
      recognised; otherwise each run registers again. */
  lemma RegisterTwice(install: Install, h: Object)
    requires RegisterFrom(install, h, 0).1
    ensures var h1 := RegisterFrom(install, h, 0).0;
            RegisterFrom(install, h1, 0).1 && (RegisterFrom(install, h1, 0).0 == h1 <==> Recognised(install))
  {
    hide EventGroups, RegisterFrom, Ours;
    var h1 := RegisterFrom(install, h, 0).0;
    RegisterFromAt(install, h);
    RegisterSucceeds(install, h1, 0);
    RegisterFromAt(install, h1);
    forall j | 0 <= j < |REGISTRATIONS|
      ensures GroupsAt(h1, REGISTRATIONS[j].runtime) == Groups(h, install, j)
      ensures Groups(h1, install, j) == Groups(h, install, j) <==> Ours(install.Command(REGISTRATIONS[j].event), REGISTRATIONS[j].event)
    {
      var w := WantOf(install, REGISTRATIONS[j]);
      if Ours(w.command, w.event) { EventLaws(GroupsAt(h, REGISTRATIONS[j].runtime), w); }
      else { UnrecognisedGrows(GroupsAt(h, REGISTRATIONS[j].runtime), w); }
    }
    if Recognised(install) {
      RegisterFixed(install, h1, 0);
    } else {
      var j :| 0 <= j < |REGISTRATIONS| && !Ours(install.Command(REGISTRATIONS[j].event), REGISTRATIONS[j].event);
      assert RegisterFrom(install, h1, 0).0[REGISTRATIONS[j].runtime] != h1[REGISTRATIONS[j].runtime];
    }
  }

  lemma AddRuleTwice(root: Object)
    requires AddRule(root).1
    ensures AddRule(AddRule(root).0) == AddRule(root)
    ensures "hooks" in AddRule(root).0 <==> "hooks" in root
    ensures "hooks" in root ==> AddRule(root).0["hooks"] == root["hooks"]
  {
    assert "hooks" != "permissions";
  }

  /** The rule and the hooks are edited independently. */
  lemma AddRuleCommutes(root: Object, h: Json)
    requires AddRule(root).1
    ensures AddRule(root["hooks" := h]) == (AddRule(root).0["hooks" := h], true)
  {
    assert "hooks" != "permissions";
    if "permissions" !in root {
      SwapUpdates(root, h, Obj(map["allow" := Arr([Str(ALLOW_RULE)])]));
    } else {
      var p := root["permissions"].members;
      SwapUpdates(root, h, Obj(p["allow" := Arr([Str(ALLOW_RULE)])]));
      if "allow" in p { SwapUpdates(root, h, Obj(p["allow" := Arr(p["allow"].items + [Str(ALLOW_RULE)])])); }
    }
  }

  lemma SwapUpdates(root: Object, h: Json, p: Json)
    ensures root["hooks" := h]["permissions" := p] == root["permissions" := p]["hooks" := h]
  {
    assert "hooks" != "permissions";
  }

  /** Apply is idempotent exactly when every command it registers is recognised as its own. */
  lemma ApplyTwice(install: Install, root: Object)
    requires Applied(install, root).1
    ensures Applied(install, Applied(install, root).0).1
    ensures Applied(install, Applied(install, root).0).0 == Applied(install, root).0 <==> Recognised(install)
  {
    hide AddRule, RegisterFrom, Recognised;
    var h0 := if "hooks" in root then root["hooks"].members else map[];
    var h := RegisterFrom(install, h0, 0);
    var with := root["hooks" := Obj(h.0)];
    RegisterTwice(install, h0);
    AddRuleTwice(with);
    var root1 := AddRule(with).0;
    var h1 := RegisterFrom(install, h.0, 0);
    AddRuleCommutes(root1, Obj(h1.0));
    assert Applied(install, root1) == AddRule(root1["hooks" := Obj(h1.0)]);
    assert AddRule(root1["hooks" := Obj(h1.0)]) == (root1["hooks" := Obj(h1.0)], true);
    if h1.0 == h.0 { assert root1["hooks" := Obj(h.0)] == root1; }
    else { assert root1["hooks" := Obj(h1.0)]["hooks"] != root1["hooks"]; }
  }

  /** After a registration every event has exactly one entry of ours; the groups and entries of
      others, every other hook and every other setting are as they were, in their order. */
  lemma ApplyKeepsTheRest(install: Install, root: Object)
    requires Applied(install, root).1 && Recognised(install)
    ensures var root1 := Applied(install, root).0;
            var h0 := if "hooks" in root then root["hooks"].members else map[];
            && "hooks" in root1 && root1["hooks"].Obj?
            && (forall k :: 0 <= k < |REGISTRATIONS| ==>
                  var r := REGISTRATIONS[k];
                  && OursInGroups(GroupsAt(root1["hooks"].members, r.runtime), r.event) == 1
                  && Foreign(GroupsAt(root1["hooks"].members, r.runtime), r.event) == Foreign(GroupsAt(h0, r.runtime), r.event))
            && (forall m :: (forall k :: 0 <= k < |REGISTRATIONS| ==> REGISTRATIONS[k].runtime != m) ==>
                  (m in root1["hooks"].members <==> m in h0) && (m in h0 ==> root1["hooks"].members[m] == h0[m]))
            && (forall m :: m != "hooks" && m != "permissions" ==> (m in root1 <==> m in root) && (m in root ==> root1[m] == root[m]))
  {
    hide RegisterFrom, EventGroups, Foreign, OursInGroups, Ours;
    var h0 := if "hooks" in root then root["hooks"].members else map[];
    var h1 := RegisterFrom(install, h0, 0).0;
    AddRuleTwice(root["hooks" := Obj(h1)]);
    RegisterFromAt(install, h0);
    forall k | 0 <= k < |REGISTRATIONS|
      ensures OursInGroups(Groups(h0, install, k), REGISTRATIONS[k].event) == 1
      ensures Foreign(Groups(h0, install, k), REGISTRATIONS[k].event) == Foreign(GroupsAt(h0, REGISTRATIONS[k].runtime), REGISTRATIONS[k].event)
    {
      EventLaws(GroupsAt(h0, REGISTRATIONS[k].runtime), WantOf(install, REGISTRATIONS[k]));
    }
    forall m | forall k :: 0 <= k < |REGISTRATIONS| ==> REGISTRATIONS[k].runtime != m
      ensures (m in h1 <==> m in h0) && (m in h0 ==> h1[m] == h0[m])
    {
      RegisterKeeps(install, h0, 0, m);
    }
  }
}
