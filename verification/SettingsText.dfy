/** The registration and its removal as they stand in the settings file: the members and texts written for
    each event, what becomes of entries of ours that are there already, and what a removal takes away. */
module SettingsText {
  import opened Text
  import opened Decimal
  import opened Registration
  import opened Json
  import opened Settings
  import opened SettingsLaws
  import opened SettingsRemoval
  import opened SettingsEdit

  // -------------------------------------------------------------- whose entry is it

  /** The first mention of the event behind " hook claude-code " is at the end or before a blank. */
  ghost predicate NamesEvent(command: string, event: string) {
    exists before, after :: FirstNamed(command, event, before, after) && (after == "" || after[0] == ' ')
  }

  ghost predicate FirstNamed(command: string, event: string, before: string, after: string) {
    && command == before + (" hook claude-code " + event) + after
    && forall i :: 0 <= i < |before| ==> !HasPrefix(command[i..], " hook claude-code " + event)
  }

  lemma OursExactly(command: string, event: string)
    ensures Ours(command, event) <==> NamesEvent(command, event)
  {
    MarkedExactly(command, " hook claude-code " + event);
    if Ours(command, event) {
      var before, after :| MarkedAt(command, " hook claude-code " + event, before, after);
      assert FirstNamed(command, event, before, after);
    }
    if NamesEvent(command, event) {
      var before, after :| FirstNamed(command, event, before, after) && (after == "" || after[0] == ' ');
      assert MarkedAt(command, " hook claude-code " + event, before, after);
    }
  }

  ghost predicate MarkedAt(s: string, marker: string, before: string, after: string) {
    && s == before + marker + after && (after == "" || after[0] == ' ')
    && forall i :: 0 <= i < |before| ==> !HasPrefix(s[i..], marker)
  }

  lemma {:induction false} MarkedExactly(s: string, marker: string)
    requires marker != ""
    ensures MarkedBy(s, marker) <==> exists before, after :: MarkedAt(s, marker, before, after)
    decreases |s|
  {
    hide MarkedAt;
    if HasPrefix(s, marker) {
      MarkedAtOnce(s, marker);
    } else if s != "" {
      MarkedExactly(s[1..], marker);
      MarkedLater(s, marker);
    } else {
      assert forall before, after :: !MarkedAt("", marker, before, after) by { NoneInEmpty(marker); }
    }
  }

  lemma NoneInEmpty(marker: string)
    requires marker != ""
    ensures forall before, after :: !MarkedAt("", marker, before, after)
  {
  }

  lemma MarkedAtOnce(s: string, marker: string)
    requires HasPrefix(s, marker)
    ensures MarkedBy(s, marker) <==> exists before, after :: MarkedAt(s, marker, before, after)
  {
    if MarkedBy(s, marker) {
      assert s == "" + marker + s[|marker|..];
      assert MarkedAt(s, marker, "", s[|marker|..]);
    }
    if before, after :| MarkedAt(s, marker, before, after) {
      assert s[0..] == s;
      assert before == "";
      assert s[|marker|..] == after;
    }
  }

  lemma MarkedLater(s: string, marker: string)
    requires s != "" && !HasPrefix(s, marker)
    ensures (exists before, after :: MarkedAt(s[1..], marker, before, after)) <==> exists before, after :: MarkedAt(s, marker, before, after)
  {
    if before, after :| MarkedAt(s[1..], marker, before, after) {
      assert s == ([s[0]] + before) + marker + after;
      forall i | 0 <= i < |[s[0]] + before| ensures !HasPrefix(s[i..], marker) {
        if i == 0 { assert s[0..] == s; } else { assert s[i..] == s[1..][i - 1..]; }
      }
      assert MarkedAt(s, marker, [s[0]] + before, after);
    }
    if before, after :| MarkedAt(s, marker, before, after) {
      NotAtOnce(s, marker, before, after);
      assert s[1..] == before[1..] + marker + after;
      assert forall i :: 0 <= i < |before| - 1 ==> s[1..][i..] == s[i + 1..];
      assert MarkedAt(s[1..], marker, before[1..], after);
    }
  }

  lemma NotAtOnce(s: string, marker: string, before: string, after: string)
    requires s == before + marker + after && !HasPrefix(s, marker)
    ensures before != ""
  {
    assert (marker + after)[..|marker|] == marker && "" + marker + after == marker + after;
  }

  // -------------------------------------------------------------- what is registered

  /** The events, the names the runtime has for them, and the tools they are registered for. */
  predicate Registers(event: string, runtime: string, matcher: string) {
    || (event == "session-start" && runtime == "SessionStart" && matcher == "")
    || (event == "user-prompt-submit" && runtime == "UserPromptSubmit" && matcher == "")
    || (event == "subagent-start" && runtime == "SubagentStart" && matcher == "")
    || (event == "pre-tool-use-bash" && runtime == "PreToolUse" && matcher == "Bash")
    || (event == "subagent-stop" && runtime == "SubagentStop" && matcher == "")
  }

  lemma RegistrationsAre(event: string, runtime: string, matcher: string)
    ensures Registers(event, runtime, matcher) <==> Reg(event, runtime, matcher) in REGISTRATIONS
    ensures |REGISTRATIONS| == 5
  {
    assert REGISTRATIONS[0] == Reg("session-start", "SessionStart", "") && REGISTRATIONS[1] == Reg("user-prompt-submit", "UserPromptSubmit", "");
    assert REGISTRATIONS[2] == Reg("subagent-start", "SubagentStart", "") && REGISTRATIONS[3] == Reg("pre-tool-use-bash", "PreToolUse", "Bash");
    assert REGISTRATIONS[4] == Reg("subagent-stop", "SubagentStop", "");
  }

  /** A group with one command, for one tool or for all. */
  function GroupFor(command: string, seconds: int, matcher: string): Json {
    var hooks := Arr([Obj(map["type" := Str("command"), "command" := Str(command), "timeout" := Num(Itoa(seconds))])]);
    if matcher == "" then Obj(map["hooks" := hooks]) else Obj(map["hooks" := hooks, "matcher" := Str(matcher)])
  }

  /** The time the runtime gives an event's hook: eight seconds on top of the upstream's for a composed one. */
  function SecondsFor(install: Install, event: string): int {
    install.timeoutSeconds + if event == "pre-tool-use-bash" && install.compose != "" then 8 else 0
  }

  /** The entry runs this command for at most this long. */
  predicate RunsFor(entry: Json, command: string, seconds: int) {
    && entry.Obj? && "command" in entry.members && entry.members["command"] == Str(command)
    && "timeout" in entry.members && entry.members["timeout"] == Num(Itoa(seconds))
  }

  ghost predicate AllUpToDate(entries: seq<Json>, w: Want) {
    forall i :: 0 <= i < |entries| && Ours(EntryCommand(entries[i]), w.event) ==>
      && entries[i].Obj? && "command" in entries[i].members && entries[i].members["command"] == Str(w.command)
      && "timeout" in entries[i].members && entries[i].members["timeout"] == Num(w.timeout)
  }

  ghost predicate GroupsUpToDate(groups: seq<Json>, w: Want) {
    forall i :: 0 <= i < |groups| ==> AllUpToDate(EntriesOf(groups[i]), w)
  }

  lemma {:induction false} EditedAreUpToDate(entries: seq<Json>, w: Want, found: bool)
    ensures AllUpToDate(EditEntries(entries, w, found).0, w)
  {
    hide Ours;
    if entries != [] {
      EditedAreUpToDate(entries[1..], w, found);
      EditedAreUpToDate(entries[1..], w, true);
      if Ours(EntryCommand(entries[0]), w.event) { OursIsObject(entries[0], w.event); }
    }
  }

  lemma {:induction false} EditedGroupsAreUpToDate(groups: seq<Json>, w: Want, found: bool)
    ensures GroupsUpToDate(EditGroups(groups, w, found).0, w)
  {
    hide AllUpToDate, EditEntries;
    if groups != [] {
      var kept := EditEntries(EntriesOf(groups[0]), w, found);
      EditedAreUpToDate(EntriesOf(groups[0]), w, found);
      EditedGroupsAreUpToDate(groups[1..], w, kept.1);
      NothingInNothing(w, found);
      EntriesOfWith(groups[0], kept.0);
    }
  }

  lemma NewIsUpToDate(w: Want)
    ensures GroupsUpToDate([NewGroup(w)], w)
  {
    assert EntriesOf(NewGroup(w))[0].members["command"] == Str(w.command);
  }

  lemma JoinedUpToDate(a: seq<Json>, b: seq<Json>, w: Want)
    requires GroupsUpToDate(a, w) && GroupsUpToDate(b, w)
    ensures GroupsUpToDate(a + b, w)
  {
    hide AllUpToDate;
  }

  /** The groups of an event before and after a registration. */
  function GroupsBefore(root: Object, runtime: string): seq<Json> {
    if "hooks" in root && root["hooks"].Obj? && runtime in root["hooks"].members && root["hooks"].members[runtime].Arr?
    then root["hooks"].members[runtime].items else []
  }

  /** What a registration writes for an event: a new group at the end where there was no entry of ours,
      and every entry of ours runs the command, within the time. */
  lemma RegisteredAs(install: Install, root: Object, event: string, runtime: string, matcher: string)
    requires Applied(install, root).1 && Registers(event, runtime, matcher)
    ensures var root1 := Applied(install, root).0;
            var groups := GroupsBefore(root1, runtime);
            && "hooks" in root1 && root1["hooks"].Obj? && runtime in root1["hooks"].members && root1["hooks"].members[runtime] == Arr(groups)
            && (OursInGroups(GroupsBefore(root, runtime), event) == 0 ==>
                  groups == GroupsBefore(root, runtime) + [GroupFor(install.Command(event), SecondsFor(install, event), matcher)])
            && (forall i, j :: 0 <= i < |groups| && 0 <= j < |EntriesOf(groups[i])| && NamesEvent(EntryCommand(EntriesOf(groups[i])[j]), event) ==>
                  RunsFor(EntriesOf(groups[i])[j], install.Command(event), SecondsFor(install, event)))
  {
    hide RegisterFrom, EditGroups, NewGroup, Ours, NamesEvent, Install.Command, AddRule;
    RegistrationsAre(event, runtime, matcher);
    var k: nat :| k < |REGISTRATIONS| && REGISTRATIONS[k] == Reg(event, runtime, matcher);
    var w := WantOf(install, REGISTRATIONS[k]);
    var h0 := if "hooks" in root then root["hooks"].members else map[];
    var before := GroupsAt(h0, runtime);
    RegisterFromAt(install, h0);
    AddRuleTwice(root["hooks" := Obj(RegisterFrom(install, h0, 0).0)]);
    var groups := EventGroups(before, w);
    EditedGroupsAreUpToDate(before, w, false);
    NewIsUpToDate(w);
    JoinedUpToDate(EditGroups(before, w, false).0, [NewGroup(w)], w);
    NewGroupIs(install, REGISTRATIONS[k]);
    if OursInGroups(before, event) == 0 { NoneToEdit(before, w); }
    assert GroupsUpToDate(groups, w) by { assert EditGroups(before, w, false).0 + [] == EditGroups(before, w, false).0; }
    forall i, j | 0 <= i < |groups| && 0 <= j < |EntriesOf(groups[i])| && NamesEvent(EntryCommand(EntriesOf(groups[i])[j]), event)
      ensures RunsFor(EntriesOf(groups[i])[j], install.Command(event), SecondsFor(install, event))
    {
      OursExactly(EntryCommand(EntriesOf(groups[i])[j]), event);
      assert AllUpToDate(EntriesOf(groups[i]), w);
    }
  }

  lemma NewGroupIs(install: Install, r: Reg)
    ensures NewGroup(WantOf(install, r)) == GroupFor(install.Command(r.event), SecondsFor(install, r.event), r.matcher)
    ensures WantOf(install, r).timeout == Itoa(SecondsFor(install, r.event))
  {
    hide Install.Command, Itoa;
  }

  /** The rule is added behind the others, once. */
  lemma RuleAdded(install: Install, root: Object)
    requires Applied(install, root).1
    ensures RuleAddedTo(root, Applied(install, root).0)
  {
    hide RegisterFrom, RuleAddedTo, AddRule;
    var h := RegisterFrom(install, if "hooks" in root then root["hooks"].members else map[], 0).0;
    AddRuleIs(root, Obj(h));
  }

  ghost predicate RuleAddedTo(root: Object, root1: Object) {
    var rule := Str("Bash(export CLAGENTIC_IDENTITY_DIR=*)");
    && ("permissions" in root ==> root["permissions"].Obj? && ("allow" in root["permissions"].members ==> root["permissions"].members["allow"].Arr?))
    && var before := if "permissions" in root then root["permissions"].members else map[];
       var allow := if "allow" in before then before["allow"].items else [];
       "permissions" in root1 && root1["permissions"] == Obj(before["allow" := Arr(allow + if rule in allow then [] else [rule])])
  }

  lemma AddRuleIs(root: Object, hooks: Json)
    requires AddRule(root["hooks" := hooks]).1
    ensures RuleAddedTo(root, AddRule(root["hooks" := hooks]).0)
  {
    var root2 := root["hooks" := hooks];
    assert "permissions" in root2 <==> "permissions" in root;
    if "permissions" in root && "allow" in root["permissions"].members {
      var p := root["permissions"].members;
      assert p["allow" := Arr(p["allow"].items)] == p;
      assert p["allow"].items + [] == p["allow"].items;
    } else {
      assert [] + [Str(ALLOW_RULE)] == [Str(ALLOW_RULE)];
    }
  }

  /** An installation that can be registered. */
  lemma ValidMeans(install: Install)
    ensures install.Valid() <==>
      && install.binary != "" && install.binary[0] == '/' && install.socket != "" && install.socket[0] == '/'
      && install.stateDir != "" && install.stateDir[0] == '/' && (install.compose == "" || install.compose[0] == '/')
      && install.origin != "human" && install.mode in {"warn", "enforce"} && install.timeoutSeconds > 0
  {
    OpensWithSlash(install.binary);
    OpensWithSlash(install.socket);
    OpensWithSlash(install.stateDir);
    OpensWithSlash(install.compose);
  }

  lemma OpensWithSlash(s: string)
    ensures HasPrefix(s, "/") <==> s != "" && s[0] == '/'
  {
    if s != "" { assert s[..1] == [s[0]]; }
  }

  // -------------------------------------------------------------- what a removal takes away

  /** The command is some event's entry of ours. */
  ghost predicate NamesAnyEvent(command: string) {
    exists event, runtime, matcher :: Registers(event, runtime, matcher) && NamesEvent(command, event)
  }

  lemma AnyOursExactly(command: string)
    ensures AnyOurs(command) <==> NamesAnyEvent(command)
  {
    hide Ours, NamesEvent, Registers;
    forall event, runtime, matcher ensures Registers(event, runtime, matcher) <==> Reg(event, runtime, matcher) in REGISTRATIONS {
      RegistrationsAre(event, runtime, matcher);
    }
    forall event ensures Ours(command, event) <==> NamesEvent(command, event) { OursExactly(command, event); }
    if AnyOurs(command) {
      var k :| 0 <= k < |REGISTRATIONS| && Ours(command, REGISTRATIONS[k].event);
      var r := REGISTRATIONS[k];
      assert Reg(r.event, r.runtime, r.matcher) in REGISTRATIONS;
    }
    if NamesAnyEvent(command) {
      var event, runtime, matcher :| Registers(event, runtime, matcher) && NamesEvent(command, event);
      var k :| 0 <= k < |REGISTRATIONS| && REGISTRATIONS[k] == Reg(event, runtime, matcher);
      assert Ours(command, REGISTRATIONS[k].event);
    }
  }

  lemma InFront(first: seq<Json>, a: seq<Json>, b: seq<Json>, c: seq<Json>)
    ensures first + (a + b + c) == first + a + b + c
  {
  }

  /** A removal takes each entry on its own: one of ours goes, any other stays where it stands. */
  lemma {:induction false} StripsEachEntry(a: seq<Json>, entry: Json, b: seq<Json>)
    ensures StripEntries(a + [entry] + b)
         == StripEntries(a) + (if NamesAnyEvent(EntryCommand(entry)) then [] else [entry]) + StripEntries(b)
    ensures StripEntries([]) == []
    decreases |a|
  {
    hide AnyOurs, NamesAnyEvent;
    var all := a + [entry] + b;
    if a == [] {
      AnyOursExactly(EntryCommand(entry));
      assert all == [entry] + b && all[1..] == b;
    } else {
      assert all[0] == a[0] && all[1..] == a[1..] + [entry] + b;
      StripsEachEntry(a[1..], entry, b);
      var first := if AnyOurs(EntryCommand(a[0])) then [] else [a[0]];
      assert StripEntries(all) == first + StripEntries(all[1..]) && StripEntries(a) == first + StripEntries(a[1..]);
      InFront(first, StripEntries(a[1..]), if NamesAnyEvent(EntryCommand(entry)) then [] else [entry], StripEntries(b));
    }
  }

  /** A group goes when it had entries and all of them were ours. */
  ghost predicate Emptied(group: Json) {
    EntriesOf(group) != [] && forall i :: 0 <= i < |EntriesOf(group)| ==> NamesAnyEvent(EntryCommand(EntriesOf(group)[i]))
  }

  lemma {:induction false} NothingLeft(entries: seq<Json>)
    ensures StripEntries(entries) == [] <==> forall i :: 0 <= i < |entries| ==> NamesAnyEvent(EntryCommand(entries[i]))
    decreases |entries|
  {
    hide AnyOurs, NamesAnyEvent;
    if entries != [] {
      NothingLeft(entries[1..]);
      AnyOursExactly(EntryCommand(entries[0]));
      assert forall i :: 0 <= i < |entries| - 1 ==> entries[1..][i] == entries[i + 1];
    }
  }

  /** It takes each group on its own too: any other stays where it stands, without the entries of ours. */
  lemma StripsEachGroup(a: seq<Json>, group: Json, b: seq<Json>)
    ensures StripGroups(a + [group] + b)
         == StripGroups(a) + (if Emptied(group) then [] else [WithEntries(group, StripEntries(EntriesOf(group)))]) + StripGroups(b)
    ensures StripGroups([]) == []
  {
    hide StripEntries, NamesAnyEvent, EntriesOf, WithEntries;
    StripAppend(a + [group], b);
    StripAppend(a, [group]);
    StripCons(group, []);
    assert [group] + [] == [group];
    NothingLeft(EntriesOf(group));
  }

  /** After a removal an event has the groups that are left of it, or is gone when none is. */
  lemma RemovedFrom(root: Object, event: string, runtime: string, matcher: string)
    requires Removed(root).1 && Registers(event, runtime, matcher) && "hooks" in root && root["hooks"].Obj? && runtime in root["hooks"].members
    ensures root["hooks"].members[runtime].Arr?
    ensures var before := root["hooks"].members[runtime].items;
            var after := if "hooks" in Removed(root).0 && Removed(root).0["hooks"].Obj? then Removed(root).0["hooks"].members else map[];
            if before != [] && StripGroups(before) == [] then runtime !in after
            else runtime in after && after[runtime] == Arr(StripGroups(before))
  {
    hide RemoveFrom, StripGroups, RemoveRule;
    RegistrationsAre(event, runtime, matcher);
    var k: nat :| k < |REGISTRATIONS| && REGISTRATIONS[k] == Reg(event, runtime, matcher);
    RemoveRuleLeavesHooks(root);
    var h0 := root["hooks"].members;
    RemoveNeedsArrays(h0, 0, k);
    RemoveAt(h0, 0, k);
  }

  lemma {:induction false} RemoveNeedsArrays(h: Object, k: nat, j: nat)
    requires k <= j < |REGISTRATIONS| && RemoveFrom(h, k).1
    ensures REGISTRATIONS[j].runtime in h ==> h[REGISTRATIONS[j].runtime].Arr?
    decreases |REGISTRATIONS| - k
  {
    hide StripGroups;
    if k < j {
      RuntimesDiffer(k, j);
      var r := REGISTRATIONS[k].runtime;
      var h' := if r !in h then h
                else if StripGroups(h[r].items) == [] && h[r].items != [] then Drop(h, r)
                else h[r := Arr(StripGroups(h[r].items))];
      RemoveNeedsArrays(h', k + 1, j);
    }
  }

  /** Settings that can be edited: wherever an edit looks for an object or an array there is one or nothing. */
  ghost predicate CanBeEdited(root: Object) {
    && ("hooks" in root ==> root["hooks"].Obj? && forall event, runtime, matcher ::
          Registers(event, runtime, matcher) && runtime in root["hooks"].members ==> root["hooks"].members[runtime].Arr?)
    && ("permissions" in root ==> root["permissions"].Obj? && ("allow" in root["permissions"].members ==> root["permissions"].members["allow"].Arr?))
  }

  /** A removal succeeds exactly on such settings, and a registration on such settings with an installation
      that is valid. */
  lemma SucceedsExactly(install: Install, root: Object)
    ensures Removed(root).1 <==> CanBeEdited(root)
    ensures Applied(install, root).1 <==> install.Valid() && CanBeEdited(root)
  {
    hide Registers, RemoveFrom, Install.Valid, Applied;
    AppliesExactly(install, root);
    RemoveRuleLeavesHooks(root);
    assert RemoveRule(root).1 <==> ("permissions" in root ==> root["permissions"].Obj? && ("allow" in root["permissions"].members ==> root["permissions"].members["allow"].Arr?));
    if "hooks" in root && root["hooks"].Obj? { ArraysForEvents(root["hooks"].members); }
  }

  lemma ArraysForEvents(h: Object)
    ensures RemoveFrom(h, 0).1 <==> EventsAreArrays(h)
    ensures EventsAreArrays(h) <==> forall event, runtime, matcher :: Registers(event, runtime, matcher) && runtime in h ==> h[runtime].Arr?
  {
    hide Registers, RemoveFrom;
    forall event, runtime, matcher ensures Registers(event, runtime, matcher) <==> Reg(event, runtime, matcher) in REGISTRATIONS {
      RegistrationsAre(event, runtime, matcher);
    }
    if RemoveFrom(h, 0).1 { forall k | 0 <= k < |REGISTRATIONS| ensures REGISTRATIONS[k].runtime in h ==> h[REGISTRATIONS[k].runtime].Arr? { RemoveNeedsArrays(h, 0, k); } }
    if EventsAreArrays(h) { RemoveSucceeds(h, 0); }
    forall k | 0 <= k < |REGISTRATIONS| ensures Registers(REGISTRATIONS[k].event, REGISTRATIONS[k].runtime, REGISTRATIONS[k].matcher) {
      assert REGISTRATIONS[k] == Reg(REGISTRATIONS[k].event, REGISTRATIONS[k].runtime, REGISTRATIONS[k].matcher);
    }
  }

  /** What is no event of ours and no hook or permission at all is left alone. */
  lemma RemovalKeeps(root: Object, m: string)
    requires Removed(root).1
    ensures m != "hooks" && m != "permissions" ==> (m in Removed(root).0 <==> m in root) && (m in root ==> Removed(root).0[m] == root[m])
    ensures "hooks" in root && root["hooks"].Obj? && (forall event, matcher :: !Registers(event, m, matcher)) && m in root["hooks"].members ==>
              "hooks" in Removed(root).0 && Removed(root).0["hooks"].Obj?
              && m in Removed(root).0["hooks"].members && Removed(root).0["hooks"].members[m] == root["hooks"].members[m]
  {
    hide RemoveFrom, StripGroups;
    RemoveRuleLeavesHooks(root);
    if "hooks" in root && root["hooks"].Obj? && forall event, matcher :: !Registers(event, m, matcher) {
      forall k | 0 <= k < |REGISTRATIONS| ensures REGISTRATIONS[k].runtime != m {
        var r := REGISTRATIONS[k];
        RegistrationsAre(r.event, r.runtime, r.matcher);
        assert Reg(r.event, r.runtime, r.matcher) in REGISTRATIONS;
      }
      RemoveKeeps(root["hooks"].members, 0, m);
    }
  }

  /** Every copy of the rule goes and every other rule stays where it stands; what that empties goes too. */
  lemma {:induction false} RulesWithout(a: seq<Json>, rule: Json, b: seq<Json>)
    ensures WithoutRule(a + [rule] + b) == WithoutRule(a) + (if rule == Str("Bash(export CLAGENTIC_IDENTITY_DIR=*)") then [] else [rule]) + WithoutRule(b)
    ensures WithoutRule([]) == []
    decreases |a|
  {
    var all := a + [rule] + b;
    if a == [] {
      assert all == [rule] + b && all[1..] == b;
    } else {
      assert all[0] == a[0] && all[1..] == a[1..] + [rule] + b;
      RulesWithout(a[1..], rule, b);
      var first := if a[0] == Str(ALLOW_RULE) then [] else [a[0]];
      assert WithoutRule(all) == first + WithoutRule(all[1..]) && WithoutRule(a) == first + WithoutRule(a[1..]);
      InFront(first, WithoutRule(a[1..]), if rule == Str(ALLOW_RULE) then [] else [rule], WithoutRule(b));
    }
  }

  lemma {:induction false} WithoutIsShorter(allow: seq<Json>)
    ensures |WithoutRule(allow)| <= |allow|
    ensures |WithoutRule(allow)| == |allow| <==> Str("Bash(export CLAGENTIC_IDENTITY_DIR=*)") !in allow
    ensures |WithoutRule(allow)| == |allow| ==> WithoutRule(allow) == allow
    decreases |allow|
  {
    if allow != [] {
      WithoutIsShorter(allow[1..]);
      assert allow == [allow[0]] + allow[1..];
    }
  }

  lemma RuleRemoved(root: Object)
    requires Removed(root).1
    ensures var rule := Str("Bash(export CLAGENTIC_IDENTITY_DIR=*)");
            if "permissions" in root && root["permissions"].Obj? && "allow" in root["permissions"].members
               && root["permissions"].members["allow"].Arr? && rule in root["permissions"].members["allow"].items
            then RuleTakenFrom(root["permissions"].members, Removed(root).0)
            else ("permissions" in Removed(root).0 <==> "permissions" in root)
                 && ("permissions" in root ==> Removed(root).0["permissions"] == root["permissions"])
  {
    hide RemoveFrom, WithoutRule;
    RemoveRuleLeavesHooks(root);
    if "permissions" in root && root["permissions"].Obj? && "allow" in root["permissions"].members && root["permissions"].members["allow"].Arr? {
      WithoutIsShorter(root["permissions"].members["allow"].items);
    }
  }

  /** The permissions `p` without the rule, without a list that this empties, and gone with their last member. */
  ghost predicate RuleTakenFrom(p: Object, root1: Object)
    requires "allow" in p && p["allow"].Arr?
  {
    var kept := WithoutRule(p["allow"].items);
    var p1 := if kept == [] then Drop(p, "allow") else p["allow" := Arr(kept)];
    if p1 == map[] then "permissions" !in root1 else "permissions" in root1 && root1["permissions"] == Obj(p1)
  }
}
