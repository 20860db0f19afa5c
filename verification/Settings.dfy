/** Registering the hooks in a runtime's settings and taking them out again. Functions give the
    edit of each part of the tree; the class makes the edits in place. */
module Settings {
  import opened Text
  import opened Decimal
  import opened Registration
  import opened Json

  datatype Reg = Reg(event: string, runtime: string, matcher: string)

  const REGISTRATIONS: seq<Reg> := [
    Reg(SESSION_START, "SessionStart", ""),
    Reg(USER_PROMPT_SUBMIT, "UserPromptSubmit", ""),
    Reg(SUBAGENT_START, "SubagentStart", ""),
    Reg(PRE_TOOL_USE_BASH, "PreToolUse", "Bash"),
    Reg(SUBAGENT_STOP, "SubagentStop", "")]

  const ALLOW_RULE := "Bash(export CLAGENTIC_IDENTITY_DIR=*)"

  // -------------------------------------------------------------- whose entry is it

  function Marker(event: string): string {
    " hook claude-code " + event
  }

  /** The first occurrence of `marker` in `s` ends `s` or is followed by a blank. */
  predicate MarkedBy(s: string, marker: string) {
    if HasPrefix(s, marker) then |s| == |marker| || s[|marker|] == ' '
    else s != "" && MarkedBy(s[1..], marker)
  }

  predicate Ours(command: string, event: string) {
    MarkedBy(command, Marker(event))
  }

  predicate AnyOurs(command: string) {
    exists k :: 0 <= k < |REGISTRATIONS| && Ours(command, REGISTRATIONS[k].event)
  }

  /** The command of a hook entry, or "" when the entry has none. */
  function EntryCommand(entry: Json): string {
    if entry.Obj? && "command" in entry.members && entry.members["command"].Str? then entry.members["command"].s else ""
  }

  /** The hook entries of a group: none when it is no object or its hooks are no array. */
  function EntriesOf(group: Json): seq<Json> {
    if group.Obj? && "hooks" in group.members && group.members["hooks"].Arr? then group.members["hooks"].items else []
  }

  function WithEntries(group: Json, entries: seq<Json>): Json {
    if group.Obj? && "hooks" in group.members && group.members["hooks"].Arr?
    then Obj(group.members["hooks" := Arr(entries)]) else group
  }

  // -------------------------------------------------------------- registering

  /** What one event is registered with. */
  datatype Want = Want(event: string, command: string, timeout: string, matcher: string)

  function WantOf(install: Install, r: Reg): Want {
    Want(r.event, install.Command(r.event), Itoa(install.TimeoutFor(r.event)), r.matcher)
  }

  function Updated(entry: Json, w: Want): Json {
    if entry.Obj? then Obj(entry.members["command" := Str(w.command)]["timeout" := Num(w.timeout)]) else entry
  }

  /** The first entry of ours is brought up to date, later ones are dropped, others are kept. */
  function EditEntries(entries: seq<Json>, w: Want, found: bool): (seq<Json>, bool) {
    if entries == [] then ([], found)
    else if !Ours(EntryCommand(entries[0]), w.event) then
      var rest := EditEntries(entries[1..], w, found);
      ([entries[0]] + rest.0, rest.1)
    else
      var rest := EditEntries(entries[1..], w, true);
      ((if found then [] else [Updated(entries[0], w)]) + rest.0, rest.1)
  }

  /** A group that dropping duplicates emptied is dropped. */
  function EditGroups(groups: seq<Json>, w: Want, found: bool): (seq<Json>, bool) {
    if groups == [] then ([], found)
    else
      var kept := EditEntries(EntriesOf(groups[0]), w, found);
      var rest := EditGroups(groups[1..], w, kept.1);
      ((if EntriesOf(groups[0]) != [] && kept.0 == [] then [] else [WithEntries(groups[0], kept.0)]) + rest.0, rest.1)
  }

  function NewGroup(w: Want): Json {
    var entry := Obj(map["type" := Str("command"), "command" := Str(w.command), "timeout" := Num(w.timeout)]);
    if w.matcher == "" then Obj(map["hooks" := Arr([entry])])
    else Obj(map["hooks" := Arr([entry]), "matcher" := Str(w.matcher)])
  }

  function EventGroups(groups: seq<Json>, w: Want): seq<Json> {
    var edited := EditGroups(groups, w, false);
    edited.0 + if edited.1 then [] else [NewGroup(w)]
  }

  function GroupsAt(h: Object, runtime: string): seq<Json> {
    if runtime in h && h[runtime].Arr? then h[runtime].items else []
  }

  /** Every event from the `k`-th on; an event whose value is no array stops the edit. */
  function RegisterFrom(install: Install, h: Object, k: nat): (Object, bool)
    requires k <= |REGISTRATIONS|
    decreases |REGISTRATIONS| - k
  {
    if k == |REGISTRATIONS| then (h, true)
    else
      var r := REGISTRATIONS[k];
      if r.runtime in h && !h[r.runtime].Arr? then (h, false)
      else RegisterFrom(install, h[r.runtime := Arr(EventGroups(GroupsAt(h, r.runtime), WantOf(install, r)))], k + 1)
  }

  /** The settings after permissions.allow holds the rule, and whether that could be done. */
  function AddRule(root: Object): (Object, bool) {
    if "permissions" !in root then (root["permissions" := Obj(map["allow" := Arr([Str(ALLOW_RULE)])])], true)
    else if !root["permissions"].Obj? then (root, false)
    else
      var p := root["permissions"].members;
      if "allow" !in p then (root["permissions" := Obj(p["allow" := Arr([Str(ALLOW_RULE)])])], true)
      else if !p["allow"].Arr? then (root, false)
      else if Str(ALLOW_RULE) in p["allow"].items then (root, true)
      else (root["permissions" := Obj(p["allow" := Arr(p["allow"].items + [Str(ALLOW_RULE)])])], true)
  }

  /** The whole registration: the settings it leaves and whether it succeeded. */
  function Applied(install: Install, root: Object): (Object, bool) {
    if !install.Valid() || ("hooks" in root && !root["hooks"].Obj?) then (root, false)
    else
      var h := RegisterFrom(install, if "hooks" in root then root["hooks"].members else map[], 0);
      var root' := root["hooks" := Obj(h.0)];
      if !h.1 then (root', false) else AddRule(root')
  }

  // -------------------------------------------------------------- removing

  function StripEntries(entries: seq<Json>): seq<Json> {
    if entries == [] then []
    else (if AnyOurs(EntryCommand(entries[0])) then [] else [entries[0]]) + StripEntries(entries[1..])
  }

  function StripGroups(groups: seq<Json>): seq<Json> {
    if groups == [] then []
    else
      var kept := StripEntries(EntriesOf(groups[0]));
      (if EntriesOf(groups[0]) != [] && kept == [] then [] else [WithEntries(groups[0], kept)]) + StripGroups(groups[1..])
  }

  function Drop(m: Object, key: string): Object {
    map k | k in m && k != key :: m[k]
  }

  function RemoveFrom(h: Object, k: nat): (Object, bool)
    requires k <= |REGISTRATIONS|
    decreases |REGISTRATIONS| - k
  {
    if k == |REGISTRATIONS| then (h, true)
    else
      var r := REGISTRATIONS[k].runtime;
      if r !in h then RemoveFrom(h, k + 1)
      else if !h[r].Arr? then (h, false)
      else
        var kept := StripGroups(h[r].items);
        RemoveFrom(if kept == [] && h[r].items != [] then Drop(h, r) else h[r := Arr(kept)], k + 1)
  }

  function WithoutRule(allow: seq<Json>): seq<Json> {
    if allow == [] then [] else (if allow[0] == Str(ALLOW_RULE) then [] else [allow[0]]) + WithoutRule(allow[1..])
  }

  function RemoveRule(root: Object): (Object, bool) {
    if "permissions" !in root then (root, true)
    else if !root["permissions"].Obj? then (root, false)
    else
      var p := root["permissions"].members;
      if "allow" !in p then (root, true)
      else if !p["allow"].Arr? then (root, false)
      else
        var kept := WithoutRule(p["allow"].items);
        if |kept| == |p["allow"].items| then (root, true)
        else
          var p' := if kept == [] then Drop(p, "allow") else p["allow" := Arr(kept)];
          (if p' == map[] then Drop(root, "permissions") else root["permissions" := Obj(p')], true)
  }

  function Removed(root: Object): (Object, bool) {
    var root1 := RemoveRule(root);
    if !root1.1 || "hooks" !in root1.0 then root1
    else if !root1.0["hooks"].Obj? then (root1.0, false)
    else
      var h0 := root1.0["hooks"].members;
      var h := RemoveFrom(h0, 0);
      (if h.1 && h.0 != h0 && h.0 == map[] then Drop(root1.0, "hooks") else root1.0["hooks" := Obj(h.0)], h.1)
  }
}
