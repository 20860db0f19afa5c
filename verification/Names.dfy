/** The name patterns of the identity contract, and the runtime id derived from a process. */
module Names {
  import opened Text

  predicate NameChar(c: char) {
    Letter(c) || Digit(c) || c == '.' || c == '_' || c == '-'
  }

  /** ^[A-Za-z0-9._-]{1,128}$ */
  predicate Name(s: string) {
    1 <= |s| <= 128 && forall i :: 0 <= i < |s| ==> NameChar(s[i])
  }

  /** ^[A-Za-z0-9][A-Za-z0-9._-]{0,127}$ */
  predicate SafeName(s: string) {
    Name(s) && (Letter(s[0]) || Digit(s[0]))
  }

  /** ^[a-z][a-z0-9_-]{0,63}$ */
  predicate RoleName(s: string) {
    && 1 <= |s| <= 64
    && 'a' <= s[0] <= 'z'
    && forall i :: 1 <= i < |s| ==> 'a' <= s[i] <= 'z' || Digit(s[i]) || s[i] == '_' || s[i] == '-'
  }

  /** ^[A-Za-z0-9._+-]{1,64}$ */
  predicate Version(s: string) {
    1 <= |s| <= 64 && forall i :: 0 <= i < |s| ==> NameChar(s[i]) || s[i] == '+'
  }

  /** <kind>:<name> */
  predicate ActorOf(s: string, kind: string) {
    HasPrefix(s, kind + ":") && Name(s[|kind| + 1..])
  }

  /** An actor that may stand in an act chain: an agent or a runtime. */
  predicate ActorSub(s: string) {
    ActorOf(s, "agent") || ActorOf(s, "runtime")
  }

  lemma PrefixedName(kind: string, name: string)
    requires Name(name)
    ensures ActorOf(kind + ":" + name, kind)
  {
    assert (kind + ":" + name)[..|kind| + 1] == kind + ":";
    assert (kind + ":" + name)[|kind| + 1..] == name;
  }

  // -------------------------------------------------------------- the runtime id

  const INTERPRETERS: set<string> :=
    {"node", "nodejs", "bun", "deno", "python", "ruby", "perl", "php", "java", "bash", "sh", "dash", "zsh", "env"}

  predicate Interpreter(name: string) {
    || name in INTERPRETERS
    || (HasPrefix(name, "python") && |name| > 6 && forall i :: 6 <= i < |name| ==> Digit(name[i]) || name[i] == '.')
  }

  /** filepath.Base */
  function Base(path: string): string {
    if path == "" then "."
    else
      var trimmed := TrimRight(path, '/');
      if trimmed == "" then "/" else AfterLast(trimmed, '/')
  }

  /** filepath.Ext: from the last dot of the final element on. */
  function Ext(path: string): string {
    if path == "" || path[|path| - 1] == '/' then ""
    else if path[|path| - 1] == '.' then "."
    else
      var e := Ext(path[..|path| - 1]);
      if e == "" then "" else e + [path[|path| - 1]]
  }

  /** Each character outside the name characters is replaced by one dash, however many bytes it has. */
  function Sanitize(s: string): (r: string)
    ensures |r| <= |s| && forall i :: 0 <= i < |r| ==> NameChar(r[i])
    decreases |s|
  {
    if s == "" then ""
    else if NameChar(s[0]) then [s[0]] + Sanitize(s[1..])
    else "-" + Sanitize(s[RuneLen(s)..])
  }

  /** The base name of the executable or, for an interpreter, of its first script argument without
      its extension, made safe and cut to length. */
  method RuntimeId(exe: string, args: seq<string>) returns (id: Option<string>)
    ensures id == RuntimeIdOf(exe, args)
  {
    hide Base, Ext, Sanitize, Interpreter, UsableName, TrimSuffix;
    var name := Base(exe);
    if Interpreter(name) {
      var i := if |args| < 1 then |args| else 1;
      while i < |args|
        invariant i <= |args| && (|args| > 0 ==> 1 <= i)
        invariant forall j :: 1 <= j < i ==> args[j] == "" || HasPrefix(args[j], "-")
      {
        if args[i] == "" || HasPrefix(args[i], "-") {
          i := i + 1;
          continue;
        }
        break;
      }
      if i < |args| {
        assert FirstScript(args, i);
        name := TrimSuffix(Base(args[i]), Ext(args[i]));
      }
    }
    name := Sanitize(name);
    if |name| > 128 { name := name[..128]; }
    if !UsableName(name) { return None; }
    return Some(name);
  }

  /** The runtime id of a process, when one can be derived. */
  ghost function RuntimeIdOf(exe: string, args: seq<string>): (id: Option<string>)
    ensures id.Some? ==> Name(id.value)
  {
    if Interpreter(Base(exe)) && exists k :: FirstScript(args, k) then
      var k :| FirstScript(args, k);
      Usable(Script(args[k]))
    else Usable(Base(exe))
  }

  /** The name a path gives, when it can be one. */
  function Usable(path: string): Option<string> {
    var name := Cut(Sanitize(path));
    if UsableName(name) then Some(name) else None
  }

  function Script(arg: string): string {
    TrimSuffix(Base(arg), Ext(arg))
  }

  function Cut(s: string): string {
    if |s| > 128 then s[..128] else s
  }

  predicate UsableName(s: string) {
    Name(s) && exists i :: 0 <= i < |s| && (Letter(s[i]) || Digit(s[i]))
  }

  /** The first argument that is neither empty nor an option. */
  ghost predicate FirstScript(args: seq<string>, k: int) {
    && 1 <= k < |args| && args[k] != "" && !HasPrefix(args[k], "-")
    && forall j :: 1 <= j < k ==> args[j] == "" || HasPrefix(args[j], "-")
  }

  predicate Distinct(items: seq<string>) {
    forall i, j :: 0 <= i < j < |items| ==> items[i] != items[j]
  }

  /** The items of a list, each where it first stands. */
  function FirstOf(listed: seq<string>): seq<string> {
    if listed == [] then []
    else
      var init, last := listed[..|listed| - 1], listed[|listed| - 1];
      if last in init then FirstOf(init) else FirstOf(init) + [last]
  }

  lemma {:induction false} FirstOfIsDistinct(listed: seq<string>)
    ensures Distinct(FirstOf(listed)) && forall r :: r in FirstOf(listed) <==> r in listed
  {
    if listed != [] {
      FirstOfIsDistinct(listed[..|listed| - 1]);
      assert listed == listed[..|listed| - 1] + [listed[|listed| - 1]];
    }
  }

  predicate AllRoleNames(listed: seq<string>) {
    forall i :: 0 <= i < |listed| ==> RoleName(listed[i])
  }

  lemma FirstOfNext(listed: seq<string>, k: nat)
    requires k < |listed|
    ensures FirstOf(listed[..k + 1]) == if listed[k] in listed[..k] then FirstOf(listed[..k]) else FirstOf(listed[..k]) + [listed[k]]
  {
    assert listed[..k + 1][..k] == listed[..k];
  }

  /** The roles of a definition file: refused when one is not a role name, duplicates dropped. */
  method DefinitionRoles(listed: seq<string>) returns (roles: Option<seq<string>>)
    ensures roles == if AllRoleNames(listed) then Some(FirstOf(listed)) else None
    ensures roles.Some? ==> AllRoleNames(roles.value) && Distinct(roles.value)
  {
    hide RoleName, FirstOf, Distinct;
    var seen: set<string> := {};
    var kept: seq<string> := [];
    assert FirstOf(listed[..0]) == [] by { NoneFirst(listed); }
    for k := 0 to |listed|
      invariant forall i :: 0 <= i < k ==> RoleName(listed[i])
      invariant kept == FirstOf(listed[..k])
      invariant forall r :: r in seen <==> r in listed[..k]
    {
      if !RoleName(listed[k]) { return None; }
      FirstOfNext(listed, k);
      assert listed[..k + 1] == listed[..k] + [listed[k]];
      if listed[k] !in seen {
        seen := seen + {listed[k]};
        kept := kept + [listed[k]];
      }
    }
    assert listed[..|listed|] == listed;
    FirstOfIsDistinct(listed);
    AllStayNames(listed);
    return Some(kept);
  }

  lemma AllStayNames(listed: seq<string>)
    requires AllRoleNames(listed)
    ensures AllRoleNames(FirstOf(listed))
  {
    hide RoleName, FirstOf;
    FirstOfIsDistinct(listed);
    forall i | 0 <= i < |FirstOf(listed)| ensures RoleName(FirstOf(listed)[i]) {
      assert FirstOf(listed)[i] in listed;
    }
  }

  lemma NoneFirst(listed: seq<string>)
    ensures FirstOf(listed[..0]) == []
  {
  }
}
