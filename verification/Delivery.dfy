/** The directory an assertion is delivered in: naming it to a shell, and removing it. */
module Delivery {
  import opened Text
  import opened Paths
  import Names
  import SpawnDirs
  import Registration

  const EXPORT_PREFIX := "export CLAGENTIC_IDENTITY_DIR="

  predicate PathChar(c: char) {
    Letter(c) || Digit(c) || c == '.' || c == '_' || c == '/' || c == '+' || c == '-'
  }

  /** A plain absolute path: ^/[A-Za-z0-9._/+-]+$, and clean. */
  predicate Deliverable(dir: string) {
    |dir| >= 2 && dir[0] == '/' && (forall i :: 1 <= i < |dir| ==> PathChar(dir[i])) && Clean(dir) == dir
  }

  function ExportStatement(dir: string): Option<string> {
    if Deliverable(dir) then Some(EXPORT_PREFIX + dir + "; ") else None
  }

  function TrimBlanks(s: string): string {
    if s != "" && (s[0] == ' ' || s[0] == '\t') then TrimBlanks(s[1..]) else s
  }

  predicate AlreadyDelivers(command: string) {
    HasPrefix(TrimBlanks(command), EXPORT_PREFIX)
  }

  /** A delivered command is recognised as one, so it is never prefixed twice. */
  lemma DeliveredIsRecognised(dir: string, command: string)
    requires Deliverable(dir)
    ensures AlreadyDelivers(ExportStatement(dir).value + command)
  {
    var s := ExportStatement(dir).value + command;
    assert s[0] == EXPORT_PREFIX[0] == 'e';
    assert TrimBlanks(s) == s;
    assert s[..|EXPORT_PREFIX|] == EXPORT_PREFIX;
  }

  /** A shell splits the statement into export and one assignment that names the directory as it is. */
  lemma StatementReads(dir: string)
    requires Deliverable(dir)
    ensures Registration.ShellWords("export CLAGENTIC_IDENTITY_DIR=" + dir, None, false) == Some(["export", "CLAGENTIC_IDENTITY_DIR=" + dir])
  {
    hide Registration.ShellWords, Registration.PlainChar, Clean;
    var assignment := "CLAGENTIC_IDENTITY_DIR=" + dir;
    var words := ["export", assignment];
    StatementIsPlain(dir);
    Registration.JoinRoundTrip(words);
    assert Registration.QuoteAll(words) == words;
    assert Registration.Join(words) == "export" + (" " + assignment) by {
      assert words[1..] == [assignment];
      assert Registration.Join([assignment]) == assignment;
    }
    assert "export CLAGENTIC_IDENTITY_DIR=" + dir == "export" + (" " + assignment) by { ExportSplits(dir); }
  }

  lemma ExportSplits(dir: string)
    ensures "export CLAGENTIC_IDENTITY_DIR=" + dir == "export" + (" " + ("CLAGENTIC_IDENTITY_DIR=" + dir))
  {
    assert "export CLAGENTIC_IDENTITY_DIR=" == "export" + " " + "CLAGENTIC_IDENTITY_DIR=";
  }

  /** No character of the statement means anything to the shell. */
  lemma StatementIsPlain(dir: string)
    requires Deliverable(dir)
    ensures Registration.PlainArg("export") && Registration.PlainArg("CLAGENTIC_IDENTITY_DIR=" + dir)
  {
    hide Clean;
    VariableIsPlain();
    var name := "CLAGENTIC_IDENTITY_DIR=";
    forall i | 0 <= i < |name + dir| ensures Registration.PlainChar((name + dir)[i]) {
      if i < |name| { assert (name + dir)[i] == name[i]; } else { assert (name + dir)[i] == dir[i - |name|]; }
    }
  }

  lemma VariableIsPlain()
    ensures Registration.PlainArg("export") && Registration.PlainArg("CLAGENTIC_IDENTITY_DIR=")
  {
  }

  // -------------------------------------------------------------- removing a delivery directory

  /** What stands at a path. */
  datatype Entry = Entry(directory: bool, ours: bool, assertion: bool)

  datatype Refusal = NotPlain | NotOurName | Unreadable | NotADirectory | NotOwned | NoAssertion | Failed

  predicate Removable(dir: string) {
    Deliverable(dir) && SpawnDirs.SpawnName(Names.Base(dir))
  }

  class Tree {
    var entries: map<string, Entry>

    constructor (entries: map<string, Entry>)
      ensures this.entries == entries
    {
      this.entries := entries;
    }

    /** Deletes a delivery directory and nothing else: a path that is not a plain one, not named as the
        issuer names them, or not a directory of ours that holds an assertion is left alone. A removal
        that fails may have taken the assertion already; `leaves` says whether one is left. */
    method RemoveDelivery(dir: string, readable: bool, leaves: Option<bool>) returns (refusal: Option<Refusal>)
      modifies this
      ensures forall d :: d != dir ==> (d in entries <==> d in old(entries)) && (d in entries ==> entries[d] == old(entries)[d])
      ensures entries != old(entries) ==> Removable(dir) && dir in old(entries) && old(entries)[dir] == Entry(true, true, true)
      ensures refusal.None? <==> Removable(dir) && readable && (dir !in old(entries) || (old(entries)[dir] == Entry(true, true, true) && leaves.None?))
      ensures refusal.None? ==> dir !in entries
      ensures refusal == Some(Failed) ==> leaves.Some? && entries == old(entries)[dir := Entry(true, true, leaves.value)]
      ensures refusal.Some? && refusal != Some(Failed) ==> entries == old(entries)
      ensures refusal.Some? ==> match refusal.value
                case NotPlain => !Deliverable(dir)
                case NotOurName => Deliverable(dir) && !SpawnDirs.SpawnName(Names.Base(dir))
                case Unreadable => Removable(dir) && !readable
                case NotADirectory => Removable(dir) && dir in old(entries) && !old(entries)[dir].directory
                case NotOwned => Removable(dir) && dir in old(entries) && old(entries)[dir].directory && !old(entries)[dir].ours
                case NoAssertion => Removable(dir) && dir in old(entries) && old(entries)[dir].ours && !old(entries)[dir].assertion
                case Failed => leaves.Some?
    {
      if !Deliverable(dir) { return Some(NotPlain); }
      if !SpawnDirs.SpawnName(Names.Base(dir)) { return Some(NotOurName); }
      if !readable { return Some(Unreadable); }
      if dir !in entries { return None; }
      var e := entries[dir];
      if !e.directory { return Some(NotADirectory); }
      if !e.ours { return Some(NotOwned); }
      if !e.assertion { return Some(NoAssertion); }
      if leaves.Some? {
        entries := entries[dir := Entry(true, true, leaves.value)];
        return Some(Failed);
      }
      entries := entries - {dir};
      return None;
    }
  }

  /** Every created name, whatever its time, is a plain element. */
  lemma CreatedNameIsPlain(t: int, id: string)
    requires SpawnDirs.RandomId(id)
    ensures var name := SpawnDirs.CreatedName(t, id);
            && PlainElement(name) && (forall i :: 0 <= i < |name| ==> PathChar(name[i])) && name != "" && name[|name| - 1] != '/'
  {
    hide SpawnDirs.Hex;
    var name := SpawnDirs.CreatedName(t, id);
    var stamp := SpawnDirs.Stamp(t);
    StampIsPlain(t);
    hide SpawnDirs.Stamp;
    forall i | 0 <= i < |name| ensures PathChar(name[i]) && name[i] != '/' {
      if i < |stamp| { assert name[i] == stamp[i]; } else if i > |stamp| { assert name[i] == id[i - |stamp| - 1]; }
    }
    assert |name| > 32;
  }

  lemma StampIsPlain(t: int)
    ensures forall i :: 0 <= i < |SpawnDirs.Stamp(t)| ==> PathChar(SpawnDirs.Stamp(t)[i]) && SpawnDirs.Stamp(t)[i] != '/'
  {
    hide SpawnDirs.Hex;
    var hex := SpawnDirs.Hex(if t < 0 then -t else t);
    assert forall i :: 0 <= i < |hex| ==> SpawnDirs.HexDigit(hex[i]);
  }

  /** A directory the issuer creates under a plain root can always be delivered, and can be removed
      exactly when its time is one that its name can carry. */
  lemma IssuedDirsAreRemovable(root: string, t: int, id: string)
    requires Absolute(root) && Clean(root) == root && (root == "/" || Deliverable(root)) && SpawnDirs.RandomId(id)
    ensures Deliverable(Clean(root + "/" + SpawnDirs.CreatedName(t, id)))
    ensures Names.Base(Clean(root + "/" + SpawnDirs.CreatedName(t, id))) == SpawnDirs.CreatedName(t, id)
    ensures Removable(Clean(root + "/" + SpawnDirs.CreatedName(t, id))) <==> 0 <= t < SpawnDirs.NAME_LIMIT
  {
    var name := SpawnDirs.CreatedName(t, id);
    CreatedNameIsPlain(t, id);
    SpawnDirs.NameReadsBack(t, id);
    assert '/' !in name by { PlainHasNoSlash(name); }
    hide Clean, SpawnDirs.SpawnName, SpawnDirs.CreatedName, PlainElement, AfterLast, SpawnDirs.RandomId, PathChar;
    var before := ExtendsInPlace(root, name);
    var dir := before + "/" + name;
    AfterLastOf(before, name);
    assert dir[|dir| - 1] == name[|name| - 1];
    ExtendedIsPlain(root, before, name);
  }

  lemma ExtendedIsPlain(root: string, before: string, name: string)
    requires root == "/" || (forall i :: 1 <= i < |root| ==> PathChar(root[i]))
    requires before == if root == "/" then "" else root
    requires forall i :: 0 <= i < |name| ==> PathChar(name[i])
    ensures forall i :: 1 <= i < |before + "/" + name| ==> PathChar((before + "/" + name)[i])
  {
    var dir := before + "/" + name;
    forall i | 1 <= i < |dir| ensures PathChar(dir[i]) {
      if i < |before| { assert dir[i] == root[i]; } else if i == |before| { assert dir[i] == '/'; } else { assert dir[i] == name[i - |before| - 1]; }
    }
  }

  lemma PlainHasNoSlash(e: string)
    requires PlainElement(e)
    ensures '/' !in e
  {
  }
}
