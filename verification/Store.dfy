/** The records hook processes share: one file for a session and one for each agent, written whole
    under another name and then moved or linked into place. */
module Store {
  import opened Text
  import opened Names
  import opened Paths
  import Race = HookRace

  datatype Record = Record(dir: string, expiresAt: int, definition: string, startAgentType: string, agentType: string)

  /** A file holds a whole record or something that does not decode as one. */
  datatype Content = Whole(record: Record) | Garbled

  type Files = map<string, Content>

  datatype Failure = BadName | BadRoot | NotDecoded | Io

  /** How system calls come out: whether the state directories are usable, how far writing the
      temporary file gets, and whether the later calls work. `partial` is what a failed write leaves. */
  datatype Outcomes = Outcomes(usable: bool, nonce: string, written: bool, partial: Option<Content>, moved: bool, removed: bool, readable: bool)

  function At(files: Files, path: string): Option<Content> {
    if path in files then Some(files[path]) else None
  }

  // -------------------------------------------------------------- where records live

  const SESSION_FILE := "session.json"

  function AgentFile(agent: string): string { "agent-" + agent + ".json" }

  function FileOf(agent: string): string {
    if agent == "" then SESSION_FILE else AgentFile(agent)
  }

  function SessionDir(root: string, session: string): string { Clean(root + "/" + session) }

  function PathOf(root: string, session: string, agent: string): string {
    Clean(SessionDir(root, session) + "/" + FileOf(agent))
  }

  function TempOf(root: string, session: string, nonce: string): string {
    Clean(SessionDir(root, session) + "/.tmp-" + nonce)
  }

  predicate Keys(session: string, agent: string) {
    SafeName(session) && (agent == "" || SafeName(agent))
  }

  lemma SafeNameIsPlain(s: string)
    requires SafeName(s)
    ensures PlainElement(s)
  {
    assert forall i :: 0 <= i < |s| ==> NameChar(s[i]);
  }

  lemma FileIsPlain(agent: string)
    requires agent == "" || SafeName(agent)
    ensures PlainElement(FileOf(agent))
  {
    if agent != "" { SafeNameIsPlain(agent); }
  }

  lemma TempIsPlain(nonce: string)
    requires '/' !in nonce
    ensures PlainElement(".tmp-" + nonce)
  {
  }

  /** Where a record lives: in its session's directory under the root, under the agent's file name. */
  lemma PathElements(root: string, session: string, agent: string)
    requires Absolute(root) && Keys(session, agent)
    ensures Absolute(PathOf(root, session, agent)) && Elements(PathOf(root, session, agent)) == Elements(root) + [session, FileOf(agent)]
  {
    hide Clean, Elements, FileOf;
    SafeNameIsPlain(session);
    FileIsPlain(agent);
    ElementsSnoc(root, session);
    ElementsSnoc(SessionDir(root, session), FileOf(agent));
    assert Elements(root) + [session] + [FileOf(agent)] == Elements(root) + [session, FileOf(agent)];
  }

  /** A session's record and its agents' lie side by side, each under its own name. */
  lemma RecordFiles(root: string, session: string, agent: string)
    requires Absolute(root) && Keys(session, agent)
    ensures Elements(PathOf(root, session, agent)) == Elements(root) + [session, if agent == "" then "session.json" else "agent-" + agent + ".json"]
  {
    hide Clean, Elements;
    PathElements(root, session, agent);
  }

  lemma TempElements(root: string, session: string, nonce: string)
    requires Absolute(root) && SafeName(session) && '/' !in nonce
    ensures Absolute(TempOf(root, session, nonce)) && Elements(TempOf(root, session, nonce)) == Elements(root) + [session, ".tmp-" + nonce]
  {
    hide Clean, Elements;
    SafeNameIsPlain(session);
    TempIsPlain(nonce);
    ElementsSnoc(root, session);
    assert SessionDir(root, session) + "/.tmp-" + nonce == SessionDir(root, session) + "/" + (".tmp-" + nonce);
    ElementsSnoc(SessionDir(root, session), ".tmp-" + nonce);
    assert Elements(root) + [session] + [".tmp-" + nonce] == Elements(root) + [session, ".tmp-" + nonce];
  }

  lemma SameFile(a: string, b: string)
    requires FileOf(a) == FileOf(b)
    ensures a == b
  {
    assert forall x :: AgentFile(x)[0] == 'a';
    assert SESSION_FILE[0] == 's';
    if a != "" && b != "" {
      assert AgentFile(a)[6..][..|a|] == a && AgentFile(b)[6..][..|b|] == b;
      assert |AgentFile(a)| == |a| + 11 && |AgentFile(b)| == |b| + 11;
    }
  }

  /** Records of different sessions or agents never share a file. */
  lemma PathsAreDistinct(root: string, session: string, agent: string, session': string, agent': string)
    requires Absolute(root) && Keys(session, agent) && Keys(session', agent')
    requires PathOf(root, session, agent) == PathOf(root, session', agent')
    ensures session == session' && agent == agent'
  {
    hide PathOf, Elements, FileOf;
    PathElements(root, session, agent);
    PathElements(root, session', agent');
    var n := |Elements(root)|;
    assert (Elements(root) + [session, FileOf(agent)])[n] == session && (Elements(root) + [session', FileOf(agent')])[n] == session';
    assert (Elements(root) + [session, FileOf(agent)])[n + 1] == FileOf(agent) && (Elements(root) + [session', FileOf(agent')])[n + 1] == FileOf(agent');
    SameFile(agent, agent');
  }

  /** A temporary file is never the file of a record. */
  lemma TempsAreNotRecords(root: string, session: string, nonce: string, session': string, agent: string)
    requires Absolute(root) && SafeName(session) && '/' !in nonce && Keys(session', agent)
    ensures TempOf(root, session, nonce) != PathOf(root, session', agent)
  {
    hide PathOf, TempOf, Elements;
    TempElements(root, session, nonce);
    PathElements(root, session', agent);
    var n := |Elements(root)|;
    assert (Elements(root) + [session, ".tmp-" + nonce])[n + 1][0] == '.';
    assert (Elements(root) + [session', FileOf(agent)])[n + 1] == FileOf(agent);
    assert FileOf(agent)[0] != '.' by { assert AgentFile(agent)[0] == 'a'; }
  }

  // -------------------------------------------------------------- the operations

  /** `history` holds every state the files have been in, so that what another process can read at
      any moment can be spoken of. */
  class RecordStore {
    const root: string
    var files: Files
    ghost var history: seq<Files>

    constructor (root: string)
      ensures this.root == root && files == map[] && history == []
    {
      this.root, files, history := root, map[], [];
    }

    /** One system call that changes the files. */
    method Change(files': Files)
      modifies this
      ensures files == files' && history == old(history) + [files']
    {
      files := files';
      history := history + [files'];
    }

    method RecordPath(session: string, agent: string, usable: bool) returns (path: Result<string, Failure>)
      ensures path == if !Keys(session, agent) then Err(BadName)
                      else if !Absolute(root) || !usable then Err(BadRoot)
                      else Ok(PathOf(root, session, agent))
      ensures path.Ok? <==> SafeName(session) && (agent == "" || SafeName(agent)) && root != "" && root[0] == '/' && usable
      ensures path == Err(BadName) <==> !SafeName(session) || (agent != "" && !SafeName(agent))
    {
      if !SafeName(session) { return Err(BadName); }
      if agent != "" && !SafeName(agent) { return Err(BadName); }
      if !Absolute(root) || !usable { return Err(BadRoot); }
      var dir := Clean(root + "/" + session);
      if agent == "" { return Ok(Clean(dir + "/" + SESSION_FILE)); }
      return Ok(Clean(dir + "/" + AgentFile(agent)));
    }

    method Get(session: string, agent: string, o: Outcomes) returns (r: Result<Option<Record>, Failure>)
      ensures !Keys(session, agent) ==> r == Err(BadName)
      ensures Keys(session, agent) && (!Absolute(root) || !o.usable) ==> r == Err(BadRoot)
      ensures Keys(session, agent) && Absolute(root) && o.usable ==>
                r == match At(files, PathOf(root, session, agent))
                     case None => Ok(None)
                     case Some(c) => if !o.readable then Err(Io) else if c.Garbled? then Err(NotDecoded) else Ok(Some(c.record))
    {
      var path := RecordPath(session, agent, o.usable);
      if path.Err? { return Err(path.error); }
      if path.value !in files { return Ok(None); }
      if !o.readable { return Err(Io); }
      match files[path.value] {
        case Whole(record) => return Ok(Some(record));
        case Garbled => return Err(NotDecoded);
      }
    }

    /** Writes a record to a temporary file, through a state in which the file is not whole. */
    method WriteTemp(session: string, rec: Record, o: Outcomes) returns (tmp: Option<string>)
      requires TempOf(root, session, o.nonce) !in files
      modifies this
      ensures tmp.Some? <==> o.written
      ensures tmp.Some? ==> tmp.value == TempOf(root, session, o.nonce) && files == old(files)[tmp.value := Whole(rec)]
      ensures tmp.None? ==> files == (if o.partial.Some? then old(files)[TempOf(root, session, o.nonce) := o.partial.value] else old(files))
      ensures OnlyTempSince(|old(history)|, old(files), TempOf(root, session, o.nonce))
    {
      var path := TempOf(root, session, o.nonce);
      if !o.written {
        if o.partial.Some? { Change(files[path := o.partial.value]); }
        return None;
      }
      Change(files[path := Garbled]);
      Change(files[path := Whole(rec)]);
      return Some(path);
    }

    /** Since `n` states ago nothing but the temporary file has differed from `before`. */
    ghost predicate OnlyTempSince(n: nat, before: Files, tmp: string)
      reads this
    {
      && n <= |history|
      && forall i :: n <= i < |history| ==> history[i] - {tmp} == before - {tmp}
    }

    /** What other processes see at a record's path since `n` states ago: what was there, or what is
        there now, and nothing else anywhere but in the temporary file. */
    ghost predicate WholeSince(n: nat, before: Files, after: Option<Content>, path: string, tmp: string)
      reads this
    {
      && n <= |history|
      && forall i :: n <= i < |history| ==>
           && history[i] - {tmp, path} == before - {tmp, path}
           && (At(history[i], path) == At(before, path) || At(history[i], path) == after)
    }

    /** As long as only the temporary file changes, a record stays what it was. */
    lemma OnlyTempIsWhole(n: nat, before: Files, after: Option<Content>, path: string, tmp: string)
      requires OnlyTempSince(n, before, tmp) && path != tmp
      ensures WholeSince(n, before, after, path, tmp)
    {
      forall i | n <= i < |history|
        ensures history[i] - {tmp, path} == before - {tmp, path} && At(history[i], path) == At(before, path)
      {
        assert history[i] - {tmp, path} == (history[i] - {tmp}) - {path};
        assert before - {tmp, path} == (before - {tmp}) - {path};
        assert At(history[i], path) == At(history[i] - {tmp}, path) && At(before, path) == At(before - {tmp}, path);
      }
    }

    /** Replaces the record. At no moment is the record anything but the old or the new one. */
    method Put(session: string, agent: string, rec: Record, o: Outcomes) returns (r: Result<(), Failure>)
      requires '/' !in o.nonce && TempOf(root, session, o.nonce) !in files
      modifies this
      ensures r.Ok? <==> Keys(session, agent) && Absolute(root) && o.usable && o.written && o.moved
      ensures r.Ok? ==> files == old(files)[PathOf(root, session, agent) := Whole(rec)]
      ensures r.Err? ==> files - {TempOf(root, session, o.nonce)} == old(files)
      ensures r.Err? && (!Keys(session, agent) || !Absolute(root) || !o.usable) ==>
                files == old(files) && history == old(history) && r.error == if Keys(session, agent) then BadRoot else BadName
      ensures WholeSince(|old(history)|, old(files), Some(Whole(rec)), PathOf(root, session, agent), TempOf(root, session, o.nonce))
    {
      hide Clean, PathOf, TempOf, SafeName, Absolute;
      var path := RecordPath(session, agent, o.usable);
      if path.Err? { return Err(path.error); }
      TempsAreNotRecords(root, session, o.nonce, session, agent);
      var tmp := WriteTemp(session, rec, o);
      OnlyTempIsWhole(|old(history)|, old(files), Some(Whole(rec)), path.value, TempOf(root, session, o.nonce));
      if tmp.None? { return Err(Io); }
      if !o.moved {
        if o.removed { Change(files - {tmp.value}); }
        return Err(Io);
      }
      Change((files - {tmp.value})[path.value := files[tmp.value]]);
      return Ok(());
    }

    /** Stores the record when there is none, by a link that never replaces, and says whether it did.
        The temporary file is removed either way. */
    method PutNew(session: string, agent: string, rec: Record, o: Outcomes) returns (r: Result<bool, Failure>)
      requires '/' !in o.nonce && TempOf(root, session, o.nonce) !in files
      modifies this
      ensures r.Err? ==> files - {TempOf(root, session, o.nonce)} == old(files)
      ensures var linked := Race.LinkNew(At(old(files), PathOf(root, session, agent)), Whole(rec));
              r.Ok? ==> r.value == linked.1 && At(files, PathOf(root, session, agent)) == linked.0
                        && files - {PathOf(root, session, agent), TempOf(root, session, o.nonce)} == old(files) - {PathOf(root, session, agent)}
      ensures r.Ok? <==> Keys(session, agent) && Absolute(root) && o.usable && o.written
                         && (o.moved || PathOf(root, session, agent) in old(files))
      ensures o.written && o.removed ==> TempOf(root, session, o.nonce) !in files
      ensures WholeSince(|old(history)|, old(files), Some(Whole(rec)), PathOf(root, session, agent), TempOf(root, session, o.nonce))
    {
      hide Clean, PathOf, TempOf, SafeName, Absolute;
      var path := RecordPath(session, agent, o.usable);
      if path.Err? { return Err(path.error); }
      TempsAreNotRecords(root, session, o.nonce, session, agent);
      var tmp := WriteTemp(session, rec, o);
      OnlyTempIsWhole(|old(history)|, old(files), Some(Whole(rec)), path.value, TempOf(root, session, o.nonce));
      if tmp.None? { return Err(Io); }
      if path.value in files {
        r := Ok(false);
      } else if !o.moved {
        r := Err(Io);
      } else {
        Change(files[path.value := files[tmp.value]]);
        r := Ok(true);
      }
      if o.removed { Change(files - {tmp.value}); }
    }

    /** Removes a record; a missing one is not an error. */
    method Delete(session: string, agent: string, o: Outcomes) returns (r: Result<(), Failure>)
      modifies this
      ensures r.Ok? ==> files == old(files) - {PathOf(root, session, agent)}
      ensures r.Err? ==> files == old(files)
      ensures r.Ok? <==> Keys(session, agent) && Absolute(root) && o.usable && (o.removed || PathOf(root, session, agent) !in old(files))
    {
      var path := RecordPath(session, agent, o.usable);
      if path.Err? { return Err(path.error); }
      if path.value !in files { return Ok(()); }
      if !o.removed { return Err(Io); }
      Change(files - {path.value});
      return Ok(());
    }
  }
}
