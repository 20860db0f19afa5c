/** The in-memory record of which process each live assertion went to. */
module Registry {
  import opened Text

  datatype IssuedTo = IssuedTo(uid: nat, pid: int, start: nat, dev: nat, ino: nat, exp: int)

  /** The entries that a put at time `unix` keeps. */
  function Live(entries: map<string, IssuedTo>, unix: int): map<string, IssuedTo> {
    map k | k in entries && entries[k].exp > unix :: entries[k]
  }

  class Table {
    var entries: map<string, IssuedTo>

    constructor ()
      ensures entries == map[]
    {
      entries := map[];
    }

    /** Drops every entry that has expired, in whatever order, and records one. */
    method Put(jti: string, e: IssuedTo, unix: int)
      modifies this
      ensures entries == Live(old(entries), unix)[jti := e]
      ensures jti in entries && entries[jti] == e
      ensures forall k :: k != jti ==> (k in entries <==> k in old(entries) && unix < old(entries)[k].exp)
      ensures forall k :: k != jti && k in entries ==> entries[k] == old(entries)[k]
    {
      var keys := entries.Keys;
      while keys != {}
        invariant keys <= old(entries).Keys
        invariant forall k :: k in entries <==> k in old(entries) && (k in keys || old(entries)[k].exp > unix)
        invariant forall k :: k in entries ==> entries[k] == old(entries)[k]
        invariant keys <= entries.Keys
        decreases |keys|
      {
        var k :| k in keys;
        keys := keys - {k};
        if entries[k].exp <= unix {
          entries := entries - {k};
        }
      }
      assert entries == Live(old(entries), unix);
      entries := entries[jti := e];
    }

    method Get(jti: string) returns (e: Option<IssuedTo>)
      ensures e == if jti in entries then Some(entries[jti]) else None
    {
      if jti in entries { return Some(entries[jti]); }
      return None;
    }
  }
}
