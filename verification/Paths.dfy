/** Lexical path cleaning, as path.Clean and filepath.Clean do it. */
module Paths {
  import opened Text

  function Join(elems: seq<string>): string {
    if elems == [] then ""
    else if |elems| == 1 then elems[0]
    else elems[0] + "/" + Join(elems[1..])
  }

  /** What is left of the elements after those already kept: empty and dot elements vanish, and a
      dot-dot takes the element before it away, vanishes at the root, or stays. */
  function Resolve(elems: seq<string>, rooted: bool, kept: seq<string>): seq<string>
    decreases |elems|
  {
    if elems == [] then kept
    else if elems[0] == "" || elems[0] == "." then Resolve(elems[1..], rooted, kept)
    else if elems[0] != ".." then Resolve(elems[1..], rooted, kept + [elems[0]])
    else if kept != [] && kept[|kept| - 1] != ".." then Resolve(elems[1..], rooted, kept[..|kept| - 1])
    else if rooted then Resolve(elems[1..], rooted, kept)
    else Resolve(elems[1..], rooted, kept + [".."])
  }

  function Clean(path: string): string {
    if path == "" then "."
    else
      var rooted := path[0] == '/';
      var kept := Resolve(Split(path, '/'), rooted, []);
      if rooted then "/" + Join(kept)
      else if kept == [] then "." else Join(kept)
  }

  predicate Absolute(path: string) {
    path != "" && path[0] == '/'
  }

  // -------------------------------------------------------------- cleaning twice is cleaning once

  /** The elements of a clean path: plain names, after a run of dot-dots when it is relative. */
  ghost predicate Resolved(elems: seq<string>, rooted: bool) {
    && (forall i :: 0 <= i < |elems| ==> elems[i] != "" && elems[i] != "." && '/' !in elems[i])
    && (forall i :: 0 <= i < |elems| && elems[i] == ".." ==> !rooted && (i > 0 ==> elems[i - 1] == ".."))
  }

  lemma {:induction false} ResolveResolves(elems: seq<string>, rooted: bool, kept: seq<string>)
    requires Resolved(kept, rooted) && forall i :: 0 <= i < |elems| ==> '/' !in elems[i]
    ensures Resolved(Resolve(elems, rooted, kept), rooted)
    decreases |elems|
  {
    if elems != [] {
      var rest := elems[1..];
      assert '/' !in elems[0];
      if elems[0] == "" || elems[0] == "." {
        ResolveResolves(rest, rooted, kept);
      } else if elems[0] != ".." {
        ResolveResolves(rest, rooted, kept + [elems[0]]);
      } else if kept != [] && kept[|kept| - 1] != ".." {
        ResolveResolves(rest, rooted, kept[..|kept| - 1]);
      } else if rooted {
        ResolveResolves(rest, rooted, kept);
      } else {
        ResolveResolves(rest, rooted, kept + [".."]);
      }
    }
  }

  lemma {:induction false} ResolveKeepsResolved(elems: seq<string>, rooted: bool, kept: seq<string>)
    requires Resolved(kept + elems, rooted)
    ensures Resolve(elems, rooted, kept) == kept + elems
    decreases |elems|
  {
    if elems == [] {
      assert kept + elems == kept;
    } else {
      assert (kept + elems)[|kept|] == elems[0];
      assert kept != [] ==> (kept + elems)[|kept| - 1] == kept[|kept| - 1];
      assert kept + elems == (kept + [elems[0]]) + elems[1..];
      ResolveKeepsResolved(elems[1..], rooted, kept + [elems[0]]);
    }
  }

  lemma {:induction false} SplitHasNoSeparator(s: string, sep: char)
    ensures forall i :: 0 <= i < |Split(s, sep)| ==> sep !in Split(s, sep)[i]
  {
    if s != "" { SplitHasNoSeparator(s[1..], sep); }
  }

  lemma {:induction false} SplitAt(a: string, sep: char, b: string)
    requires sep !in a
    ensures Split(a + [sep] + b, sep) == [a] + Split(b, sep)
  {
    var s := a + [sep] + b;
    if a == "" {
      assert s[1..] == b;
    } else {
      assert s[1..] == a[1..] + [sep] + b;
      SplitAt(a[1..], sep, b);
      assert a[0] in a && [a[0]] + a[1..] == a;
      assert ([a[1..]] + Split(b, sep))[1..] == Split(b, sep);
    }
  }

  lemma {:induction false} SplitOne(a: string, sep: char)
    requires sep !in a
    ensures Split(a, sep) == [a]
  {
    if a != "" {
      SplitOne(a[1..], sep);
      assert a[0] in a && [a[0]] + a[1..] == a;
    }
  }

  lemma {:induction false} SplitJoin(elems: seq<string>)
    requires elems != [] && forall i :: 0 <= i < |elems| ==> '/' !in elems[i]
    ensures Split(Join(elems), '/') == elems
  {
    if |elems| == 1 {
      SplitOne(elems[0], '/');
    } else {
      SplitJoin(elems[1..]);
      SplitAt(elems[0], '/', Join(elems[1..]));
    }
  }

  lemma JoinStart(elems: seq<string>, rooted: bool)
    requires elems != [] && Resolved(elems, rooted)
    ensures Join(elems) != "" && Join(elems)[0] != '/'
  {
    assert elems[0][0] in elems[0];
    assert Join(elems)[0] == elems[0][0];
  }

  /** A clean path is its own cleaning. */
  lemma CleanTwice(path: string)
    ensures Clean(Clean(path)) == Clean(path)
  {
    if path == "" {
      DotIsClean();
    } else {
      var rooted := path[0] == '/';
      SplitHasNoSeparator(path, '/');
      ResolveResolves(Split(path, '/'), rooted, []);
      CleanOfResolved(Resolve(Split(path, '/'), rooted, []), rooted);
    }
  }

  lemma DotIsClean()
    ensures Clean(".") == "."
  {
    SplitOne(".", '/');
    assert ["."][1..] == [];
    assert Resolve(["."], false, []) == [];
  }

  lemma CleanOfResolved(kept: seq<string>, rooted: bool)
    requires Resolved(kept, rooted)
    ensures rooted ==> Clean("/" + Join(kept)) == "/" + Join(kept)
    ensures !rooted ==> Clean(if kept == [] then "." else Join(kept)) == if kept == [] then "." else Join(kept)
  {
    hide Split, Join, Resolve;
    if rooted {
      var path := "/" + Join(kept);
      SplitAt("", '/', Join(kept));
      assert "" + ['/'] + Join(kept) == path;
      assert Split(path, '/') == [""] + Split(Join(kept), '/');
      ResolveFromRoot(kept);
    } else if kept == [] {
      DotIsClean();
    } else {
      JoinStart(kept, false);
      SplitJoin(kept);
      assert [] + kept == kept;
      ResolveKeepsResolved(kept, false, []);
    }
  }

  lemma ResolveFromRoot(kept: seq<string>)
    requires Resolved(kept, true)
    ensures Resolve([""] + Split(Join(kept), '/'), true, []) == kept
  {
    var elems := Split(Join(kept), '/');
    assert ([""] + elems)[1..] == elems;
    if kept == [] {
      assert elems == [""] && elems[1..] == [];
      assert Resolve(elems, true, []) == [];
    } else {
      SplitJoin(kept);
      assert [] + kept == kept;
      ResolveKeepsResolved(kept, true, []);
    }
  }

  /** One element more, on a path of any kind: what it does to what is left of those before it. */
  lemma {:induction false} ResolveNext(elems: seq<string>, rooted: bool, kept: seq<string>, e: string)
    ensures var before := Resolve(elems, rooted, kept);
            Resolve(elems + [e], rooted, kept)
            == if e == "" || e == "." then before
               else if e != ".." then before + [e]
               else if before != [] && before[|before| - 1] != ".." then before[..|before| - 1]
               else if rooted then before else before + [".."]
    decreases |elems|
  {
    if elems == [] {
      assert elems + [e] == [e] && [e][1..] == [];
    } else {
      assert (elems + [e])[1..] == elems[1..] + [e] && (elems + [e])[0] == elems[0];
      var first := elems[0];
      if first == "" || first == "." { ResolveNext(elems[1..], rooted, kept, e); }
      else if first != ".." { ResolveNext(elems[1..], rooted, kept + [first], e); }
      else if kept != [] && kept[|kept| - 1] != ".." { ResolveNext(elems[1..], rooted, kept[..|kept| - 1], e); }
      else if rooted { ResolveNext(elems[1..], rooted, kept, e); }
      else { ResolveNext(elems[1..], rooted, kept + [".."], e); }
    }
  }

  // -------------------------------------------------------------- extending a clean path

  /** A file name that a clean directory can be extended with as it stands. */
  predicate PlainElement(e: string) {
    e != "" && e != "." && e != ".." && '/' !in e
  }

  lemma {:induction false} JoinSnoc(elems: seq<string>, e: string)
    ensures Join(elems + [e]) == if elems == [] then e else Join(elems) + "/" + e
  {
    if |elems| > 1 {
      JoinSnoc(elems[1..], e);
      assert (elems + [e])[1..] == elems[1..] + [e];
      assert Join(elems + [e]) == elems[0] + "/" + (Join(elems[1..]) + "/" + e);
    } else if |elems| == 1 {
      assert (elems + [e])[1..] == [e];
    } else {
      assert elems + [e] == [e];
    }
  }

  /** The elements of a clean absolute path. */
  function Elements(path: string): seq<string>
    requires Absolute(path)
  {
    Resolve(Split(path, '/'), true, [])
  }

  lemma {:induction false} SplitSnoc(a: string, e: string)
    requires '/' !in e
    ensures Split(a + "/" + e, '/') == Split(a, '/') + [e]
  {
    var s := a + "/" + e;
    if a == "" {
      assert s == "" + ['/'] + e;
      SplitAt("", '/', e);
      SplitOne(e, '/');
    } else {
      assert s[1..] == a[1..] + "/" + e;
      SplitSnoc(a[1..], e);
      var rest := Split(a[1..], '/');
      assert (rest + [e])[0] == rest[0] && (rest + [e])[1..] == rest[1..] + [e];
    }
  }

  lemma {:induction false} ResolveSnoc(elems: seq<string>, kept: seq<string>, e: string)
    requires PlainElement(e)
    ensures Resolve(elems + [e], true, kept) == Resolve(elems, true, kept) + [e]
    decreases |elems|
  {
    if elems == [] {
      assert elems + [e] == [e] && [e][1..] == [];
    } else {
      assert (elems + [e])[1..] == elems[1..] + [e] && (elems + [e])[0] == elems[0];
      if elems[0] == "" || elems[0] == "." {
        ResolveSnoc(elems[1..], kept, e);
      } else if elems[0] != ".." {
        ResolveSnoc(elems[1..], kept + [elems[0]], e);
      } else if kept != [] && kept[|kept| - 1] != ".." {
        ResolveSnoc(elems[1..], kept[..|kept| - 1], e);
      } else {
        ResolveSnoc(elems[1..], kept, e);
      }
    }
  }

  /** Extending an absolute path by a plain element adds that element. */
  lemma CleanSnoc(dir: string, e: string)
    requires Absolute(dir) && PlainElement(e)
    ensures Absolute(Clean(dir + "/" + e)) && Clean(dir + "/" + e) == "/" + Join(Elements(dir) + [e])
  {
    SplitSnoc(dir, e);
    ResolveSnoc(Split(dir, '/'), [], e);
    assert (dir + "/" + e)[0] == '/';
  }

  lemma ElementsOfClean(dir: string)
    requires Absolute(dir)
    ensures Resolved(Elements(dir), true)
  {
    SplitHasNoSeparator(dir, '/');
    ResolveResolves(Split(dir, '/'), true, []);
  }

  lemma ElementsRead(elems: seq<string>)
    requires Resolved(elems, true)
    ensures Elements("/" + Join(elems)) == elems
  {
    hide Split, Join, Resolve;
    SplitAt("", '/', Join(elems));
    assert "" + ['/'] + Join(elems) == "/" + Join(elems);
    ResolveFromRoot(elems);
  }

  /** The elements of an extended path: those of the directory and then the element. */
  lemma ElementsSnoc(dir: string, e: string)
    requires Absolute(dir) && PlainElement(e)
    ensures Absolute(Clean(dir + "/" + e)) && Elements(Clean(dir + "/" + e)) == Elements(dir) + [e]
  {
    hide Split, Join, Resolve, Clean;
    CleanSnoc(dir, e);
    ElementsOfClean(dir);
    ElementsRead(Elements(dir) + [e]);
  }

  lemma {:induction false} AfterLastOf(before: string, name: string)
    requires '/' !in name
    ensures AfterLast(before + "/" + name, '/') == name
  {
    var s := before + "/" + name;
    if name == "" {
      assert s == before + "/";
    } else {
      assert name[|name| - 1] in name;
      assert s[..|s| - 1] == before + "/" + name[..|name| - 1];
      assert forall c :: c in name[..|name| - 1] ==> c in name;
      AfterLastOf(before, name[..|name| - 1]);
      assert name == name[..|name| - 1] + [name[|name| - 1]];
    }
  }

  /** A clean absolute directory extended by a plain element is the directory, a slash and the element. */
  lemma ExtendsInPlace(dir: string, e: string) returns (before: string)
    requires Absolute(dir) && Clean(dir) == dir && PlainElement(e)
    ensures Clean(dir + "/" + e) == before + "/" + e && Clean(before + "/" + e) == before + "/" + e
    ensures before == if dir == "/" then "" else dir
  {
    hide Split, Resolve;
    CleanSnoc(dir, e);
    CleanTwice(dir + "/" + e);
    JoinSnoc(Elements(dir), e);
    assert dir == "/" + Join(Elements(dir));
    before := if dir == "/" then "" else dir;
    if Elements(dir) == [] {
      assert dir == "/";
    } else {
      ElementsOfClean(dir);
      JoinStart(Elements(dir), true);
    }
  }
}
