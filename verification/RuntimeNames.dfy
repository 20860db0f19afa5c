/** The runtime id told of the executable and the arguments: which executables are interpreters, and the
    name that a path of a program or a script gives. */
module RuntimeNames {
  import opened Text
  import opened Names
  import Paths
  import Patterns

  predicate ListedInterpreter(s: string) {
    || s == "node" || s == "nodejs" || s == "bun" || s == "deno" || s == "python" || s == "ruby" || s == "perl" || s == "php"
    || s == "java" || s == "bash" || s == "sh" || s == "dash" || s == "zsh" || s == "env"
  }

  /** One of the names listed, or python with a version. */
  lemma InterpreterIs(s: string)
    ensures Interpreter(s) <==> ListedInterpreter(s) || Patterns.Matches([Patterns.Literal("python")] + [Patterns.Class("0-9.", 1, |s|)], s)
  {
    hide ListedInterpreter;
    ListedAre(s);
    VersionedIs(s);
  }

  lemma VersionedIs(s: string)
    ensures (HasPrefix(s, "python") && |s| > 6 && forall i :: 6 <= i < |s| ==> Digit(s[i]) || s[i] == '.')
       <==> Patterns.Matches([Patterns.Literal("python")] + [Patterns.Class("0-9.", 1, |s|)], s)
  {
    Patterns.FixedItem(Patterns.Literal("python"), 6, [Patterns.Class("0-9.", 1, |s|)], s);
    if |s| >= 6 {
      Patterns.OneItem(Patterns.Class("0-9.", 1, |s|), s[6..]);
      forall c ensures Patterns.InClass(c, "0-9.") <==> Digit(c) || c == '.' { VersionClass(c); }
      assert forall i :: 6 <= i < |s| ==> s[i] == s[6..][i - 6];
    }
  }

  lemma VersionClass(c: char)
    ensures Patterns.InClass(c, "0-9.") <==> Digit(c) || c == '.'
  {
    Patterns.Range(c, '0', '9', ".");
    Patterns.Singles(c, ".");
    assert ['0', '-', '9'] + "." == "0-9.";
  }

  lemma ListedAre(s: string)
    ensures s in INTERPRETERS <==> ListedInterpreter(s)
  {
  }

  /** A name that needs no change: of name characters, with a letter or digit, not too long. */
  predicate GoodName(name: string) {
    && 1 <= |name| <= 128 && (forall i :: 0 <= i < |name| ==> NameChar(name[i]))
    && exists i :: 0 <= i < |name| && (Letter(name[i]) || Digit(name[i]))
  }

  lemma {:induction false} NothingToSanitize(s: string)
    requires forall i :: 0 <= i < |s| ==> NameChar(s[i])
    ensures Sanitize(s) == s
    decreases |s|
  {
    if s != "" {
      NothingToSanitize(s[1..]);
      assert s == [s[0]] + s[1..];
    }
  }

  lemma BaseOf(dir: string, name: string)
    requires name != "" && '/' !in name
    ensures Base(dir + "/" + name) == name && Base(name) == name
  {
    var path := dir + "/" + name;
    assert path[|path| - 1] == name[|name| - 1] && name[|name| - 1] in name;
    assert TrimRight(path, '/') == path && TrimRight(name, '/') == name;
    Paths.AfterLastOf(dir, name);
    WholeAfterLast(name);
  }

  lemma {:induction false} WholeAfterLast(name: string)
    requires '/' !in name
    ensures AfterLast(name, '/') == name
  {
    if name != "" {
      assert name[|name| - 1] in name;
      WholeAfterLast(name[..|name| - 1]);
      assert name == name[..|name| - 1] + [name[|name| - 1]];
    }
  }

  lemma GoodIsUsable(name: string)
    requires GoodName(name)
    ensures Usable(name) == Some(name) && '/' !in name
  {
    NothingToSanitize(name);
  }

  /** A program that is no interpreter is named by its file, whatever its arguments. */
  lemma ProgramNamed(dir: string, name: string, args: seq<string>)
    requires GoodName(name) && !Interpreter(name)
    ensures RuntimeIdOf(dir + "/" + name, args) == Some(name)
  {
    GoodIsUsable(name);
    BaseOf(dir, name);
  }

  /** An interpreter is named by its script: the first argument behind its own name that is neither empty
      nor an option, without directory and extension. */
  lemma ScriptNamed(dir: string, interpreter: string, args: seq<string>, k: nat, place: string, name: string, extension: string)
    requires Interpreter(interpreter) && interpreter != "" && '/' !in interpreter && 1 <= k < |args|
    requires forall j :: 1 <= j < k ==> args[j] == "" || args[j][0] == '-'
    requires GoodName(name) && name[0] != '-' && '/' !in extension && '.' !in extension
    requires place == "" || (place[0] != '-' && place[|place| - 1] == '/')
    requires args[k] == place + name + "." + extension
    ensures RuntimeIdOf(dir + "/" + interpreter, args) == Some(name)
  {
    hide Interpreter, Usable, Base, Ext, TrimSuffix;
    GoodIsUsable(name);
    BaseOf(dir, interpreter);
    var arg := args[k];
    assert arg[0] == (if place == "" then name[0] else place[0]);
    assert forall j :: 1 <= j < k ==> args[j] == "" || HasPrefix(args[j], "-");
    assert FirstScript(args, k);
    assert forall m :: FirstScript(args, m) ==> m == k;
    ScriptIs(place, name, extension);
  }

  lemma ScriptIs(place: string, name: string, extension: string)
    requires GoodName(name) && '/' !in name && '/' !in extension && '.' !in extension && (place == "" || place[|place| - 1] == '/')
    ensures Script(place + name + "." + extension) == name
  {
    hide Ext, Base;
    var file := name + "." + extension;
    var arg := place + name + "." + extension;
    assert arg == place + file && '/' !in file && file != "";
    if place == "" { BaseOf("", file); assert arg == file; }
    else { BaseOf(place[..|place| - 1], file); assert arg == place[..|place| - 1] + "/" + file; }
    assert arg == (place + name) + ("." + extension);
    ExtIs(place + name, extension);
    assert file == name + ("." + extension);
    assert file[|file| - |"." + extension|..] == "." + extension && file[..|file| - |"." + extension|] == name;
  }

  lemma {:induction false} ExtIs(before: string, extension: string)
    requires '/' !in extension && '.' !in extension
    ensures Ext(before + ("." + extension)) == "." + extension
    decreases |extension|
  {
    var path := before + ("." + extension);
    if extension == "" {
      assert path[|path| - 1] == '.' && "." + extension == ".";
    } else {
      var last := extension[|extension| - 1];
      assert path[|path| - 1] == last && last in extension;
      assert path[..|path| - 1] == before + ("." + extension[..|extension| - 1]);
      ExtIs(before, extension[..|extension| - 1]);
      assert "." + extension == "." + extension[..|extension| - 1] + [last];
    }
  }

  /** A name that is too long is cut to 128 characters. */
  lemma LongNamesAreCut(name: string)
    requires |name| > 128 && (forall i :: 0 <= i < |name| ==> NameChar(name[i])) && (Letter(name[0]) || Digit(name[0]))
    ensures Usable(name) == Some(name[..128])
  {
    NothingToSanitize(name);
    assert name[..128][0] == name[0];
  }

  /** An ASCII character that no name has becomes a dash; without a letter or a digit there is no id. */
  lemma OthersBecomeDashes(a: string, c: char, b: string)
    requires (forall i :: 0 <= i < |a| ==> NameChar(a[i])) && c < '\U{80}' && !NameChar(c)
    ensures Sanitize(a + [c] + b) == a + "-" + Sanitize(b)
  {
    SanitizeAfter(a, [c] + b);
    assert a + [c] + b == a + ([c] + b);
    assert RuneLen([c] + b) == 1 && ([c] + b)[1..] == b;
  }

  lemma {:induction false} SanitizeAfter(a: string, rest: string)
    requires forall i :: 0 <= i < |a| ==> NameChar(a[i])
    ensures Sanitize(a + rest) == a + Sanitize(rest)
    decreases |a|
  {
    if a == "" {
      assert a + rest == rest;
    } else {
      assert (a + rest)[1..] == a[1..] + rest;
      SanitizeAfter(a[1..], rest);
      assert a == [a[0]] + a[1..];
    }
  }

  lemma NothingToName(name: string)
    requires forall i :: 0 <= i < |name| ==> name[i] == '.' || name[i] == '_' || name[i] == '-'
    ensures Usable(name) == None
  {
    NothingToSanitize(name);
  }

  // -------------------------------------------------------------- the roles of a definition

  /** A role that a definition lists more than once keeps its first place. */
  lemma {:induction false} FirstPlaces(listed: seq<string>) returns (at: seq<nat>)
    ensures |at| == |FirstOf(listed)| && forall k :: 0 <= k < |at| ==> at[k] < |listed| && listed[at[k]] == FirstOf(listed)[k]
    ensures forall k :: 0 <= k < |at| ==> listed[at[k]] !in listed[..at[k]]
    ensures forall k, m :: 0 <= k < m < |at| ==> at[k] < at[m]
  {
    at := [];
    if listed != [] {
      var n := |listed| - 1;
      at := FirstPlaces(listed[..n]);
      assert forall k :: 0 <= k < |at| ==> listed[..n][..at[k]] == listed[..at[k]];
      if listed[n] !in listed[..n] { at := at + [n]; }
    }
  }
}
