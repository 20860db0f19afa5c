/** Command lines as they are written and the flags they set: what the flag library and the scan read back
    of any line of options, and what the scan makes of tokens the library refuses. */
module FlagLines {
  import opened Text
  import opened Decimal
  import opened Registration
  import opened FlagScan

  /** An option, with its value joined by an equals sign or as the next argument, or a token that is none. */
  datatype Token = Flag(dashes: string, name: string, value: string, joined: bool) | Junk(text: string)

  predicate KnownText(name: string) {
    || name == "socket" || name == "config" || name == "state-dir" || name == "mode" || name == "origin"
    || name == "compose" || name == "upstream-timeout"
  }

  predicate KnownDuration(name: string) { name == "refresh-below" || name == "timeout" }

  /** Text that opens like a flag and is none: three dashes or an equals sign in place of a name, or a name
      that no flag has. */
  predicate JunkText(text: string, name: string, rest: string) {
    || HasPrefix(text, "---") || HasPrefix(text, "-=") || HasPrefix(text, "--=")
    || (name != "" && name[0] != '-' && '=' !in name && !KnownText(name) && !KnownDuration(name) && (rest == "" || rest[0] == '=')
        && (text == "-" + name + rest || text == "--" + name + rest))
  }

  ghost predicate GoodToken(t: Token) {
    match t
    case Flag(dashes, name, _, _) => (dashes == "-" || dashes == "--") && (KnownText(name) || KnownDuration(name))
    case Junk(text) => exists name, rest :: JunkText(text, name, rest)
  }

  function WriteToken(t: Token): seq<string> {
    match t
    case Flag(dashes, name, value, joined) => if joined then [dashes + name + "=" + value] else [dashes + name, value]
    case Junk(text) => [text]
  }

  function WriteLine(tokens: seq<Token>): seq<string> {
    if tokens == [] then [] else WriteToken(tokens[0]) + WriteLine(tokens[1..])
  }

  /** The value a flag was last given. */
  function LastValue(tokens: seq<Token>, name: string, default: string): string {
    if tokens == [] then default
    else
      var last := tokens[|tokens| - 1];
      if last.Flag? && last.name == name then last.value else LastValue(tokens[..|tokens| - 1], name, default)
  }

  lemma {:induction false} LastValueFirst(tokens: seq<Token>, name: string, default: string)
    requires tokens != []
    ensures LastValue(tokens, name, default)
         == LastValue(tokens[1..], name, if tokens[0].Flag? && tokens[0].name == name then tokens[0].value else default)
    decreases |tokens|
  {
    var n := |tokens| - 1;
    if n > 0 {
      assert tokens[1..][n - 1] == tokens[n] && tokens[..n][1..] == tokens[1..][..n - 1];
      LastValueFirst(tokens[..n], name, default);
    }
  }

  /** Where the options end: at the end of the line, at an argument that is no flag, or at two dashes. */
  predicate EndsOptions(rest: seq<string>) {
    rest == [] || |rest[0]| < 2 || rest[0][0] != '-' || rest[0] == "--"
  }

  lemma {:induction false} CutAt(name: string, rest: string)
    requires '=' !in name && (rest == "" || rest[0] == '=')
    ensures CutName(name + rest) == name
  {
    if name != "" {
      assert (name + rest)[1..] == name[1..] + rest;
      CutAt(name[1..], rest);
    } else {
      assert name + rest == rest;
    }
  }

  lemma KnownNames(name: string)
    ensures TakesText(name) <==> KnownText(name)
    ensures TakesDuration(name) <==> KnownDuration(name)
    ensures KnownText(name) || KnownDuration(name) ==> name != "" && name[0] != '-' && '=' !in name
    ensures !(KnownText(name) && KnownDuration(name))
  {
  }

  /** A flag as the library takes it apart. */
  lemma FlagOpens(t: Token)
    requires t.Flag? && GoodToken(t)
    ensures var a := WriteToken(t)[0];
            var body := if |a| > 1 && a[1] == '-' then a[2..] else if |a| > 0 then a[1..] else "";
            && |a| >= 2 && a[0] == '-' && a != "--" && body != "" && body[0] != '-' && body[0] != '=' && CutName(body) == t.name
            && (t.joined ==> |t.name| < |body| && body[|t.name| + 1..] == t.value) && (!t.joined ==> |t.name| == |body|)
  {
    KnownNames(t.name);
    var rest := if t.joined then "=" + t.value else "";
    var a := WriteToken(t)[0];
    assert a == t.dashes + (t.name + rest);
    CutAt(t.name, rest);
    assert (t.name + rest)[0] == t.name[0];
    if t.dashes == "-" {
      assert a[1..] == t.name + rest && a[1] == t.name[0];
    } else {
      assert a[2..] == t.name + rest && a[1] == '-';
    }
  }

  lemma FlagScanned(t: Token, more: seq<string>, found: Found)
    requires t.Flag? && GoodToken(t)
    ensures Scan(WriteToken(t) + more, 0, found) == Scan(WriteToken(t) + more, |WriteToken(t)|, Set(found, t.name, t.value))
  {
    hide CutName, TakesText, TakesDuration, Set;
    FlagOpens(t);
    KnownNames(t.name);
    var args := WriteToken(t) + more;
    assert args[0] == WriteToken(t)[0] && (!t.joined ==> args[1] == t.value);
  }

  lemma FlagParsed(t: Token, more: seq<string>, found: Found, isDuration: string -> bool)
    requires t.Flag? && GoodToken(t) && (KnownDuration(t.name) ==> isDuration(t.value))
    ensures Parse(WriteToken(t) + more, 0, found, isDuration) == Parse(WriteToken(t) + more, |WriteToken(t)|, Set(found, t.name, t.value), isDuration)
  {
    hide CutName, TakesText, TakesDuration, Set;
    FlagOpens(t);
    KnownNames(t.name);
    var args := WriteToken(t) + more;
    assert args[0] == WriteToken(t)[0] && (!t.joined ==> args[1] == t.value);
  }

  lemma JunkScanned(t: Token, more: seq<string>, found: Found)
    requires t.Junk? && GoodToken(t)
    ensures Scan(WriteToken(t) + more, 0, found) == Scan(WriteToken(t) + more, 1, found)
  {
    hide TakesText, TakesDuration, CutName, GoodToken;
    assert exists name, rest :: JunkText(t.text, name, rest) by { JunkIsGood(t); }
    JunkOpens(t.text);
    assert (WriteToken(t) + more)[0] == t.text;
  }

  lemma JunkIsGood(t: Token)
    requires t.Junk? && GoodToken(t)
    ensures exists name, rest :: JunkText(t.text, name, rest)
  {
  }

  /** A junk token as the scan takes it apart: no name, or one that no flag has. */
  lemma JunkOpens(a: string)
    requires exists name, rest :: JunkText(a, name, rest)
    ensures |a| >= 2 && a[0] == '-'
    ensures var body := if a[1] == '-' then a[2..] else a[1..];
            body != "" && (body[0] == '-' || body[0] == '=' || (!TakesText(CutName(body)) && !TakesDuration(CutName(body))))
  {
    var name, rest :| JunkText(a, name, rest);
    hide TakesText, TakesDuration, KnownText, KnownDuration;
    if HasPrefix(a, "---") || HasPrefix(a, "--=") {
      assert a[..3][0] == a[0] && a[..3][1] == a[1] && a[..3][2] == a[2];
    } else if HasPrefix(a, "-=") {
      assert a[..2][0] == a[0] && a[..2][1] == a[1];
    } else {
      KnownNames(name);
      CutAt(name, rest);
      assert (name + rest)[0] == name[0];
      if a == "-" + name + rest { assert a[1..] == name + rest; } else { assert a[2..] == name + rest; }
    }
  }

  /** Scanning from a place is scanning what stands there. */
  lemma {:induction false} ScanFrom(before: seq<string>, args: seq<string>, i: nat, found: Found)
    requires i <= |args|
    ensures Scan(before + args, |before| + i, found) == Scan(args, i, found)
    decreases |args| - i
  {
    hide CutName, Set, TakesText, TakesDuration;
    if i < |args| {
      assert (before + args)[|before| + i] == args[i] && (i + 1 < |args| ==> (before + args)[|before| + i + 1] == args[i + 1]);
      var body := if |args[i]| < 2 then "" else if args[i][1] == '-' then args[i][2..] else args[i][1..];
      ScanFrom(before, args, i + 1, found);
      CutNameIsPrefix(body);
      if |CutName(body)| < |body| { ScanFrom(before, args, i + 1, Set(found, CutName(body), body[|CutName(body)| + 1..])); }
      if i + 1 < |args| { ScanFrom(before, args, i + 2, Set(found, CutName(body), args[i + 1])); }
    }
  }

  function Behind(p: Parsed, n: nat): Parsed { p.(index := p.index + n) }

  /** `all` ends with `args`, from place `n` on. */
  predicate EndsWith(all: seq<string>, n: nat, args: seq<string>) {
    |all| == n + |args| && forall j :: 0 <= j < |args| ==> all[n + j] == args[j]
  }

  /** One step of the library's parse: it ends, or sets a flag and goes on. */
  datatype Taken = Ends(reason: Reason) | Sets(name: string, value: string, next: nat)

  function Take(args: seq<string>, i: nat, isDuration: string -> bool): Taken
    requires i <= |args|
  {
    if i == |args| then Ends(Finished)
    else if |args[i]| < 2 || args[i][0] != '-' || args[i] == "--" then Ends(NoMoreFlags)
    else
      var body := if args[i][1] == '-' then args[i][2..] else args[i][1..];
      if body == "" || body[0] == '-' || body[0] == '=' then Ends(BadSyntax)
      else
        var name := CutName(body);
        CutNameIsPrefix(body);
        if !TakesText(name) && !TakesDuration(name) then Ends(NotDefined)
        else if |name| == |body| && i + 1 == |args| then Ends(NeedsArgument)
        else
          var value := if |name| == |body| then args[i + 1] else body[|name| + 1..];
          if TakesDuration(name) && !isDuration(value) then Ends(BadValue)
          else Sets(name, value, if |name| == |body| then i + 2 else i + 1)
  }

  lemma ParseTakes(args: seq<string>, i: nat, found: Found, isDuration: string -> bool)
    requires i <= |args|
    ensures var t := Take(args, i, isDuration);
            if t.Ends? then Parse(args, i, found, isDuration) == Parsed(found, i, t.reason)
            else i < t.next <= |args| && Parse(args, i, found, isDuration) == Parse(args, t.next, Set(found, t.name, t.value), isDuration)
  {
    hide CutName, Set, TakesText, TakesDuration;
  }

  function Later(t: Taken, n: nat): Taken { if t.Ends? then t else t.(next := n + t.next) }

  lemma TakeBehind(all: seq<string>, n: nat, args: seq<string>, i: nat, isDuration: string -> bool)
    requires EndsWith(all, n, args) && i <= |args|
    ensures Take(all, n + i, isDuration) == Later(Take(args, i, isDuration), n)
  {
    hide CutName, TakesText, TakesDuration;
    assert i < |args| ==> all[n + i] == args[i];
    assert i + 1 < |args| ==> all[n + (i + 1)] == args[i + 1];
  }

  lemma {:induction false} ParseBehind(all: seq<string>, n: nat, args: seq<string>, i: nat, found: Found, isDuration: string -> bool)
    requires EndsWith(all, n, args) && i <= |args|
    ensures Parse(all, n + i, found, isDuration) == Behind(Parse(args, i, found, isDuration), n)
    decreases |args| - i
  {
    hide Parse, Take, Set;
    ParseTakes(args, i, found, isDuration);
    ParseTakes(all, n + i, found, isDuration);
    TakeBehind(all, n, args, i, isDuration);
    var t := Take(args, i, isDuration);
    if t.Sets? { ParseBehind(all, n, args, t.next, Set(found, t.name, t.value), isDuration); }
  }

  lemma ParseFrom(before: seq<string>, args: seq<string>, found: Found, isDuration: string -> bool)
    ensures Parse(before + args, |before|, found, isDuration) == Behind(Parse(args, 0, found, isDuration), |before|)
  {
    ParseBehind(before + args, |before|, args, 0, found, isDuration);
  }

  /** Every line of options, among tokens that are none, is scanned to the values last given. */
  lemma {:induction false} ScansLine(tokens: seq<Token>, rest: seq<string>, found: Found)
    requires (forall i :: 0 <= i < |tokens| ==> GoodToken(tokens[i])) && EndsOptions(rest)
    ensures Scan(WriteLine(tokens) + rest, 0, found)
         == Found(LastValue(tokens, "compose", found.compose), LastValue(tokens, "upstream-timeout", found.budget))
    decreases |tokens|
  {
    hide GoodToken, CutName;
    if tokens == [] {
      assert WriteLine(tokens) + rest == rest;
    } else {
      var t, more := tokens[0], WriteLine(tokens[1..]) + rest;
      var next := if t.Flag? then Set(found, t.name, t.value) else found;
      assert WriteLine(tokens) + rest == WriteToken(t) + more;
      if t.Flag? { FlagScanned(t, more, found); } else { JunkScanned(t, more, found); }
      ScanFrom(WriteToken(t), more, 0, next);
      ScansLine(tokens[1..], rest, next);
      LastValueFirst(tokens, "compose", found.compose);
      LastValueFirst(tokens, "upstream-timeout", found.budget);
    }
  }

  /** The library accepts every line of known options whose durations are durations, up to where they end,
      and sets each flag to the value last given. */
  lemma {:induction false} ParsesLine(tokens: seq<Token>, rest: seq<string>, found: Found, isDuration: string -> bool)
    requires forall i :: 0 <= i < |tokens| ==> tokens[i].Flag? && GoodToken(tokens[i]) && (KnownDuration(tokens[i].name) ==> isDuration(tokens[i].value))
    requires EndsOptions(rest)
    ensures Parse(WriteLine(tokens) + rest, 0, found, isDuration)
         == Parsed(Found(LastValue(tokens, "compose", found.compose), LastValue(tokens, "upstream-timeout", found.budget)),
                   |WriteLine(tokens)|, if rest == [] then Finished else NoMoreFlags)
    ensures Parse(WriteLine(tokens) + rest, 0, found, isDuration).Ok()
    decreases |tokens|
  {
    hide GoodToken, CutName;
    if tokens == [] {
      assert WriteLine(tokens) + rest == rest;
    } else {
      var t, more := tokens[0], WriteLine(tokens[1..]) + rest;
      var next := Set(found, t.name, t.value);
      assert WriteLine(tokens) + rest == WriteToken(t) + more;
      FlagParsed(t, more, found, isDuration);
      ParseFrom(WriteToken(t), more, next, isDuration);
      ParsesLine(tokens[1..], rest, next, isDuration);
      LastValueFirst(tokens, "compose", found.compose);
      LastValueFirst(tokens, "upstream-timeout", found.budget);
    }
  }

  /** On a pre-tool-use-bash line the scan finds the composed hook last named, with the budget last given,
      or five seconds when that is no positive duration. */
  method FindOnLine(tokens: seq<Token>, rest: seq<string>, isDuration: string -> bool, fractional: string -> Option<int>) returns (r: Option<(string, int)>)
    requires (forall i :: 0 <= i < |tokens| ==> GoodToken(tokens[i])) && EndsOptions(rest)
    ensures var exe, budget := LastValue(tokens, "compose", ""), LastValue(tokens, "upstream-timeout", "");
            var d := ParseDuration(budget, fractional);
            r == if exe == "" then None else Some((exe, if d.Some? && d.value > 0 then d.value else 5_000_000_000))
  {
    hide GoodToken, Parse, Scan, LastValue, EndsOptions;
    var args := WriteLine(tokens) + rest;
    ScansLine(tokens, rest, Found("", ""));
    ScanFollowsParse(args, 0, Found("", ""), isDuration);
    r := FindCompose("pre-tool-use-bash", args, isDuration, fractional);
  }
}
