/** Finding the composed hook on a hand-written command line: a scan that must take a token for a
    flag, or for a flag's value, exactly when Go's flag package does. */
module FlagScan {
  import opened Text
  import opened Registration

  const STRING_FLAGS: set<string> := {"socket", "config", "state-dir", "mode", "origin", "compose", "upstream-timeout"}

  const DURATION_FLAGS: set<string> := {"refresh-below", "timeout"}

  /** The two flags the scan is after, as last set. */
  datatype Found = Found(compose: string, budget: string)

  function Set(v: Found, name: string, value: string): Found {
    if name == "compose" then v.(compose := value)
    else if name == "upstream-timeout" then v.(budget := value)
    else v
  }

  // -------------------------------------------------------------- flag.FlagSet.Parse

  datatype Reason = Finished | NoMoreFlags | BadSyntax | NotDefined | NeedsArgument | BadValue

  /** Where a parse ends, why, and what it had set by then. */
  datatype Parsed = Parsed(found: Found, index: nat, reason: Reason)
  {
    predicate Ok() { reason == Finished || reason == NoMoreFlags }
  }

  predicate TakesText(name: string) { name in STRING_FLAGS }

  predicate TakesDuration(name: string) { name in DURATION_FLAGS }

  function CutName(s: string): string {
    if s == "" || s[0] == '=' then "" else [s[0]] + CutName(s[1..])
  }

  lemma {:induction false} CutNameIsPrefix(s: string)
    ensures |CutName(s)| <= |s| && CutName(s) == s[..|CutName(s)|]
    ensures |CutName(s)| < |s| ==> s[|CutName(s)|] == '='
    ensures '=' !in CutName(s)
  {
    if s != "" && s[0] != '=' { CutNameIsPrefix(s[1..]); }
  }

  /** The library's parse of `args` from `i` on, given which texts are durations. A flag that ends
      the parse with an error has not been set. */
  function Parse(args: seq<string>, i: nat, found: Found, isDuration: string -> bool): (p: Parsed)
    requires i <= |args|
    ensures i <= p.index <= |args|
    decreases |args| - i
  {
    if i == |args| then Parsed(found, i, Finished)
    else
      var s := args[i];
      if |s| < 2 || s[0] != '-' then Parsed(found, i, NoMoreFlags)
      else if s == "--" then Parsed(found, i, NoMoreFlags)
      else
        var body := if s[1] == '-' then s[2..] else s[1..];
        if body == "" || body[0] == '-' || body[0] == '=' then Parsed(found, i, BadSyntax)
        else
          var name := CutName(body);
          if !TakesText(name) && !TakesDuration(name) then Parsed(found, i, NotDefined)
          else if |name| == |body| && i + 1 == |args| then Parsed(found, i, NeedsArgument)
          else
            CutNameIsPrefix(body);
            var value := if |name| == |body| then args[i + 1] else body[|name| + 1..];
            var next := if |name| == |body| then i + 2 else i + 1;
            if TakesDuration(name) && !isDuration(value) then Parsed(found, i, BadValue)
            else Parse(args, next, Set(found, name, value), isDuration)
  }

  // -------------------------------------------------------------- the scan

  /** What the scan finds from `i` on. A flag it does not know, and one written badly, is skipped. */
  function Scan(args: seq<string>, i: nat, found: Found): Found
    requires i <= |args|
    decreases |args| - i
  {
    if i == |args| || |args[i]| < 2 || args[i][0] != '-' then found
    else
      var body := if args[i][1] == '-' then args[i][2..] else args[i][1..];
      if body == "" then found
      else if body[0] == '-' || body[0] == '=' then Scan(args, i + 1, found)
      else
        var name := CutName(body);
        if !TakesText(name) && !TakesDuration(name) then Scan(args, i + 1, found)
        else if |name| == |body| then
          if i + 1 == |args| then found else Scan(args, i + 2, Set(found, name, args[i + 1]))
        else
          CutNameIsPrefix(body);
          Scan(args, i + 1, Set(found, name, body[|name| + 1..]))
  }

  /** Wherever a parse ends, the scan passes through the same place having found the same values;
      so it never takes another flag's value, or a token after the stop, for a flag. */
  lemma {:induction false} ScanFollowsParse(args: seq<string>, i: nat, found: Found, isDuration: string -> bool)
    requires i <= |args|
    ensures var p := Parse(args, i, found, isDuration);
            Scan(args, i, found) == Scan(args, p.index, p.found) && (p.Ok() ==> Scan(args, i, found) == p.found)
    decreases |args| - i
  {
    hide Set, CutName, TakesText, TakesDuration;
    if i < |args| && |args[i]| >= 2 && args[i][0] == '-' && args[i] != "--" {
      var s := args[i];
      var body := if s[1] == '-' then s[2..] else s[1..];
      if body != "" && body[0] != '-' && body[0] != '=' {
        var name := CutName(body);
        CutNameIsPrefix(body);
        if TakesText(name) || TakesDuration(name) {
          if |name| < |body| {
            if !TakesDuration(name) || isDuration(body[|name| + 1..]) {
              ScanFollowsParse(args, i + 1, Set(found, name, body[|name| + 1..]), isDuration);
            }
          } else if i + 1 < |args| {
            if !TakesDuration(name) || isDuration(args[i + 1]) {
              ScanFollowsParse(args, i + 2, Set(found, name, args[i + 1]), isDuration);
            }
          }
        }
      }
    }
  }

  /** Reads --compose and --upstream-timeout without parsing the rest. On every command line the
      library accepts the result is the parse's own values. */
  method FindCompose(event: string, args: seq<string>, isDuration: string -> bool, fractional: string -> Option<int>)
    returns (r: Option<(string, int)>)
    ensures event != PRE_TOOL_USE_BASH ==> r == None
    ensures event == PRE_TOOL_USE_BASH && Parse(args, 0, Found("", ""), isDuration).Ok() ==>
              var v := Parse(args, 0, Found("", ""), isDuration).found;
              r == if v.compose == "" then None else Some((v.compose, ParseBudget(v.budget, fractional)))
    ensures event == PRE_TOOL_USE_BASH ==>
              var p := Parse(args, 0, Found("", ""), isDuration);
              var v := Scan(args, p.index, p.found);
              r == if v.compose == "" then None else Some((v.compose, ParseBudget(v.budget, fractional)))
  {
    hide CutName, Parse, ParseBudget, TakesText, TakesDuration;
    if event != PRE_TOOL_USE_BASH { return None; }
    ScanFollowsParse(args, 0, Found("", ""), isDuration);
    var exe, budget := "", "";
    var i := 0;
    while i < |args|
      invariant 0 <= i <= |args|
      invariant Scan(args, i, Found(exe, budget)) == Scan(args, 0, Found("", ""))
    {
      var a := args[i];
      if |a| < 2 || a[0] != '-' { break; }
      var name := a[1..];
      if name[0] == '-' { name := name[1..]; }
      assert name == if a[1] == '-' then a[2..] else a[1..];
      if name == "" { break; }
      if name[0] == '-' || name[0] == '=' || |a| - |name| > 2 {
        i := i + 1;
        continue;
      }
      var flag := CutName(name);
      CutNameIsPrefix(name);
      if !TakesText(flag) && !TakesDuration(flag) {
        i := i + 1;
        continue;
      }
      var value;
      if |flag| == |name| {
        if i + 1 >= |args| { break; }
        i := i + 1;
        value := args[i];
      } else {
        value := name[|flag| + 1..];
      }
      if flag == "compose" {
        exe := value;
      } else if flag == "upstream-timeout" {
        budget := value;
      }
      i := i + 1;
    }
    if exe == "" { return None; }
    return Some((exe, ParseBudget(budget, fractional)));
  }
}
