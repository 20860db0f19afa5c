/** The command line a hook registration carries: how it is quoted, what a shell makes of it,
    and how the hook finds the composed upstream in the resulting arguments. */
module Registration {
  import opened Text
  import opened Decimal

  // -------------------------------------------------------------- quoting

  predicate PlainChar(c: char) {
    || Letter(c) || Digit(c)
    || c == '_' || c == '@' || c == '%' || c == '+' || c == '=' || c == ':' || c == ',' || c == '.' || c == '/' || c == '-'
  }

  predicate PlainArg(s: string) {
    s != "" && forall i :: 0 <= i < |s| ==> PlainChar(s[i])
  }

  /** strings.ReplaceAll of each single quote by a quoted quote. */
  function Escape(s: string): string {
    if s == "" then ""
    else (if s[0] == '\'' then "'\\''" else [s[0]]) + Escape(s[1..])
  }

  function ShellQuote(s: string): string {
    if PlainArg(s) then s else "'" + Escape(s) + "'"
  }

  // -------------------------------------------------------------- what a shell reads

  /** A character with no meaning to the shell anywhere in a word. */
  predicate Ordinary(c: char) {
    && c != ' ' && c != '\t' && c != '\n' && c != '\r' && c != '\'' && c != '"' && c != '\\' && c != '$' && c != '`'
    && c != '|' && c != '&' && c != ';' && c != '<' && c != '>' && c != '(' && c != ')'
    && c != '*' && c != '?' && c != '[' && c != ']' && c != '#' && c != '~' && c != '!' && c != '{' && c != '}'
  }

  /** The words of a simple command, with quotes removed as sections 2.2.1 (escape character) and
      2.2.2 (single quotes) of the POSIX Shell Command Language say. `word` is the word being read
      and `quoted` whether a single quote is open. Text with any other syntax has no reading here. */
  function ShellWords(s: string, word: Option<string>, quoted: bool): Option<seq<string>>
    decreases |s|
  {
    var soFar := if word.None? then "" else word.value;
    if quoted then
      if s == "" then None
      else if s[0] == '\'' then ShellWords(s[1..], Some(soFar), false)
      else ShellWords(s[1..], Some(soFar + [s[0]]), true)
    else if s == "" then Some(if word.None? then [] else [soFar])
    else if s[0] == ' ' || s[0] == '\t' then
      var rest := ShellWords(s[1..], None, false);
      if rest.None? || word.None? then rest else Some([soFar] + rest.value)
    else if s[0] == '\'' then ShellWords(s[1..], Some(soFar), true)
    else if s[0] == '\\' && |s| > 1 then
      if s[1] == '\n' then ShellWords(s[2..], word, false) else ShellWords(s[2..], Some(soFar + [s[1]]), false)
    else if Ordinary(s[0]) then ShellWords(s[1..], Some(soFar + [s[0]]), false)
    else None
  }

  lemma PlainIsOrdinary(c: char)
    requires PlainChar(c)
    ensures Ordinary(c) && c != ' ' && c != '\t' && c != '\'' && c != '\\'
  {
  }

  lemma {:induction false} PlainReads(s: string, rest: string, word: string)
    requires forall i :: 0 <= i < |s| ==> PlainChar(s[i])
    ensures ShellWords(s + rest, Some(word), false) == ShellWords(rest, Some(word + s), false)
  {
    hide Ordinary, PlainChar;
    if s == "" {
      assert s + rest == rest && word + s == word;
    } else {
      PlainIsOrdinary(s[0]);
      assert (s + rest)[1..] == s[1..] + rest;
      PlainReads(s[1..], rest, word + [s[0]]);
      assert word + [s[0]] + s[1..] == word + s;
    }
  }

  lemma {:induction false} EscapedReads(s: string, rest: string, word: string)
    ensures ShellWords(Escape(s) + ("'" + rest), Some(word), true) == ShellWords(rest, Some(word + s), false)
  {
    if s == "" {
      assert Escape(s) + ("'" + rest) == "'" + rest && ("'" + rest)[1..] == rest && word + s == word;
    } else {
      var tail := Escape(s[1..]) + ("'" + rest);
      EscapedReads(s[1..], rest, word + [s[0]]);
      assert word + [s[0]] + s[1..] == word + s;
      if s[0] == '\'' {
        assert Escape(s) + ("'" + rest) == "'\\''" + tail;
        QuotedQuoteReads(tail, word);
      } else {
        assert Escape(s) + ("'" + rest) == [s[0]] + tail;
        assert ([s[0]] + tail)[1..] == tail;
      }
    }
  }

  lemma QuotedQuoteReads(tail: string, word: string)
    ensures ShellWords("'\\''" + tail, Some(word), true) == ShellWords(tail, Some(word + "'"), true)
  {
    var s := "'\\''" + tail;
    assert s[1..][2..] == "'" + tail && ("'" + tail)[1..] == tail;
    assert s[0] == '\'' && s[1..][0] == '\\' && s[1..][1] == '\'';
    assert ShellWords(s, Some(word), true) == ShellWords(s[1..], Some(word), false);
    assert ShellWords(s[1..], Some(word), false) == ShellWords("'" + tail, Some(word + "'"), false);
  }

  /** Whatever follows, a quoted argument is read as the argument itself. */
  lemma QuoteReads(s: string, rest: string)
    ensures ShellWords(ShellQuote(s) + rest, None, false) == ShellWords(rest, Some(s), false)
  {
    hide Ordinary, PlainChar, Escape;
    if PlainArg(s) {
      PlainIsOrdinary(s[0]);
      assert (s + rest)[1..] == s[1..] + rest;
      assert "" + [s[0]] == [s[0]];
      PlainReads(s[1..], rest, [s[0]]);
      assert [s[0]] + s[1..] == s;
    } else {
      var body := Escape(s) + ("'" + rest);
      assert ShellQuote(s) + rest == "'" + body && ("'" + body)[1..] == body;
      EscapedReads(s, rest, "");
      assert "" + s == s;
    }
  }

  /** Quoting any string and reading it back is the identity. */
  lemma QuoteRoundTrip(s: string)
    ensures ShellWords(ShellQuote(s), None, false) == Some([s])
  {
    QuoteReads(s, "");
    assert ShellQuote(s) + "" == ShellQuote(s);
  }

  /** strings.Join with one blank. */
  function Join(parts: seq<string>): string {
    if parts == [] then ""
    else if |parts| == 1 then parts[0]
    else parts[0] + (" " + Join(parts[1..]))
  }

  function QuoteAll(args: seq<string>): seq<string> {
    seq(|args|, i requires 0 <= i < |args| => ShellQuote(args[i]))
  }

  /** A command line of quoted arguments is read back as the arguments. */
  lemma {:induction false} JoinRoundTrip(args: seq<string>)
    ensures ShellWords(Join(QuoteAll(args)), None, false) == Some(args)
  {
    hide ShellQuote;
    if |args| == 0 {
      assert QuoteAll(args) == [];
    } else if |args| == 1 {
      QuoteRoundTrip(args[0]);
      assert QuoteAll(args) == [ShellQuote(args[0])] && [args[0]] == args;
    } else if |args| > 1 {
      assert QuoteAll(args)[1..] == QuoteAll(args[1..]);
      var tail := Join(QuoteAll(args[1..]));
      QuoteReads(args[0], " " + tail);
      assert (" " + tail)[1..] == tail;
      JoinRoundTrip(args[1..]);
      assert [args[0]] + args[1..] == args;
    }
  }

  // -------------------------------------------------------------- the registered command

  const SESSION_START := "session-start"
  const SUBAGENT_START := "subagent-start"
  const PRE_TOOL_USE_BASH := "pre-tool-use-bash"
  const SUBAGENT_STOP := "subagent-stop"
  const USER_PROMPT_SUBMIT := "user-prompt-submit"

  const EVENTS: set<string> := {SESSION_START, SUBAGENT_START, PRE_TOOL_USE_BASH, SUBAGENT_STOP, USER_PROMPT_SUBMIT}

  const COMPOSE_ALLOWANCE_SECONDS := 8

  /** `refreshBelow` is the duration as it is printed, empty when it is not positive. */
  datatype Install = Install(binary: string, socket: string, stateDir: string, mode: string, origin: string,
                             refreshBelow: string, compose: string, timeoutSeconds: int)
  {
    predicate Valid() {
      && HasPrefix(binary, "/")
      && HasPrefix(socket, "/")
      && HasPrefix(stateDir, "/")
      && (compose == "" || HasPrefix(compose, "/"))
      && origin != "human"
      && (mode == "warn" || mode == "enforce")
      && timeoutSeconds > 0
    }

    function TimeoutFor(event: string): int {
      if event == PRE_TOOL_USE_BASH && compose != "" then timeoutSeconds + COMPOSE_ALLOWANCE_SECONDS else timeoutSeconds
    }

    /** The words that name the hook and its event. */
    function Invocation(event: string): seq<string> {
      ["hook", "claude-code", event]
    }

    function ComposedParts(event: string): seq<string> {
      if event == PRE_TOOL_USE_BASH && compose != ""
      then ["--compose", ShellQuote(compose), "--upstream-timeout", Itoa(timeoutSeconds) + "s"] else []
    }

    function PlaceParts(): seq<string> {
      ["--socket", ShellQuote(socket), "--state-dir", ShellQuote(stateDir), "--mode", mode]
    }

    function OriginParts(): seq<string> {
      if origin != "" then ["--origin", ShellQuote(origin)] else []
    }

    /** The parts of the command line after the binary. */
    function Parts(event: string): seq<string> {
      Invocation(event) + ComposedParts(event) + PlaceParts() + OriginParts() + Refresh(event)
    }

    function Command(event: string): string {
      Join([ShellQuote(binary)] + Parts(event))
    }

    /** The options of a composed hook, of the places it uses, of its origin and of its refresh. */
    function Composed(event: string): seq<string> {
      if event == PRE_TOOL_USE_BASH && compose != "" then ["--compose", compose, "--upstream-timeout", Itoa(timeoutSeconds) + "s"] else []
    }

    function Places(): seq<string> {
      ["--socket", socket, "--state-dir", stateDir, "--mode", mode]
    }

    function Origins(): seq<string> {
      if origin != "" then ["--origin", origin] else []
    }

    function Refresh(event: string): seq<string> {
      if event == USER_PROMPT_SUBMIT && refreshBelow != "" then ["--refresh-below", refreshBelow] else []
    }

    /** The arguments the command line stands for. */
    function Argv(event: string): seq<string> {
      [binary] + (Invocation(event) + Composed(event) + Places() + Origins() + Refresh(event))
    }
  }

  lemma EventsArePlain(event: string)
    requires event in EVENTS
    ensures PlainArg(event)
  {
  }

  lemma WordsArePlain()
    ensures PlainArg("hook") && PlainArg("claude-code") && PlainArg("warn") && PlainArg("enforce") && PlainArg("--mode")
    ensures PlainArg("--compose") && PlainArg("--socket")
  {
  }

  lemma FlagsArePlain()
    ensures PlainArg("--upstream-timeout") && PlainArg("--state-dir") && PlainArg("--origin") && PlainArg("--refresh-below")
  {
  }

  lemma SecondsArePlain(n: nat)
    ensures PlainArg(Itoa(n) + "s")
  {
    hide PrintNat;
    var digits := PrintNat(n);
    assert forall i :: 0 <= i < |digits| ==> Digit(digits[i]);
  }

  lemma QuoteAllAppend(a: seq<string>, b: seq<string>)
    ensures QuoteAll(a + b) == QuoteAll(a) + QuoteAll(b)
  {
    hide ShellQuote;
  }

  lemma InvocationQuoted(install: Install, event: string)
    requires event in EVENTS
    ensures QuoteAll(install.Invocation(event)) == install.Invocation(event)
  {
    EventsArePlain(event);
    hide PlainArg, EVENTS;
    WordsArePlain();
  }

  lemma ComposedQuoted(install: Install, event: string)
    requires install.Valid()
    ensures QuoteAll(install.Composed(event)) == install.ComposedParts(event)
  {
    hide PlainArg, Itoa;
    WordsArePlain();
    FlagsArePlain();
    SecondsArePlain(install.timeoutSeconds);
  }

  lemma PlacesQuoted(install: Install)
    requires install.Valid()
    ensures QuoteAll(install.Places()) == install.PlaceParts()
  {
    hide PlainArg;
    WordsArePlain();
    FlagsArePlain();
  }

  lemma OriginsQuoted(install: Install)
    ensures QuoteAll(install.Origins()) == install.OriginParts()
  {
    hide PlainArg;
    FlagsArePlain();
  }

  lemma RefreshQuoted(install: Install, event: string)
    requires install.refreshBelow == "" || PlainArg(install.refreshBelow)
    ensures QuoteAll(install.Refresh(event)) == install.Refresh(event)
  {
    hide PlainArg;
    FlagsArePlain();
  }

  /** The command line is the intended arguments, each quoted. */
  lemma ArgvQuoted(install: Install, event: string)
    requires install.Valid() && event in EVENTS && (install.refreshBelow == "" || PlainArg(install.refreshBelow))
    ensures [ShellQuote(install.binary)] + install.Parts(event) == QuoteAll(install.Argv(event))
  {
    InvocationQuoted(install, event);
    ComposedQuoted(install, event);
    PlacesQuoted(install);
    OriginsQuoted(install);
    RefreshQuoted(install, event);
    hide PlainArg, ShellQuote, QuoteAll, EVENTS, Install.Valid, Install.Invocation, Install.Composed, Install.Places, Install.Origins,
         Install.Refresh, Install.ComposedParts, Install.PlaceParts, Install.OriginParts;
    QuoteFive(install.Invocation(event), install.Composed(event), install.Places(), install.Origins(), install.Refresh(event));
    QuoteAllAppend([install.binary], install.Argv(event)[1..]);
    QuoteOne(install.binary);
  }

  lemma QuoteFive(a: seq<string>, b: seq<string>, c: seq<string>, d: seq<string>, e: seq<string>)
    ensures QuoteAll(a + b + c + d + e) == QuoteAll(a) + QuoteAll(b) + QuoteAll(c) + QuoteAll(d) + QuoteAll(e)
  {
    hide QuoteAll;
    QuoteAllAppend(a, b);
    QuoteAllAppend(a + b, c);
    QuoteAllAppend(a + b + c, d);
    QuoteAllAppend(a + b + c + d, e);
  }

  lemma QuoteOne(a: string)
    ensures QuoteAll([a]) == [ShellQuote(a)]
  {
    hide ShellQuote;
  }

  /** A shell given the registered command runs the binary with exactly the intended arguments. */
  lemma CommandReadsAsArgv(install: Install, event: string)
    requires install.Valid() && event in EVENTS && (install.refreshBelow == "" || PlainArg(install.refreshBelow))
    ensures ShellWords(install.Command(event), None, false) == Some(install.Argv(event))
  {
    hide Itoa, ShellWords, PlainArg, Escape, Join, QuoteAll, ShellQuote;
    ArgvQuoted(install, event);
    JoinRoundTrip(install.Argv(event));
  }

  /** The arguments an event's hook is run with, word for word. */
  function WordsFor(install: Install, event: string): seq<string> {
    [install.binary, "hook", "claude-code", event]
    + (if event == "pre-tool-use-bash" && install.compose != ""
       then ["--compose", install.compose, "--upstream-timeout", Itoa(install.timeoutSeconds) + "s"] else [])
    + ["--socket", install.socket, "--state-dir", install.stateDir, "--mode", install.mode]
    + (if install.origin != "" then ["--origin", install.origin] else [])
    + (if event == "user-prompt-submit" && install.refreshBelow != "" then ["--refresh-below", install.refreshBelow] else [])
  }

  /** A shell given any event's registered command runs just these words. */
  lemma CommandRunsWords(install: Install, event: string)
    requires install.Valid() && (install.refreshBelow == "" || PlainArg(install.refreshBelow))
    requires event in {"session-start", "subagent-start", "pre-tool-use-bash", "subagent-stop", "user-prompt-submit"}
    ensures ShellWords(install.Command(event), None, false) == Some(WordsFor(install, event))
  {
    hide ShellWords, Install.Valid, Install.Command, Install.Argv, WordsFor, PlainArg;
    CommandReadsAsArgv(install, event);
    WordsAreArgv(install, event);
  }

  lemma WordsAreArgv(install: Install, event: string)
    ensures install.Argv(event) == WordsFor(install, event)
  {
    hide Itoa;
  }

  // -------------------------------------------------------------- finding the composed hook

  const DEFAULT_UPSTREAM_TIMEOUT := 5 * SECOND

  function ParseBudget(s: string, fractional: string -> Option<int>): int {
    var d := ParseDuration(s, fractional);
    if d.None? || d.value <= 0 then DEFAULT_UPSTREAM_TIMEOUT else d.value
  }

  function FixedCompose(event: string, rest: seq<string>, fractional: string -> Option<int>): Option<(string, int)> {
    if event != PRE_TOOL_USE_BASH || |rest| < 2 || rest[0] != "--compose" || rest[1] == "" then None
    else Some((rest[1], if |rest| >= 4 && rest[2] == "--upstream-timeout" then ParseBudget(rest[3], fractional)
                        else DEFAULT_UPSTREAM_TIMEOUT))
  }

  /** The composed hook and the budget a registration was made with are the ones the hook runs. */
  lemma ComposeSurvivesTheShell(install: Install, fractional: string -> Option<int>)
    requires install.Valid() && install.compose != "" && install.timeoutSeconds * SECOND <= MAX_INT64
    requires install.refreshBelow == "" || PlainArg(install.refreshBelow)
    ensures var argv := ShellWords(install.Command(PRE_TOOL_USE_BASH), None, false);
            argv.Some? && |argv.value| >= 4
            && FixedCompose(argv.value[3], argv.value[4..], fractional)
               == Some((install.compose, install.timeoutSeconds * SECOND))
  {
    hide ShellWords, ParseDuration, Itoa;
    CommandReadsAsArgv(install, PRE_TOOL_USE_BASH);
    SecondsReadBack(install.timeoutSeconds, fractional);
  }

  /** Without a composed hook, or at another event, nothing is found at the fixed position. */
  lemma NoComposeNothingFound(install: Install, event: string, fractional: string -> Option<int>)
    requires install.Valid() && event in EVENTS && (install.refreshBelow == "" || PlainArg(install.refreshBelow))
    requires install.compose == "" || event != PRE_TOOL_USE_BASH
    ensures var argv := ShellWords(install.Command(event), None, false);
            argv.Some? && |argv.value| >= 4 && FixedCompose(argv.value[3], argv.value[4..], fractional) == None
  {
    hide ShellWords, ParseDuration, Itoa;
    CommandReadsAsArgv(install, event);
    assert "--socket" != "--compose";
  }

  /** What is found at the fixed position of any argument list. */
  lemma FixedComposeExactly(event: string, rest: seq<string>, fractional: string -> Option<int>)
    ensures FixedCompose(event, rest, fractional).Some?
       <==> event == "pre-tool-use-bash" && |rest| >= 2 && rest[0] == "--compose" && rest[1] != ""
    ensures FixedCompose(event, rest, fractional).Some? ==>
              FixedCompose(event, rest, fractional).value.0 == rest[1]
              && var budget := if |rest| >= 4 && rest[2] == "--upstream-timeout" then ParseDuration(rest[3], fractional) else None;
                 FixedCompose(event, rest, fractional).value.1 == if budget.Some? && budget.value > 0 then budget.value else 5_000_000_000
  {
    hide ParseDuration;
  }
}
