/** When a removal undoes a registration, told from the installation itself: an event's command is
    also removed when it is taken for another event's, because an argument mentions its marker. */
module Removability {
  import opened Text
  import opened Decimal
  import opened Registration
  import opened Json
  import opened Settings
  import opened SettingsRemoval
  import opened MarkerSafety

  /** The first argument that mentions the marker is there, and mentions it before a blank. */
  predicate FirstMention(args: seq<string>, marker: string) {
    args != [] && if Mentions(args[0], marker) then Harmless(args[0], marker) else FirstMention(args[1..], marker)
  }

  /** A command line after its first word. */
  function Tail(args: seq<string>): string {
    if args == [] then "" else " " + (ShellQuote(args[0]) + Tail(args[1..]))
  }

  lemma {:induction false} JoinIsTail(args: seq<string>)
    requires args != []
    ensures Join(QuoteAll(args)) == ShellQuote(args[0]) + Tail(args[1..])
  {
    hide ShellQuote;
    if |args| == 1 {
      assert QuoteAll(args) == [ShellQuote(args[0])];
    } else {
      assert QuoteAll(args)[1..] == QuoteAll(args[1..]);
      JoinIsTail(args[1..]);
      assert args[1..][1..] == args[2..] && args[1..][0] == args[1];
    }
  }

  /** Words without blanks are the same where the texts that begin with them are. */
  lemma {:induction false} FirstWord(q: string, t: string, w: string, rest: string)
    requires ' ' !in q && ' ' !in w && (t == "" || t[0] == ' ') && (rest == "" || rest[0] == ' ')
    requires HasPrefix(q + t, w + rest)
    ensures HasPrefix(q, w) && (rest != "" ==> q == w && HasPrefix(t, rest))
    decreases |w|
  {
    assert forall i :: 0 <= i < |q| ==> q[i] != ' ';
    if w == "" {
      assert w + rest == rest;
      if rest != "" {
        assert (q + t)[..|rest|][0] == (q + t)[0];
        assert q + t == t;
      }
    } else {
      assert w[0] in w && w + rest == [w[0]] + (w[1..] + rest);
      assert (q + t)[..|w + rest|][0] == (q + t)[0] == w[0];
      assert q != "";
      assert q + t == [q[0]] + (q[1..] + t);
      PrefixCons(q[0], q[1..] + t, w + rest);
      assert (w + rest)[1..] == w[1..] + rest;
      FirstWord(q[1..], t, w[1..], rest);
      WordPrefix(q, w);
    }
  }

  lemma WordPrefix(q: string, w: string)
    requires q != "" && w != "" && q[0] == w[0]
    ensures HasPrefix(q[1..], w[1..]) ==> HasPrefix(q, w)
    ensures q[1..] == w[1..] ==> q == w
  {
    assert q == [q[0]] + q[1..] && w == [w[0]] + w[1..];
    PrefixCons(q[0], q[1..], w);
  }

  /** A command line that opens with a word opens with that argument. */
  lemma OpensWith(args: seq<string>, w: string, rest: string)
    requires w != "" && w[0] != '\'' && ' ' !in w && (rest != "" ==> rest[0] == ' ')
    requires HasPrefix(Tail(args), " " + (w + rest))
    ensures args != [] && HasPrefix(args[0], w)
    ensures rest != "" ==> args[0] == w && HasPrefix(Tail(args[1..]), rest)
  {
    hide ShellQuote;
    var q, t := ShellQuote(args[0]), Tail(args[1..]);
    PrefixCons(' ', q + t, " " + (w + rest));
    assert (" " + (w + rest))[1..] == w + rest;
    PlainOrQuoted(args[0]);
    assert (q + t)[..|w + rest|][0] == (q + t)[0] == w[0];
    FirstWord(q, t, w, rest);
  }

  lemma PlainOrQuoted(a: string)
    ensures ShellQuote(a) != ""
    ensures ShellQuote(a)[0] != '\'' ==> ShellQuote(a) == a && ' ' !in a
  {
    if PlainArg(a) { assert forall i :: 0 <= i < |a| ==> PlainChar(a[i]); }
  }

  // -------------------------------------------------------------- no marker but in an argument

  /** The words of a marker stand at the front of the arguments. */
  predicate MarkerWords(args: seq<string>, event: string) {
    |args| >= 3 && args[0] == "hook" && args[1] == "claude-code" && HasPrefix(args[2], event)
  }

  lemma MarkerOpens(args: seq<string>, event: string)
    requires event in EVENTS && HasPrefix(Tail(args), Marker(event))
    ensures MarkerWords(args, event)
  {
    EventIsPlain(event);
    hide EVENTS, Tail, HasPrefix;
    MarkerSplits(event);
    hide Marker;
    OpensWith(args, "hook", " claude-code " + event);
    OpensWith(args[1..], "claude-code", " " + event);
    OpensWith(args[1..][1..], event, "");
  }

  lemma MarkerSplits(event: string)
    ensures Marker(event) == " " + ("hook" + (" claude-code " + event))
    ensures " claude-code " + event == " " + ("claude-code" + (" " + event))
    ensures " " + event == " " + (event + "")
    ensures ' ' !in "hook" && ' ' !in "claude-code"
  {
    assert " hook claude-code " == " " + "hook" + " claude-code ";
    assert " claude-code " == " " + "claude-code" + " ";
    assert event + "" == event;
  }

  lemma EventIsPlain(event: string)
    requires event in EVENTS
    ensures event != "" && event[0] != '\'' && ' ' !in event
  {
  }

  /** A marker is found in a command line's arguments, unless its own words stand among them. */
  lemma {:induction false} MarkedInTail(args: seq<string>, event: string)
    requires event in EVENTS
    requires forall i :: 0 <= i <= |args| ==> !MarkerWords(args[i..], event)
    ensures MarkedBy(Tail(args), Marker(event)) == FirstMention(args, Marker(event))
  {
    var m := Marker(event);
    MarkerFacts(event);
    hide ShellQuote, Mentions, Harmless, EVENTS, MarkerWords;
    if args != [] {
      assert args[0..] == args;
      if HasPrefix(Tail(args), m) { MarkerOpens(args, event); }
      assert Tail(args)[1..] == ShellQuote(args[0]) + Tail(args[1..]);
      MarkedPastQuoted(args[0], Tail(args[1..]), m);
      forall i | 0 <= i <= |args[1..]| ensures !MarkerWords(args[1..][i..], event) {
        assert args[1..][i..] == args[i + 1..];
      }
      MarkedInTail(args[1..], event);
    }
  }

  /** Options: a flag before every value. */
  predicate Flags(options: seq<string>) {
    |options| % 2 == 0 && forall i :: 0 <= i < |options| && i % 2 == 0 ==> options[i] != "" && options[i][0] == '-'
  }

  lemma FlagsAppend(a: seq<string>, b: seq<string>)
    requires Flags(a) && Flags(b)
    ensures Flags(a + b)
  {
  }

  /** What follows the event in the arguments. */
  function Options(install: Install, event: string): seq<string> {
    install.Composed(event) + install.Places() + install.Origins() + install.Refresh(event)
  }

  lemma GroupsAreFlags(install: Install, event: string)
    ensures Flags(install.Composed(event)) && Flags(install.Places()) && Flags(install.Origins()) && Flags(install.Refresh(event))
  {
    hide Itoa;
  }

  lemma OptionsAreFlags(install: Install, event: string)
    ensures Flags(Options(install, event))
    ensures install.Argv(event) == [install.binary] + (install.Invocation(event) + Options(install, event))
  {
    GroupsAreFlags(install, event);
    hide Flags, Install.Composed, Install.Places, Install.Origins, Install.Refresh;
    var composed, places, origins := install.Composed(event), install.Places(), install.Origins();
    FlagsAppend(composed, places);
    FlagsAppend(composed + places, origins);
    FlagsAppend(composed + places + origins, install.Refresh(event));
  }

  /** Another event's marker words never stand among the arguments. */
  lemma OthersDoNotStand(install: Install, options: seq<string>, event: string, other: string, i: nat)
    requires Flags(options) && event in EVENTS && other in EVENTS && event != other
    requires i <= |install.Invocation(event) + options|
    ensures !MarkerWords((install.Invocation(event) + options)[i..], other)
  {
    EventsDiffer(event, other);
    hide EVENTS;
    var args := install.Invocation(event) + options;
    var a := args[i..];
    if |a| >= 3 {
      assert a[0] == args[i] && a[1] == args[i + 1] && a[2] == args[i + 2];
      if i >= 3 {
        assert args[i] == options[i - 3] && args[i + 1] == options[i - 2];
        assert "hook"[0] != '-' && "claude-code"[0] != '-';
      } else if i > 0 {
        assert args[1] != "hook" && args[2] == event;
      } else {
        assert a[2] == event;
      }
    }
  }

  lemma EventsDiffer(event: string, other: string)
    requires event in EVENTS && other in EVENTS && event != other
    ensures !HasPrefix(event, other) && event != "hook"
  {
    assert |SESSION_START| == 13 && |SUBAGENT_START| == 14 && |PRE_TOOL_USE_BASH| == 17 && |SUBAGENT_STOP| == 13 && |USER_PROMPT_SUBMIT| == 18;
    assert SESSION_START[1] == 'e' && SUBAGENT_START[1] == 'u' && PRE_TOOL_USE_BASH[0] == 'p' && SUBAGENT_STOP[1] == 'u' && USER_PROMPT_SUBMIT[0] == 'u';
    assert SUBAGENT_START[11] == 'a' && SUBAGENT_STOP[11] == 'o';
  }

  // -------------------------------------------------------------- whose a registered command is taken for

  predicate PlainRefresh(install: Install) {
    install.refreshBelow == "" || PlainArg(install.refreshBelow)
  }

  /** A registered command is taken for its own event's exactly when the path of the binary is harmless,
      and for another's exactly when the first argument to mention that one's marker does so harmlessly. */
  lemma TakenFor(install: Install, event: string, other: string)
    requires install.Valid() && PlainRefresh(install) && event in EVENTS && other in EVENTS
    ensures Ours(install.Command(event), other)
         == if event == other then Harmless(install.binary, Marker(event)) else FirstMention(install.Argv(event), Marker(other))
  {
    if event == other {
      hide EVENTS, Install.Command, Harmless, MarkedBy;
      MarkerFacts(event);
      var rest := CommandShape(install, event);
      MarkedBehindQuoted(install.binary, Marker(event), rest);
    } else {
      var args := install.Invocation(event) + Options(install, event);
      OptionsAreFlags(install, event);
      ArgvQuoted(install, event);
      forall i | 0 <= i <= |args| ensures !MarkerWords(args[i..], other) { OthersDoNotStand(install, Options(install, event), event, other, i); }
      MarkerFacts(other);
      hide EVENTS, Install.Argv, Options, Harmless, Mentions, MarkedBy, QuoteAll, ShellQuote, Marker, MarkerWords, Install.Valid;
      var all := [install.binary] + args;
      assert all[1..] == args;
      JoinIsTail(all);
      MarkedPastQuoted(install.binary, Tail(args), Marker(other));
      MarkedInTail(args, other);
    }
  }

  /** Every registered command is taken for some event's: its own, or one that an argument mentions. */
  ghost predicate SafeToRemove(install: Install) {
    forall k :: 0 <= k < |REGISTRATIONS| ==>
      var event := REGISTRATIONS[k].event;
      || Harmless(install.binary, Marker(event))
      || exists j :: 0 <= j < |REGISTRATIONS| && j != k && FirstMention(install.Argv(event), Marker(REGISTRATIONS[j].event))
  }

  lemma EventsOnce(j: nat, k: nat)
    requires j < |REGISTRATIONS| && k < |REGISTRATIONS| && j != k
    ensures REGISTRATIONS[j].event != REGISTRATIONS[k].event
  {
    assert |SESSION_START| == 13 && |SUBAGENT_START| == 14 && |PRE_TOOL_USE_BASH| == 17 && |SUBAGENT_STOP| == 13 && |USER_PROMPT_SUBMIT| == 18;
    assert SESSION_START[1] == 'e' && SUBAGENT_STOP[1] == 'u';
  }

  lemma RemovableIffSafe(install: Install)
    requires install.Valid() && PlainRefresh(install)
    ensures Removable(install) <==> SafeToRemove(install)
  {
    hide EVENTS, Install.Valid, Install.Command, Install.Argv, Ours, Harmless, FirstMention, PlainRefresh, Marker;
    forall k, j | 0 <= k < |REGISTRATIONS| && 0 <= j < |REGISTRATIONS|
      ensures Ours(install.Command(REGISTRATIONS[k].event), REGISTRATIONS[j].event)
           == if k == j then Harmless(install.binary, Marker(REGISTRATIONS[k].event))
              else FirstMention(install.Argv(REGISTRATIONS[k].event), Marker(REGISTRATIONS[j].event))
    {
      EventIsKnown(k);
      EventIsKnown(j);
      if k != j { EventsOnce(k, j); }
      TakenFor(install, REGISTRATIONS[k].event, REGISTRATIONS[j].event);
    }
  }

  /** Remove after Apply gives back settings without a trace of ours exactly when every command is taken
      for some event's, told from the paths of the installation. */
  lemma RemoveUndoesApplyExactly(install: Install, root: Object)
    requires PlainRefresh(install) && Fresh(root) && Applied(install, root).1
    ensures Removed(Applied(install, root).0) == (root, true) <==> SafeToRemove(install)
  {
    hide PlainRefresh, Fresh, SafeToRemove, Removable, Removed;
    assert install.Valid() by { hide Install.Valid; AppliesExactly(install, root); }
    RemovableIffSafe(install);
    RemoveUndoesApply(install, root);
  }

  /** In particular it does whenever the path of the binary is marker-safe. */
  lemma RemoveUndoesApplyWhenSafe(install: Install, root: Object)
    requires MarkerSafe(install.binary) && Fresh(root) && Applied(install, root).1
    ensures Removed(Applied(install, root).0) == (root, true)
  {
    hide Fresh, Applied, Removed, MarkerSafe, Removable;
    RecognisedIffMarkerSafe(install);
    RecognisedIsRemovable(install);
    RemoveUndoesApply(install, root);
  }

  // -------------------------------------------------------------- an installation that is not removed

  lemma {:induction false} NothingMentioned(args: seq<string>, m: string)
    requires forall i :: 0 <= i < |args| ==> !Mentions(args[i], m)
    ensures !FirstMention(args, m)
  {
    if args != [] { NothingMentioned(args[1..], m); }
  }

  lemma {:induction false} MentionedAfter(a: string, s: string, m: string)
    requires m != "" && m[0] == ' ' && ' ' !in a
    ensures Mentions(a + s, m) == Mentions(s, m)
  {
    if a == "" {
      assert a + s == s;
    } else {
      assert a + s == [a[0]] + (a[1..] + s) && (a + s)[1..] == a[1..] + s;
      PrefixCons(a[0], a[1..] + s, m);
      MentionedAfter(a[1..], s, m);
    }
  }

  /** A path that mentions one event's marker and lets it run on. */
  const RUNNING_ON := "/opt" + (Marker(SESSION_START) + "er/gk")

  const LAST_WORD := SESSION_START + "er/gk"

  lemma RunningOnSplits()
    ensures RUNNING_ON == Words("/opt", "hook", "claude-code", LAST_WORD)
  {
    assert " hook claude-code " == " " + "hook" + " " + "claude-code" + " ";
    var e := SESSION_START;
    assert " " + "hook" + " " + "claude-code" + " " + e + "er/gk" == " " + ("hook" + (" " + ("claude-code" + (" " + (e + "er/gk")))));
  }

  function Words(a: string, b: string, c: string, d: string): string {
    a + (" " + (b + (" " + (c + (" " + d)))))
  }

  /** Words without blanks mention a marker only where one begins. */
  lemma WordsMention(a: string, b: string, c: string, d: string, m: string)
    requires m != "" && m[0] == ' ' && ' ' !in a && ' ' !in b && ' ' !in c && ' ' !in d
    requires !HasPrefix(" " + (b + (" " + (c + (" " + d)))), m) && !HasPrefix(" " + (c + (" " + d)), m) && !HasPrefix(" " + d, m)
    ensures !Mentions(Words(a, b, c, d), m)
  {
    hide HasPrefix;
    MentionedAfter(a, " " + (b + (" " + (c + (" " + d)))), m);
    MentionedPast(b, " " + (c + (" " + d)), m);
    MentionedPast(c, " " + d, m);
    assert d + "" == d;
    MentionedPast(d, "", m);
    assert !Mentions("", m) by { NoBlankMentions("", m); }
  }

  /** It mentions no other event's. */
  lemma OneMention(event: string)
    requires event in EVENTS && event != SESSION_START
    ensures !Mentions(RUNNING_ON, Marker(event))
  {
    MarkerFacts(event);
    RunningOnSplits();
    OtherMarker(event);
    NoBlankInWord();
    hide EVENTS, Marker, HasPrefix, Words, Mentions;
    WordsMention("/opt", "hook", "claude-code", LAST_WORD, Marker(event));
  }

  lemma NoBlankInWord()
    ensures ' ' !in "/opt" && ' ' !in "hook" && ' ' !in "claude-code" && ' ' !in LAST_WORD
  {
  }

  lemma MentionedPast(word: string, rest: string, m: string)
    requires m != "" && m[0] == ' ' && ' ' !in word && !HasPrefix(" " + (word + rest), m)
    ensures Mentions(" " + (word + rest), m) == Mentions(rest, m)
  {
    assert (" " + (word + rest))[1..] == word + rest;
    MentionedAfter(word, rest, m);
  }

  lemma OtherMarker(event: string)
    requires event in EVENTS && event != SESSION_START
    ensures !HasPrefix(" " + ("hook" + (" " + ("claude-code" + (" " + LAST_WORD)))), Marker(event))
    ensures !HasPrefix(" " + ("claude-code" + (" " + LAST_WORD)), Marker(event))
    ensures !HasPrefix(" " + LAST_WORD, Marker(event))
  {
    EventStarts(event);
    var m := Marker(event);
    var path := " " + ("hook" + (" " + ("claude-code" + (" " + LAST_WORD))));
    assert m[18] == event[0] && m[19] == event[1] && m[1] == 'h' && |m| > 20;
    assert path[18] == LAST_WORD[0] == 's' && path[19] == LAST_WORD[1] == 'e';
    hide EVENTS, Marker;
    assert forall s: string :: HasPrefix(s, m) ==> s[..|m|] == m && s[18] == s[..|m|][18] && s[19] == s[..|m|][19] && s[1] == s[..|m|][1];
  }

  lemma EventStarts(event: string)
    requires event in EVENTS && event != SESSION_START
    ensures |event| > 2 && !(event[0] == 's' && event[1] == 'e')
  {
  }

  /** A valid installation, under a path that lets a marker run on, whose registration is not undone:
      the session-start entry stays. */
  lemma RegistrationThatStays() returns (install: Install)
    ensures install.Valid() && Fresh(map[]) && Applied(install, map[]).1
    ensures Removed(Applied(install, map[]).0) != (map[], true)
  {
    install := Install(RUNNING_ON, "/s", "/d", "warn", "", "", "", 5);
    assert install.Valid() by { assert install.binary[0] == '/' && install.socket[0] == '/' && install.stateDir[0] == '/'; }
    hide Install.Valid;
    assert Applied(install, map[]).1 by { AppliesExactly(install, map[]); }
    hide Applied, Removed, Install.Argv, EVENTS, Harmless;
    assert REGISTRATIONS[0].event == SESSION_START;
    EventIsKnown(0);
    MarkerFacts(SESSION_START);
    assert RUNNING_ON == "/opt" + Marker(SESSION_START) + "er/gk";
    UnsafeFrom("/opt", Marker(SESSION_START), "er/gk");
    forall j | 0 < j < |REGISTRATIONS| ensures !FirstMention(install.Argv(SESSION_START), Marker(REGISTRATIONS[j].event)) {
      EventIsKnown(j);
      EventsOnce(j, 0);
      StaysUnmentioned(install, REGISTRATIONS[j].event);
    }
    assert !SafeToRemove(install);
    RemoveUndoesApplyExactly(install, map[]);
  }

  lemma StaysUnmentioned(install: Install, event: string)
    requires install == Install(RUNNING_ON, "/s", "/d", "warn", "", "", "", 5)
    requires event in EVENTS && event != SESSION_START
    ensures !FirstMention(install.Argv(SESSION_START), Marker(event))
  {
    var m := Marker(event);
    var args := install.Argv(SESSION_START);
    assert args == [install.binary, "hook", "claude-code", SESSION_START, "--socket", "/s", "--state-dir", "/d", "--mode", "warn"];
    MarkerFacts(event);
    OneMention(event);
    hide EVENTS, Install.Argv, Mentions, Marker;
    forall i | 0 <= i < |args| ensures !Mentions(args[i], m) {
      if i > 0 {
        assert ' ' !in args[i];
        NoBlankMentions(args[i], m);
      }
    }
    NothingMentioned(args, m);
  }
}
