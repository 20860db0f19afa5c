/** What the scanner makes of commands, told of their text: what follows a command it accepts, and what
    stands first; and which of them are left without the delivery statement. */
module Commands {
  import opened Text
  import opened Lexer
  import opened ReadOnly

  /** What SplitSimpleCommands makes of a command. */
  function Read(command: string): Option<seq<seq<Word>>> {
    Lex(command, START)
  }

  /** The words with one more in the last simple command. */
  function With(segments: seq<seq<Word>>, w: Word): seq<seq<Word>>
    requires segments != []
  {
    segments[..|segments| - 1] + [segments[|segments| - 1] + [w]]
  }

  /** The scan of an accepted command up to where something may follow it. */
  lemma {:induction false} LexThen(l: Line, tail: string, st: Scan) returns (st': Scan)
    requires GoodLine(l) && EndsWord(tail) && Clean(st) && !st.inWord && st.words == []
    ensures Lex(Show(l) + tail, st) == Lex(tail, st') && Clean(st')
    ensures Current(st').words != [] && st'.segments + [Current(st').words] == st.segments + Segments(l)
    decreases l
  {
    hide Lex, GoodElements, OperatorAt, WordsOf, ShowElements;
    assert Current(st).words + WordsOf(l.cmd) == WordsOf(l.cmd);
    if l.Last? {
      st' := LexElements(l.cmd, tail, st);
    } else {
      var more := ShowOperator(l.op) + (Show(l.rest) + tail);
      assert Show(l) + tail == ShowElements(l.cmd) + more;
      var mid := LexElements(l.cmd, more, st);
      OperatorReadsOn(l.op, l.rest, tail);
      LexOperator(l.op, Show(l.rest) + tail, mid);
      var next := EndCommand(mid).value;
      st' := LexThen(l.rest, tail, next);
      assert next.segments + Segments(l.rest) == st.segments + Segments(l);
    }
  }

  lemma OperatorReadsOn(op: Operator, l: Line, tail: string)
    requires GoodLine(l)
    ensures OperatorAt(ShowOperator(op) + (Show(l) + tail)) == |ShowOperator(op)|
    ensures Show(l) != "" && Show(l)[0] !in ";|&"
  {
    ElementOpening(l.cmd[0]);
    assert Show(l) != "" && Show(l)[0] == ShowElement(l.cmd[0])[0];
    assert (Show(l) + tail)[0] == Show(l)[0];
  }

  lemma ReadThen(a: string, tail: string) returns (st: Scan)
    requires Read(a).Some? && EndsWord(tail)
    ensures Lex(a + tail, START) == Lex(tail, st) && Clean(st) && Current(st).words != []
    ensures st.segments + [Current(st).words] == Read(a).value
  {
    hide Lex, GoodLine, Show, Segments;
    AcceptedExactly(a);
    var l :| GoodLine(l) && Show(l) == a;
    st := LexThen(l, tail, START);
    assert START.segments + Segments(l) == Segments(l);
  }

  // -------------------------------------------------------------- operators

  /** Two accepted commands are accepted with any of the four operators between them, one after the other. */
  lemma Joined(a: string, op: string, b: string)
    requires Read(a).Some? && Read(b).Some? && op in {";", "|", "&&", "||"}
    ensures Read(a + op + b) == Some(Read(a).value + Read(b).value)
  {
    hide Lex, GoodLine, Show, Segments;
    var st := ReadThen(a, op + b);
    assert a + op + b == a + (op + b);
    AcceptedExactly(b);
    var l :| GoodLine(l) && Show(l) == b;
    var o := if op == ";" then Semicolon else if op == "|" then Pipe else if op == "&&" then And else Or;
    OperatorReadsOn(o, l, "");
    assert b + "" == b && ShowOperator(o) == op;
    LexOperator(o, b, st);
    LexLine(l, EndCommand(st).value);
  }

  /** A background `&`, `|&` and an operator at the end are refused. */
  lemma NotJoined(a: string, tail: string)
    requires Read(a).Some? && tail != ""
    requires || (tail[0] == '&' && (|tail| == 1 || tail[1] != '&'))
             || (|tail| >= 2 && tail[0] == '|' && tail[1] == '&')
             || tail in {";", "|", "&&", "||"}
    ensures Read(a + tail).None?
  {
    hide Lex;
    var st := ReadThen(a, tail);
    LexStep(tail, st);
    NoDiscardOperator(tail);
    StepOperator(tail, st);
    if OperatorAt(tail) > 0 {
      assert tail[OperatorAt(tail)..] == "";
      LexEnd(EndCommand(st).value);
    }
  }

  // -------------------------------------------------------------- bare text

  /** No quote, blank or operator in it. */
  predicate OneWord(s: string) {
    s != "" && forall c :: c in s ==> c !in "'\" \t;|&"
  }

  /** Nothing in it that a shell would expand, redirect to or take for the end of a line. */
  predicate Inactive(s: string) {
    && s[..if |s| > 0 then 1 else 0] != "#"
    && forall c :: c in s ==> ' ' <= c && c != '\U{7f}' && c != '$' && c != '`' && c != '\\' && c != '(' && c != ')'
                              && c != '<' && c != '>' && c != '*' && c != '?' && c != '['
  }

  lemma {:induction false} LexRest(s: string, st: Scan)
    requires st.inWord && forall c :: c in s ==> c !in "'\" \t;|&"
    ensures Lex(s, st) == if forall c :: c in s ==> BareChar(c) then Lex("", st.(text := st.text + s)) else None
    decreases |s|
  {
    hide Lex, BareChar;
    if s == "" {
      assert st.text + s == st.text;
    } else {
      assert s[0] in s;
      LexStep(s, st);
      StepOther(s, st);
      if BareChar(s[0]) {
        LexRest(s[1..], st.(text := st.text + [s[0]]));
        assert st.text + [s[0]] + s[1..] == st.text + s;
        assert forall c :: c in s <==> c == s[0] || c in s[1..];
      }
    }
  }

  predicate Discarding(s: string) { s == "2>/dev/null" || s == ">/dev/null" }

  lemma DiscardEnds(s: string, r: string)
    requires OneWord(s)
    ensures Lexer.Discards(s, r) ==> s == r
  {
    if HasPrefix(s, r) && |s| > |r| { assert s[|r|..][0] == s[|r|] && s[|r|] in s; }
  }

  lemma DiscardIs(s: string)
    requires OneWord(s)
    ensures DiscardAt(s) == if Discarding(s) then |s| else 0
  {
    DiscardEnds(s, DISCARDS[0]);
    DiscardEnds(s, DISCARDS[1]);
    DiscardEnds(s, DISCARDS[2]);
    assert DISCARDS[2][2] == '&';
    if |s| > 2 { assert s[2] in s; }
    if Discarding(s) { assert s[|s|..] == "" && s[..|s|] == s; }
  }

  /** How one word of bare text is scanned between words. */
  lemma LexOneWord(s: string, st: Scan)
    requires OneWord(s) && !st.inWord && Clean(st)
    ensures Lex(s, st) == if Discarding(s) then Lex("", st)
                          else if Inactive(s) then Lex("", st.(text := s, inWord := true)) else None
  {
    hide Lex;
    DiscardIs(s);
    LexStep(s, st);
    assert s[0] in s;
    if Discarding(s) {
      StepDiscards(s, st);
      assert s[|s|..] == "";
    } else {
      StepOther(s, st);
      assert s[..1] == [s[0]] && st.text + [s[0]] == [s[0]];
      assert forall c :: c in s <==> c == s[0] || c in s[1..];
      if BareChar(s[0]) && s[0] != '#' {
        LexRest(s[1..], st.(text := [s[0]], inWord := true));
        assert [s[0]] + s[1..] == s;
      }
      BareIs(s);
    }
  }

  lemma BareIs(s: string)
    requires OneWord(s)
    ensures Inactive(s) <==> s[0] != '#' && forall c :: c in s ==> BareChar(c)
  {
    assert s[..1] == [s[0]];
  }

  /** A single word of bare text is a command exactly when nothing in it is active. */
  lemma FirstWord(s: string)
    requires OneWord(s)
    ensures Read(s) == if Inactive(s) && !Discarding(s) then Some([[Word(s, false)]]) else None
  {
    hide Lex;
    var st := Scan([], [], s, true, false);
    assert START.(text := s, inWord := true) == st;
    LexOneWord(s, START);
    LexEnd(START);
    LexEnd(st);
    assert Current(st).words == [Word(s, false)];
    assert EndCommand(st).value.segments == [[Word(s, false)]];
  }

  /** One more word of bare text behind an accepted command and a blank: a discard redirection adds
      nothing, other inactive text is a word, and anything else refuses the whole. */
  lemma NextWord(a: string, blank: char, s: string)
    requires Read(a).Some? && (blank == ' ' || blank == '\t') && OneWord(s)
    ensures Read(a).value != []
    ensures Read(a + [blank] + s)
         == if Discarding(s) then Read(a) else if Inactive(s) then Some(With(Read(a).value, Word(s, false))) else None
  {
    hide Lex;
    var st := AfterBlank(a, blank, s);
    LexOneWord(s, st);
    LexEnd(st);
    LexEnd(st.(text := s, inWord := true));
  }

  lemma AfterBlank(a: string, blank: char, s: string) returns (st: Scan)
    requires Read(a).Some? && (blank == ' ' || blank == '\t')
    ensures Lex(a + [blank] + s, START) == Lex(s, st) && Clean(st) && !st.inWord
    ensures st.words != [] && st.segments + [st.words] == Read(a).value
  {
    hide Lex;
    var before := ReadThen(a, [blank] + s);
    assert a + [blank] + s == a + ([blank] + s);
    LexElement(Blank(blank), s, before);
    st := Current(before);
  }

  /** Joining standard error to standard output adds nothing either. */
  lemma JoiningStreams(a: string)
    requires Read(a).Some?
    ensures Read(a + " " + "2>&1") == Read(a)
  {
    hide Lex;
    var st := AfterBlank(a, ' ', "2>&1");
    assert DISCARDS[2] == "2>&1" && "2>&1" in DISCARDS;
    LexElement(Discard("2>&1"), "", st);
    assert "2>&1" + "" == "2>&1" && a + [' '] + "2>&1" == a + " " + "2>&1";
    LexEnd(st);
  }

  // -------------------------------------------------------------- quoted text

  /** Single-quoted text is a word as it stands; double-quoted text is one unless the shell would expand
      something in it. */
  lemma NextQuoted(a: string, s: string)
    requires Read(a).Some?
    ensures Read(a).value != []
    ensures '\'' !in s ==> Read(a + " " + ("'" + s + "'")) == Some(With(Read(a).value, Word(s, true)))
    ensures '"' !in s ==>
              Read(a + " " + ("\"" + s + "\"")) == if '$' in s || '`' in s || '\\' in s then None else Some(With(Read(a).value, Word(s, true)))
  {
    hide Lex;
    var st0 := AfterBlank(a, ' ', "");
    if '\'' !in s {
      var st := AfterBlank(a, ' ', "'" + s + "'");
      assert a + [' '] + ("'" + s + "'") == a + " " + ("'" + s + "'");
      LexQuoted('\'', s, st);
    }
    if '"' !in s {
      var st := AfterBlank(a, ' ', "\"" + s + "\"");
      assert a + [' '] + ("\"" + s + "\"") == a + " " + ("\"" + s + "\"");
      LexQuoted('"', s, st);
    }
  }

  lemma LexQuoted(q: char, s: string, st: Scan)
    requires (q == '\'' || q == '"') && q !in s && !st.inWord && Clean(st) && st.words != []
    ensures Lex([q] + s + [q], st)
         == if q == '"' && ('$' in s || '`' in s || '\\' in s) then None else Some(With(st.segments + [st.words], Word(s, true)))
  {
    hide Lex;
    var text := [q] + s + [q];
    LexStep(text, st);
    NoDiscardQuote(text);
    StepQuoted(text, st);
    Quoted(s, "", q, text);
    assert |text| == |s| + 2 && st.text + s == s && text == [q] + s + [q] + "";
    if Quote(text).Some? {
      assert text[|s| + 2..] == "";
      LexEnd(st.(text := s, inWord := true, quoted := true));
    }
  }

  // -------------------------------------------------------------- which commands are harmless

  /** Decided on the words as read. */
  lemma DecidedOnWords(command: string)
    ensures NeedsNoIdentity(command) <==> Read(command).Some? && forall i :: 0 <= i < |Read(command).value| ==> Harmless(Read(command).value[i])
  {
    hide Lex, GoodLine, Show, Segments, Harmless;
    AcceptedExactly(command);
  }

  predicate Utility(name: string) {
    || name == "cat" || name == "date" || name == "echo" || name == "grep" || name == "head" || name == "ls" || name == "pwd"
    || name == "tail" || name == "wc"
  }

  predicate DisplayOption(s: string) {
    || (s != "" && s[0] == '+')
    || s == "-u" || s == "--utc" || s == "--universal" || s == "-R" || s == "--rfc-email" || s == "-I" || s == "--iso-8601"
  }

  /** Somewhere in `s`, in whatever case, stands `sub`. */
  ghost predicate MentionsAnyCase(s: string, sub: string) {
    exists a, mid, b :: s == a + mid + b && InSomeCase(mid, sub)
  }

  predicate InSomeCase(mid: string, sub: string) {
    |mid| == |sub| && forall i :: 0 <= i < |mid| ==> mid[i] == sub[i] || ('A' <= mid[i] <= 'Z' && mid[i] + ' ' == sub[i])
  }

  /** A simple command is harmless exactly when it names one of the nine utilities, unquoted, no later word
      names the environment, and date is only asked to display. */
  lemma HarmlessExactly(words: seq<Word>)
    ensures Harmless(words)
       <==> && words != [] && Utility(words[0].text) && !words[0].quoted
            && (forall i :: 1 <= i < |words| ==> !NamesEnvironment(words[i].text))
            && (words[0].text == "date" ==> forall i :: 1 <= i < |words| ==> DisplayOption(words[i].text))
  {
    hide NamesEnvironment;
    UtilitiesAre();
    forall w: Word ensures DateArg(w) <==> DisplayOption(w.text) { DateArgIs(w); }
  }

  lemma UtilitiesAre()
    ensures forall name :: name in UTILITIES <==> Utility(name)
  {
  }

  lemma DateArgIs(w: Word)
    ensures DateArg(w) <==> DisplayOption(w.text)
  {
    if w.text != "" { assert w.text[..1] == [w.text[0]]; }
  }

  predicate Ascii(s: string) { forall c :: c in s ==> c < '\U{80}' }

  /** How many bytes of a text the first step of lowering takes, and what it makes of them. */
  function LowerFirst(s: string): (nat, string)
    requires s != ""
    ensures 1 <= LowerFirst(s).0 <= |s|
  {
    if ByteIn(s, 0, 0xC4, 0xC4) && ByteIn(s, 1, 0xB0, 0xB0) then (2, "i")
    else if ByteIn(s, 0, 0xE2, 0xE2) && ByteIn(s, 1, 0x84, 0x84) && ByteIn(s, 2, 0xAA, 0xAA) then (3, "k")
    else (1, [if 'A' <= s[0] <= 'Z' then s[0] + ' ' else s[0]])
  }

  lemma LowerStep(s: string)
    requires s != ""
    ensures Lower(s) == LowerFirst(s).1 + Lower(s[LowerFirst(s).0..])
  {
  }

  lemma LowerFirstStays(a: string, t: string)
    requires a != "" && (t == "" || t[0] < '\U{80}')
    ensures LowerFirst(a + t) == LowerFirst(a)
  {
  }

  lemma {:induction false} LowerSplits(a: string, t: string)
    requires t == "" || t[0] < '\U{80}'
    ensures Lower(a + t) == Lower(a) + Lower(t)
    decreases |a|
  {
    hide Lower, LowerFirst;
    if a == "" {
      assert a + t == t && Lower("") == "" by { LowerNothing(); }
    } else {
      var n := LowerFirst(a).0;
      LowerStep(a);
      LowerStep(a + t);
      LowerFirstStays(a, t);
      assert (a + t)[n..] == a[n..] + t;
      LowerSplits(a[n..], t);
    }
  }

  lemma LowerNothing()
    ensures Lower("") == ""
  {
  }

  lemma {:induction false} ContainsAt(a: string, sub: string, b: string)
    ensures Contains(a + (sub + b), sub)
    decreases |a|
  {
    if a == "" {
      assert a + (sub + b) == sub + b && (sub + b)[..|sub|] == sub;
    } else {
      assert (a + (sub + b))[1..] == a[1..] + (sub + b);
      ContainsAt(a[1..], sub, b);
    }
  }

  lemma {:induction false} LowerAscii(s: string)
    requires Ascii(s)
    ensures |Lower(s)| == |s| && forall i :: 0 <= i < |s| ==> Lower(s)[i] == if 'A' <= s[i] <= 'Z' then s[i] + ' ' else s[i]
    decreases |s|
  {
    if s != "" {
      assert s[0] in s && forall c :: c in s[1..] ==> c in s;
      LowerAscii(s[1..]);
    }
  }

  lemma {:induction false} ContainedAt(s: string, sub: string) returns (k: nat)
    requires Contains(s, sub)
    ensures k + |sub| <= |s| && s[k..k + |sub|] == sub
    decreases |s|
  {
    if HasPrefix(s, sub) {
      k := 0;
    } else {
      var j := ContainedAt(s[1..], sub);
      k := j + 1;
    }
  }

  lemma MentionIs(s: string, sub: string)
    requires sub != "" && Ascii(sub) && forall c :: c in sub ==> !('A' <= c <= 'Z')
    ensures MentionsAnyCase(s, sub) ==> Contains(Lower(s), sub)
    ensures Ascii(s) && Contains(Lower(s), sub) ==> MentionsAnyCase(s, sub)
  {
    if MentionsAnyCase(s, sub) {
      var a, mid, b :| s == a + mid + b && InSomeCase(mid, sub);
      assert sub[0] in sub;
      assert s == a + (mid + b) && (mid + b)[0] == mid[0];
      LowerSplits(a, mid + b);
      LowerTail(mid, b, sub);
      assert Lower(s) == Lower(a) + Lower(mid + b);
      var rest := Lower(mid + b)[|sub|..];
      assert Lower(mid + b) == sub + rest;
      ContainsAt(Lower(a), sub, rest);
    }
    if Ascii(s) && Contains(Lower(s), sub) {
      var k := ContainedAt(Lower(s), sub);
      LowerAscii(s);
      forall i | 0 <= i < |sub| ensures Lower(s)[k + i] == sub[i] { assert Lower(s)[k..k + |sub|][i] == sub[i]; }
      assert InSomeCase(s[k..k + |sub|], sub);
      assert s == s[..k] + s[k..k + |sub|] + s[k + |sub|..];
    }
  }

  lemma {:induction false} LowerTail(mid: string, b: string, sub: string)
    requires InSomeCase(mid, sub) && Ascii(sub) && forall c :: c in sub ==> !('A' <= c <= 'Z')
    ensures HasPrefix(Lower(mid + b), sub)
    decreases |mid|
  {
    if mid != "" {
      assert sub[0] in sub && forall c :: c in sub[1..] ==> c in sub;
      assert forall i :: 0 <= i < |mid| - 1 ==> mid[1..][i] == mid[i + 1] && sub[1..][i] == sub[i + 1];
      LowerTail(mid[1..], b, sub[1..]);
      assert (mid + b)[1..] == mid[1..] + b;
      assert sub == [sub[0]] + sub[1..];
      var low := Lower(mid[1..] + b);
      assert ([sub[0]] + low)[..|sub|] == [sub[0]] + low[..|sub| - 1];
    }
  }

  /** A word names the environment when it mentions /proc or environ in whatever case, and a word of ASCII
      only then. */
  lemma EnvironmentNamed(s: string)
    ensures MentionsAnyCase(s, "/proc") || MentionsAnyCase(s, "environ") ==> NamesEnvironment(s)
    ensures Ascii(s) && NamesEnvironment(s) ==> MentionsAnyCase(s, "/proc") || MentionsAnyCase(s, "environ")
  {
    MentionIs(s, "/proc");
    MentionIs(s, "environ");
  }
}
