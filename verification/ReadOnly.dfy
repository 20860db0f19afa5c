/** Which commands are left without the delivery statement: those the lexer reads as simple
    commands of a closed set of utilities that only read and print. */
module ReadOnly {
  import opened Text
  import opened Lexer

  const UTILITIES: set<string> := {"cat", "date", "echo", "grep", "head", "ls", "pwd", "tail", "wc"}

  const DATE_OPTIONS: set<string> := {"-u", "--utc", "--universal", "-R", "--rfc-email", "-I", "--iso-8601"}

  /** Lower case, as far as ASCII letters come of it: the dotted capital I and the Kelvin sign are the
      only characters outside ASCII whose lower case is inside. The others are left as they are. */
  function Lower(s: string): string
    decreases |s|
  {
    if s == "" then ""
    else if ByteIn(s, 0, 0xC4, 0xC4) && ByteIn(s, 1, 0xB0, 0xB0) then "i" + Lower(s[2..])
    else if ByteIn(s, 0, 0xE2, 0xE2) && ByteIn(s, 1, 0x84, 0x84) && ByteIn(s, 2, 0xAA, 0xAA) then "k" + Lower(s[3..])
    else [if 'A' <= s[0] <= 'Z' then s[0] + ' ' else s[0]] + Lower(s[1..])
  }

  predicate Contains(s: string, sub: string) {
    HasPrefix(s, sub) || (s != "" && Contains(s[1..], sub))
  }

  predicate NamesEnvironment(s: string) {
    Contains(Lower(s), "/proc") || Contains(Lower(s), "environ")
  }

  predicate DateArg(w: Word) {
    HasPrefix(w.text, "+") || w.text in DATE_OPTIONS
  }

  /** A simple command that provably cannot use the identity. */
  predicate Harmless(words: seq<Word>) {
    && words != []
    && words[0].text in UTILITIES && !words[0].quoted
    && (forall i :: 1 <= i < |words| ==> !NamesEnvironment(words[i].text))
    && (words[0].text == "date" ==> forall i :: 1 <= i < |words| ==> DateArg(words[i]))
  }

  method DateArgs(args: seq<Word>) returns (ok: bool)
    ensures ok <==> forall i :: 0 <= i < |args| ==> DateArg(args[i])
  {
    for k := 0 to |args|
      invariant forall i :: 0 <= i < k ==> DateArg(args[i])
    {
      if HasPrefix(args[k].text, "+") || args[k].text in DATE_OPTIONS { continue; }
      return false;
    }
    return true;
  }

  method IsHarmless(words: seq<Word>) returns (ok: bool)
    requires words != []
    ensures ok <==> Harmless(words)
  {
    if words[0].text !in UTILITIES || words[0].quoted { return false; }
    for k := 1 to |words|
      invariant forall i :: 1 <= i < k ==> !NamesEnvironment(words[i].text)
    {
      if NamesEnvironment(words[k].text) { return false; }
    }
    if words[0].text == "date" {
      ok := DateArgs(words[1..]);
      assert forall i :: 1 <= i < |words| ==> words[i] == words[1..][i - 1];
      assert forall i :: 0 <= i < |words[1..]| ==> words[1..][i] == words[i + 1];
    } else {
      ok := true;
    }
  }

  ghost predicate AllHarmless(l: Line) {
    forall i :: 0 <= i < |Segments(l)| ==> Harmless(Segments(l)[i])
  }

  /** `command` is a line of the accepted language every segment of which is harmless. */
  ghost predicate NeedsNoIdentity(command: string) {
    exists l :: GoodLine(l) && Show(l) == command && AllHarmless(l)
  }

  /** Decides whether the delivery statement may be left off `command`. */
  method CannotUseIdentity(command: string) returns (skip: bool)
    ensures skip <==> NeedsNoIdentity(command)
  {
    hide GoodLine, Show, Segments, Harmless;
    var segments, ok := SplitSimpleCommands(command);
    NonEmpty(command);
    assert ok ==> |segments| > 0;
    NeedsMeans(command);
    if !ok || |segments| == 0 { return false; }
    for k := 0 to |segments|
      invariant forall i :: 0 <= i < k ==> Harmless(segments[i])
    {
      var h := IsHarmless(segments[k]);
      if !h { return false; }
    }
    return true;
  }

  lemma NeedsMeans(command: string)
    ensures NeedsNoIdentity(command) <==> exists l :: GoodLine(l) && Show(l) == command && AllHarmless(l)
  {
  }

  lemma NonEmpty(command: string)
    ensures forall l :: GoodLine(l) && Show(l) == command ==> Segments(l) != [] && forall i :: 0 <= i < |Segments(l)| ==> Segments(l)[i] != []
  {
    forall l | GoodLine(l) && Show(l) == command
      ensures Segments(l) != [] && forall i :: 0 <= i < |Segments(l)| ==> Segments(l)[i] != []
    {
      SegmentsNonEmpty(l);
    }
  }

  lemma {:induction false} SegmentsNonEmpty(l: Line)
    requires GoodLine(l)
    ensures Segments(l) != [] && forall i :: 0 <= i < |Segments(l)| ==> Segments(l)[i] != []
    decreases l
  {
    if l.Join? { SegmentsNonEmpty(l.rest); }
  }

  // -------------------------------------------------------------- printing and reading back

  predicate Quotable(words: seq<string>) {
    words != [] && forall i :: 0 <= i < |words| ==> '\'' !in words[i]
  }

  /** Words printed in single quotes, one blank between them. */
  function PrintWords(words: seq<string>): string {
    if words == [] then ""
    else "'" + words[0] + "'" + (if |words| == 1 then "" else " " + PrintWords(words[1..]))
  }

  /** Commands joined by `;`. */
  function PrintCommands(commands: seq<seq<string>>): string {
    if commands == [] then ""
    else PrintWords(commands[0]) + (if |commands| == 1 then "" else ";" + PrintCommands(commands[1..]))
  }

  function QuotedWords(words: seq<string>): seq<Word> {
    seq(|words|, i requires 0 <= i < |words| => Word(words[i], true))
  }

  function QuotedElements(words: seq<string>): seq<Element> {
    if words == [] then []
    else [Written([Single(words[0])])] + (if |words| == 1 then [] else [Blank(' ')] + QuotedElements(words[1..]))
  }

  lemma QuotedElement(w: string)
    requires '\'' !in w
    ensures GoodElement(Written([Single(w)])) && ShowElement(Written([Single(w)])) == "'" + w + "'"
    ensures WordOf([Single(w)]) == Word(w, true)
  {
    var ps := [Single(w)];
    var none: seq<Piece> := ps[1..];
    assert none == [];
    assert TextOf(none) == "" && ShowPieces(none) == "" && !AnyQuoted(none);
    assert w + TextOf(none) == w && ShowPiece(ps[0]) + ShowPieces(none) == "'" + w + "'";
  }

  lemma {:induction false} PrintedWords(words: seq<string>)
    requires Quotable(words)
    ensures GoodElements(QuotedElements(words))
    ensures QuotedElements(words) != [] && !QuotedElements(words)[0].Blank?
    ensures ShowElements(QuotedElements(words)) == PrintWords(words)
    ensures WordsOf(QuotedElements(words)) == QuotedWords(words)
  {
    hide GoodElement, WordOf, WordsOf, ShowElements, ShowElement;
    QuotedElement(words[0]);
    var e := Written([Single(words[0])]);
    NothingWritten();
    if |words| == 1 {
      assert QuotedElements(words) == [e] + [];
      ConsElement(e, []);
      assert ShowElement(e) + "" == PrintWords(words);
      assert [WordOf(e.pieces)] + [] == QuotedWords(words);
    } else {
      PrintedWords(words[1..]);
      var more := QuotedElements(words[1..]);
      BlankElement(more);
      ConsElement(e, [Blank(' ')] + more);
      assert QuotedElements(words) == [e] + ([Blank(' ')] + more);
      assert QuotedWords(words) == [Word(words[0], true)] + QuotedWords(words[1..]);
    }
  }

  lemma BlankElement(es: seq<Element>)
    ensures WordsOf([Blank(' ')] + es) == WordsOf(es) && ShowElements([Blank(' ')] + es) == " " + ShowElements(es)
    ensures GoodElement(Blank(' '))
  {
    ConsElement(Blank(' '), es);
  }

  function QuotedLine(commands: seq<seq<string>>): Line
    requires commands != []
  {
    if |commands| == 1 then Last(QuotedElements(commands[0]))
    else Join(QuotedElements(commands[0]), Semicolon, QuotedLine(commands[1..]))
  }

  function QuotedCommands(commands: seq<seq<string>>): seq<seq<Word>> {
    seq(|commands|, i requires 0 <= i < |commands| => QuotedWords(commands[i]))
  }

  lemma {:induction false} PrintedLine(commands: seq<seq<string>>)
    requires commands != [] && forall i :: 0 <= i < |commands| ==> Quotable(commands[i])
    ensures GoodLine(QuotedLine(commands)) && Show(QuotedLine(commands)) == PrintCommands(commands)
    ensures Segments(QuotedLine(commands)) == QuotedCommands(commands)
  {
    hide GoodElements, Quotable, QuotedWords, QuotedElements, PrintWords, WordsOf, ShowElements;
    PrintedWords(commands[0]);
    NotEmpty(commands[0]);
    if |commands| > 1 {
      PrintedLine(commands[1..]);
      assert QuotedCommands(commands) == [QuotedWords(commands[0])] + QuotedCommands(commands[1..]);
    }
  }

  lemma NotEmpty(words: seq<string>)
    requires Quotable(words)
    ensures QuotedWords(words) != []
  {
  }

  /** Any commands, printed quoted and joined by `;`, are read back as the same words. */
  lemma PrintedCommandsReadBack(commands: seq<seq<string>>)
    requires commands != [] && forall i :: 0 <= i < |commands| ==> Quotable(commands[i])
    ensures Lex(PrintCommands(commands), START) == Some(QuotedCommands(commands))
  {
    PrintedLine(commands);
    AcceptedExactly(PrintCommands(commands));
  }

  // -------------------------------------------------------------- what stands outside quotes

  /** The characters of `s` outside single and double quotes. */
  function Unquoted(s: string): string
    decreases |s|
  {
    if s == "" then ""
    else if s[0] == '\'' || s[0] == '"' then
      var n := Find(s[1..], s[0]);
      if n == |s| - 1 then "" else Unquoted(s[n + 2..])
    else [s[0]] + Unquoted(s[1..])
  }

  function Count(s: string, c: char): nat {
    if s == "" then 0 else (if s[0] == c then 1 else 0) + Count(s[1..], c)
  }

  function Discards(es: seq<Element>): nat {
    if es == [] then 0 else (if es[0].Discard? then 1 else 0) + Discards(es[1..])
  }

  function LineDiscards(l: Line): nat {
    Discards(l.cmd) + if l.Join? then LineDiscards(l.rest) else 0
  }

  predicate Inert(c: char) {
    (c >= ' ' || c == '\t') && c != '\U{7f}' && c !in "$`\\()<*?["
  }

  ghost predicate Outside(s: string, discards: nat) {
    (forall c :: c in s ==> Inert(c)) && Count(s, '>') == discards
  }

  lemma {:induction false} CountAppend(a: string, b: string, c: char)
    ensures Count(a + b, c) == Count(a, c) + Count(b, c)
  {
    if a == "" { assert a + b == b; }
    else {
      assert (a + b)[1..] == a[1..] + b;
      CountAppend(a[1..], b, c);
    }
  }

  lemma {:induction false} UnquotedPlain(a: string, b: string)
    requires '\'' !in a && '"' !in a
    ensures Unquoted(a + b) == a + Unquoted(b)
  {
    if a == "" { assert a + b == b; }
    else {
      assert (a + b)[1..] == a[1..] + b;
      UnquotedPlain(a[1..], b);
    }
  }

  lemma UnquotedPiece(p: Piece, rest: string)
    requires GoodPiece(p)
    ensures Unquoted(ShowPiece(p) + rest) == (if p.Bare? then [p.c] else "") + Unquoted(rest)
  {
    match p
    case Bare(c) => UnquotedPlain([c], rest);
    case Single(q) => Quoted(q, rest, '\'', ShowPiece(p) + rest);
    case Double(q) => Quoted(q, rest, '"', ShowPiece(p) + rest);
  }

  lemma {:induction false} OutsidePieces(ps: seq<Piece>, rest: string, n: nat)
    requires GoodPieces(ps) && Outside(Unquoted(rest), n)
    ensures Outside(Unquoted(ShowPieces(ps) + rest), n)
  {
    if ps == [] { assert ShowPieces(ps) + rest == rest; }
    else {
      assert ShowPieces(ps) + rest == ShowPiece(ps[0]) + (ShowPieces(ps[1..]) + rest);
      OutsidePieces(ps[1..], rest, n);
      UnquotedPiece(ps[0], ShowPieces(ps[1..]) + rest);
      var head := if ps[0].Bare? then [ps[0].c] else "";
      CountAppend(head, Unquoted(ShowPieces(ps[1..]) + rest), '>');
    }
  }

  lemma {:induction false} OutsideElements(es: seq<Element>, rest: string, n: nat)
    requires GoodElements(es) && Outside(Unquoted(rest), n)
    ensures Outside(Unquoted(ShowElements(es) + rest), Discards(es) + n)
  {
    if es == [] { assert ShowElements(es) + rest == rest; }
    else {
      var tail := ShowElements(es[1..]) + rest;
      assert ShowElements(es) + rest == ShowElement(es[0]) + tail;
      OutsideElements(es[1..], rest, n);
      OutsideElement(es[0], tail, Discards(es[1..]) + n);
    }
  }

  lemma OutsideElement(e: Element, tail: string, n: nat)
    requires GoodElement(e) && Outside(Unquoted(tail), n)
    ensures Outside(Unquoted(ShowElement(e) + tail), (if e.Discard? then 1 else 0) + n)
  {
    hide Inert, BareChar;
    match e {
      case Blank(c) =>
        BlankIsInert(c);
        UnquotedPlain([c], tail);
        CountAppend([c], Unquoted(tail), '>');
      case Discard(r) =>
        DiscardIsInert(r);
        UnquotedPlain(r, tail);
        OneArrow(r);
        CountAppend(r, Unquoted(tail), '>');
      case Written(ps) =>
        OutsidePieces(ps, tail, n);
    }
  }

  lemma OneArrow(r: string)
    requires r in DISCARDS
    ensures Count(r, '>') == 1
  {
    hide Count;
    assert "2" + ">" + "/dev/null" == "2>/dev/null" && "" + ">" + "/dev/null" == ">/dev/null" && "2" + ">" + "&1" == "2>&1";
    OneArrowIn("2", "/dev/null");
    OneArrowIn("", "/dev/null");
    OneArrowIn("2", "&1");
  }

  lemma BlankIsInert(c: char)
    requires c == ' ' || c == '\t'
    ensures Inert(c)
  {
  }

  lemma DiscardIsInert(r: string)
    requires r in DISCARDS
    ensures '\'' !in r && '"' !in r && forall c :: c in r ==> Inert(c)
  {
    assert forall i :: 0 <= i < |r| ==> Inert(r[i]) && r[i] != '\'' && r[i] != '"';
  }

  lemma OneArrowIn(before: string, after: string)
    requires '>' !in before && '>' !in after
    ensures Count(before + ">" + after, '>') == 1
  {
    CountAppend(before + ">", after, '>');
    CountAppend(before, ">", '>');
    NoneCounted(before, '>');
    NoneCounted(after, '>');
  }

  lemma {:induction false} NoneCounted(s: string, c: char)
    requires c !in s
    ensures Count(s, c) == 0
  {
    if s != "" { NoneCounted(s[1..], c); }
  }

  lemma OutsideOperator(op: Operator, rest: string, n: nat)
    requires Outside(Unquoted(rest), n)
    ensures Outside(Unquoted(ShowOperator(op) + rest), n)
  {
    hide Unquoted, Count;
    UnquotedPlain(ShowOperator(op), rest);
    CountAppend(ShowOperator(op), Unquoted(rest), '>');
    NoneCounted(ShowOperator(op), '>');
  }

  /** Outside quotes an accepted command has nothing the shell would expand, no control character
      but tabs, and no `>` except the one of each discard redirection. */
  lemma {:induction false} NothingActiveOutsideQuotes(l: Line)
    requires GoodLine(l)
    ensures Outside(Unquoted(Show(l)), LineDiscards(l))
    decreases l
  {
    hide Outside, Unquoted, GoodElements, ShowElements, WordsOf, Discards, ShowOperator;
    if l.Last? {
      OutsideNothing();
      OutsideElements(l.cmd, "", 0);
      assert ShowElements(l.cmd) + "" == Show(l);
    } else {
      NothingActiveOutsideQuotes(l.rest);
      OutsideOperator(l.op, Show(l.rest), LineDiscards(l.rest));
      OutsideElements(l.cmd, ShowOperator(l.op) + Show(l.rest), LineDiscards(l.rest));
      assert ShowElements(l.cmd) + (ShowOperator(l.op) + Show(l.rest)) == Show(l);
    }
  }

  lemma OutsideNothing()
    ensures Outside(Unquoted(""), 0)
  {
  }
}
