/** The hand-written shell lexer that decides whether a command provably cannot use the
    delivered identity, against a grammar of the commands it admits. */
module Lexer {
  import opened Text

  /** One word of a command with its quotes removed. */
  datatype Word = Word(text: string, quoted: bool)

  // -------------------------------------------------------------- the grammar

  const DISCARDS: seq<string> := ["2>/dev/null", ">/dev/null", "2>&1"]

  /** A word is written as a run of pieces: bare characters and quoted strings. */
  datatype Piece = Bare(c: char) | Single(s: string) | Double(s: string)

  datatype Element = Blank(c: char) | Discard(r: string) | Written(pieces: seq<Piece>)

  datatype Operator = Semicolon | Pipe | And | Or

  /** Simple commands joined by operators. */
  datatype Line = Last(cmd: seq<Element>) | Join(cmd: seq<Element>, op: Operator, rest: Line)

  predicate BareChar(c: char) {
    && c >= ' ' && c != '\U{7f}'
    && c !in " '\";|&$`\\()<>*?["
  }

  predicate GoodPiece(p: Piece) {
    match p
    case Bare(c) => BareChar(c)
    case Single(s) => '\'' !in s
    case Double(s) => '"' !in s && '$' !in s && '`' !in s && '\\' !in s
  }

  predicate GoodElement(e: Element) {
    match e
    case Blank(c) => c == ' ' || c == '\t'
    case Discard(r) => r in DISCARDS
    case Written(ps) => |ps| > 0 && ps[0] != Bare('#') && GoodPieces(ps)
  }

  /** Words and redirections are followed by a blank, an operator or the end. */
  predicate GoodElements(es: seq<Element>) {
    && (forall i :: 0 <= i < |es| ==> GoodElement(es[i]))
    && (forall i :: 0 <= i < |es| - 1 && !es[i].Blank? ==> es[i + 1].Blank?)
  }

  function WordsOf(es: seq<Element>): seq<Word> {
    if es == [] then []
    else (if es[0].Written? then [WordOf(es[0].pieces)] else []) + WordsOf(es[1..])
  }

  function WordOf(ps: seq<Piece>): Word {
    Word(TextOf(ps), AnyQuoted(ps))
  }

  predicate AnyQuoted(ps: seq<Piece>) {
    ps != [] && (!ps[0].Bare? || AnyQuoted(ps[1..]))
  }

  function TextOf(ps: seq<Piece>): string {
    if ps == [] then ""
    else (match ps[0] case Bare(c) => [c] case Single(s) => s case Double(s) => s) + TextOf(ps[1..])
  }

  predicate GoodLine(l: Line) {
    && GoodElements(l.cmd)
    && WordsOf(l.cmd) != []
    && (l.Join? ==> GoodLine(l.rest))
  }

  /** The simple commands of a line, each as its list of words. */
  function Segments(l: Line): seq<seq<Word>> {
    match l
    case Last(cmd) => [WordsOf(cmd)]
    case Join(cmd, _, rest) => [WordsOf(cmd)] + Segments(rest)
  }

  function ShowPiece(p: Piece): string {
    match p
    case Bare(c) => [c]
    case Single(s) => "'" + s + "'"
    case Double(s) => "\"" + s + "\""
  }

  function ShowPieces(ps: seq<Piece>): string {
    if ps == [] then "" else ShowPiece(ps[0]) + ShowPieces(ps[1..])
  }

  function ShowElements(es: seq<Element>): string {
    if es == [] then ""
    else ShowElement(es[0]) + ShowElements(es[1..])
  }

  function ShowOperator(op: Operator): string {
    match op case Semicolon => ";" case Pipe => "|" case And => "&&" case Or => "||"
  }

  /** The text of a line. */
  function Show(l: Line): string {
    match l
    case Last(cmd) => ShowElements(cmd)
    case Join(cmd, op, rest) => ShowElements(cmd) + ShowOperator(op) + Show(rest)
  }

  // -------------------------------------------------------------- the scanner

  /** The scanner's variables: the words of the command so far and the word being read. */
  datatype Scan = Scan(segments: seq<seq<Word>>, words: seq<Word>, text: string, inWord: bool, quoted: bool)

  const START := Scan([], [], "", false, false)

  function Current(st: Scan): Scan {
    Scan(st.segments, if st.inWord then st.words + [Word(st.text, st.quoted)] else st.words, "", false, false)
  }

  function EndCommand(st: Scan): Option<Scan> {
    var c := Current(st);
    if c.words == [] then None else Some(c.(segments := c.segments + [c.words], words := []))
  }

  predicate EndsWord(s: string) {
    s == "" || s[0] in " \t;|&"
  }

  predicate Discards(s: string, r: string) {
    HasPrefix(s, r) && EndsWord(s[|r|..])
  }

  /** The length of the discard redirection that opens `s` as a whole word, or 0. */
  function DiscardAt(s: string): nat {
    if Discards(s, DISCARDS[0]) then |DISCARDS[0]|
    else if Discards(s, DISCARDS[1]) then |DISCARDS[1]|
    else if Discards(s, DISCARDS[2]) then |DISCARDS[2]|
    else 0
  }

  /** The offset of the first `c` in `s`, or |s|. */
  function Find(s: string, c: char): (n: nat)
    ensures n <= |s| && c !in s[..n] && (n < |s| ==> s[n] == c)
  {
    if s == "" || s[0] == c then 0 else
      var n := Find(s[1..], c);
      assert s[..n + 1] == [s[0]] + s[1..][..n];
      n + 1
  }

  /** The text between the quote that opens `s` and the one that closes it; none when it is not
      closed, or when a double-quoted text holds a character the shell would expand. */
  function Quote(s: string): (q: Option<string>)
    requires s != ""
    ensures q.Some? ==> |q.value| + 2 <= |s|
  {
    var n := Find(s[1..], s[0]);
    if n == |s| - 1 || (s[0] == '"' && !GoodPiece(Double(s[1..][..n]))) then None else Some(s[1..][..n])
  }

  /** One step of the scan: how much of `s` it consumes and the scan after it. */
  function Step(s: string, st: Scan): (r: Option<(nat, Scan)>)
    requires s != ""
    ensures r.Some? ==> 0 < r.value.0 <= |s|
  {
    var c := s[0];
    if !st.inWord && DiscardAt(s) > 0 then Some((DiscardAt(s), st))
    else if c == ' ' || c == '\t' then Some((1, Current(st)))
    else if c == '\'' || c == '"' then
      var q := Quote(s);
      if q.None? then None
      else Some((|q.value| + 2, st.(text := st.text + q.value, inWord := true, quoted := true)))
    else if c == ';' || c == '|' || c == '&' then
      var op := OperatorAt(s);
      var e := EndCommand(st);
      if op == 0 || e.None? then None else Some((op, e.value))
    else if !BareChar(c) || (c == '#' && !st.inWord) then None
    else Some((1, st.(text := st.text + [c], inWord := true)))
  }

  /** The length of the operator that opens `s`, or 0 for a background `&` and for `|&`. */
  function OperatorAt(s: string): (n: nat)
    requires s != ""
    ensures n <= |s|
  {
    if s[0] == ';' then 1
    else if s[0] == '|' then
      if |s| > 1 && s[1] == '|' then 2 else if |s| > 1 && s[1] == '&' then 0 else 1
    else if s[0] == '&' && |s| > 1 && s[1] == '&' then 2
    else 0
  }

  /** What the scanner makes of the rest `s` of a command. */
  function Lex(s: string, st: Scan): Option<seq<seq<Word>>>
    decreases |s|
  {
    if s == "" then
      var e := EndCommand(st);
      if e.None? then None else Some(e.value.segments)
    else
      var r := Step(s, st);
      if r.None? then None else Lex(s[r.value.0..], r.value.1)
  }

  // -------------------------------------------------------------- every line of the grammar is accepted

  lemma PrefixAt(s: string, r: string, i: nat)
    requires i < |r|
    ensures HasPrefix(s, r) ==> i < |s| && s[i] == r[i]
  {
    if HasPrefix(s, r) { assert s[..|r|][i] == r[i]; }
  }

  /** A word does not open with a redirection: its second character is never `>`. */
  lemma NoDiscard(s: string)
    requires s != "" && s[0] != '>' && (|s| > 1 ==> s[1] != '>')
    ensures DiscardAt(s) == 0
  {
    PrefixAt(s, DISCARDS[0], 1);
    PrefixAt(s, DISCARDS[1], 0);
    PrefixAt(s, DISCARDS[2], 1);
  }

  function Add(st: Scan, p: Piece): Scan {
    match p
    case Bare(c) => st.(text := st.text + [c], inWord := true)
    case Single(s) => st.(text := st.text + s, inWord := true, quoted := true)
    case Double(s) => st.(text := st.text + s, inWord := true, quoted := true)
  }

  lemma StepPiece(p: Piece, tail: string, st: Scan)
    requires GoodPiece(p) && (st.inWord || (p != Bare('#') && (tail != "" ==> tail[0] != '>')))
    ensures Step(ShowPiece(p) + tail, st) == Some((|ShowPiece(p)|, Add(st, p)))
  {
    hide DiscardAt, Find;
    var s := ShowPiece(p) + tail;
    match p {
      case Bare(c) =>
        if !st.inWord { NoDiscard(s); }
      case Single(q) =>
        NoDiscardQuote(s);
        Quoted(q, tail, '\'', s);
      case Double(q) =>
        NoDiscardQuote(s);
        Quoted(q, tail, '"', s);
    }
  }

  lemma NoDiscardQuote(s: string)
    requires s != "" && (s[0] == '\'' || s[0] == '"')
    ensures DiscardAt(s) == 0
  {
    PrefixAt(s, DISCARDS[0], 0);
    PrefixAt(s, DISCARDS[1], 0);
    PrefixAt(s, DISCARDS[2], 0);
  }

  lemma Quoted(q: string, tail: string, c: char, s: string)
    requires c !in q && s == [c] + q + [c] + tail
    ensures Find(s[1..], c) == |q| && s[1..][..|q|] == q && s[|q| + 2..] == tail
  {
    assert s[1..][|q|] == c;
    assert forall i :: 0 <= i < |q| ==> s[1..][i] == q[i];
    FindIs(s[1..], c, |q|);
  }

  lemma {:induction false} FindIs(s: string, c: char, n: nat)
    requires n < |s| && s[n] == c && forall i :: 0 <= i < n ==> s[i] != c
    ensures Find(s, c) == n
  {
    if n > 0 { FindIs(s[1..], c, n - 1); }
  }

  lemma LexEnd(st: Scan)
    ensures Lex("", st) == if EndCommand(st).None? then None else Some(EndCommand(st).value.segments)
  {
  }

  lemma LexStep(s: string, st: Scan)
    requires s != ""
    ensures Lex(s, st) == if Step(s, st).None? then None else Lex(s[Step(s, st).value.0..], Step(s, st).value.1)
  {
  }

  lemma DiscardFacts(s: string)
    ensures DiscardAt(s) > 0 ==> DiscardAt(s) <= |s| && s[..DiscardAt(s)] in DISCARDS && EndsWord(s[DiscardAt(s)..])
  {
    assert DISCARDS[0] in DISCARDS && DISCARDS[1] in DISCARDS && DISCARDS[2] in DISCARDS;
  }

  /** One step, then the rest. */
  lemma LexAfter(head: string, tail: string, st: Scan, st': Scan)
    requires head != "" && Step(head + tail, st) == Some((|head|, st'))
    ensures Lex(head + tail, st) == Lex(tail, st')
  {
    assert (head + tail)[|head|..] == tail;
  }

  /** The scan after a run of pieces. */
  function AddAll(st: Scan, ps: seq<Piece>): Scan {
    st.(text := st.text + TextOf(ps), inWord := true, quoted := st.quoted || AnyQuoted(ps))
  }

  lemma AddAllCons(st: Scan, ps: seq<Piece>)
    requires ps != []
    ensures AddAll(Add(st, ps[0]), ps[1..]) == AddAll(st, ps)
  {
    assert Add(st, ps[0]).text + TextOf(ps[1..]) == st.text + TextOf(ps);
  }

  predicate GoodPieces(ps: seq<Piece>) {
    forall i :: 0 <= i < |ps| ==> GoodPiece(ps[i])
  }

  lemma FollowsPiece(ps: seq<Piece>, rest: string)
    requires GoodPieces(ps) && EndsWord(rest)
    ensures var tail := ShowPieces(ps) + rest; tail != "" ==> tail[0] != '>'
  {
    if ps != [] { assert (ShowPieces(ps) + rest)[0] == ShowPiece(ps[0])[0]; }
    else { assert ShowPieces(ps) + rest == rest; }
  }

  lemma {:induction false} LexPieces(ps: seq<Piece>, rest: string, st: Scan)
    requires GoodPieces(ps)
    requires st.inWord || (ps != [] && ps[0] != Bare('#'))
    requires EndsWord(rest)
    ensures Lex(ShowPieces(ps) + rest, st) == Lex(rest, AddAll(st, ps))
  {
    hide Lex, Step, ShowPiece, EndsWord, GoodPiece;
    if ps == [] {
      assert ShowPieces(ps) + rest == rest && AddAll(st, ps) == st;
    } else {
      var tail := ShowPieces(ps[1..]) + rest;
      assert ShowPieces(ps) + rest == ShowPiece(ps[0]) + tail;
      FollowsPiece(ps[1..], rest);
      StepPiece(ps[0], tail, st);
      LexAfter(ShowPiece(ps[0]), tail, st, Add(st, ps[0]));
      LexPieces(ps[1..], rest, Add(st, ps[0]));
      AddAllCons(st, ps);
    }
  }

  // ---- elements

  function AddElement(st: Scan, e: Element): Scan {
    match e
    case Blank(_) => Current(st)
    case Discard(_) => st
    case Written(ps) => AddAll(st, ps)
  }

  function ShowElement(e: Element): string {
    match e case Blank(c) => [c] case Discard(r) => r case Written(ps) => ShowPieces(ps)
  }

  lemma LexElement(e: Element, rest: string, st: Scan)
    requires GoodElement(e) && (e.Blank? || (!st.inWord && EndsWord(rest)))
    requires !st.inWord ==> st.text == "" && !st.quoted
    ensures Lex(ShowElement(e) + rest, st) == Lex(rest, AddElement(st, e))
  {
    match e {
      case Blank(c) =>
        if !st.inWord {
          PrefixAt([c] + rest, DISCARDS[0], 0);
          PrefixAt([c] + rest, DISCARDS[1], 0);
          PrefixAt([c] + rest, DISCARDS[2], 0);
        }
        LexAfter([c], rest, st, Current(st));
      case Discard(r) =>
        StepDiscard(r, rest);
        LexAfter(r, rest, st, st);
      case Written(ps) =>
        LexPieces(ps, rest, st);
    }
  }

  lemma StepDiscard(r: string, rest: string)
    requires r in DISCARDS && EndsWord(rest)
    ensures DiscardAt(r + rest) == |r|
  {
    var s := r + rest;
    assert s[|r|..] == rest && s[..|r|] == r;
    PrefixAt(s, DISCARDS[0], 0);
    PrefixAt(s, DISCARDS[1], 0);
    PrefixAt(s, DISCARDS[0], 2);
  }

  /** Between words the scan carries no text. */
  predicate Clean(st: Scan) {
    !st.inWord ==> st.text == "" && !st.quoted
  }

  /** Only a blank or nothing may follow a word that is still open. */
  predicate Separated(es: seq<Element>) {
    es == [] || es[0].Blank?
  }

  lemma ElementOpening(e: Element)
    requires GoodElement(e)
    ensures ShowElement(e) != "" && ShowElement(e)[0] !in ";|&"
    ensures !e.Blank? ==> ShowElement(e)[0] !in " \t;|&"
  {
    if e.Written? { assert ShowPieces(e.pieces)[0] == ShowPiece(e.pieces[0])[0]; }
  }

  lemma AfterElement(es: seq<Element>, rest: string)
    requires GoodElements(es) && Separated(es) && EndsWord(rest)
    ensures EndsWord(ShowElements(es) + rest)
  {
    if es == [] { assert ShowElements(es) + rest == rest; }
    else { assert (ShowElements(es) + rest)[0] == es[0].c; }
  }

  lemma WordsGrow(st: Scan, es: seq<Element>)
    requires es != [] && Clean(st) && (st.inWord ==> es[0].Blank?)
    ensures Current(AddElement(st, es[0])).words + WordsOf(es[1..]) == Current(st).words + WordsOf(es)
  {
    if es[0].Written? { assert "" + TextOf(es[0].pieces) == TextOf(es[0].pieces); }
  }

  lemma LexHead(es: seq<Element>, rest: string, st: Scan)
    requires es != [] && GoodElements(es) && Clean(st) && (st.inWord ==> Separated(es)) && EndsWord(rest)
    ensures Lex(ShowElements(es) + rest, st) == Lex(ShowElements(es[1..]) + rest, AddElement(st, es[0]))
    ensures Clean(AddElement(st, es[0])) && (AddElement(st, es[0]).inWord ==> Separated(es[1..]))
    ensures GoodElements(es[1..])
  {
    hide Lex, GoodElement, EndsWord, ShowElement;
    assert ShowElements(es) + rest == ShowElement(es[0]) + (ShowElements(es[1..]) + rest);
    if !es[0].Blank? { AfterElement(es[1..], rest); }
    LexElement(es[0], ShowElements(es[1..]) + rest, st);
  }

  lemma {:induction false} LexElements(es: seq<Element>, rest: string, st: Scan) returns (st': Scan)
    requires GoodElements(es) && Clean(st) && (st.inWord ==> Separated(es)) && EndsWord(rest)
    ensures Lex(ShowElements(es) + rest, st) == Lex(rest, st')
    ensures Clean(st') && st'.segments == st.segments
    ensures Current(st').words == Current(st).words + WordsOf(es)
  {
    hide Lex, GoodElements, EndsWord;
    if es == [] {
      assert ShowElements(es) + rest == rest;
      return st;
    }
    LexHead(es, rest, st);
    st' := LexElements(es[1..], rest, AddElement(st, es[0]));
    WordsGrow(st, es);
  }

  lemma OperatorReads(op: Operator, l: Line)
    requires GoodLine(l)
    ensures OperatorAt(ShowOperator(op) + Show(l)) == |ShowOperator(op)|
  {
    ElementOpening(l.cmd[0]);
    assert Show(l) != "" && Show(l)[0] == ShowElement(l.cmd[0])[0];
  }

  lemma NoDiscardOperator(s: string)
    requires s != "" && s[0] in ";|&"
    ensures DiscardAt(s) == 0
  {
    PrefixAt(s, DISCARDS[0], 0);
    PrefixAt(s, DISCARDS[1], 0);
    PrefixAt(s, DISCARDS[2], 0);
  }

  lemma LexOperator(op: Operator, rest: string, st: Scan)
    requires OperatorAt(ShowOperator(op) + rest) == |ShowOperator(op)|
    requires EndCommand(st).Some?
    ensures Lex(ShowOperator(op) + rest, st) == Lex(rest, EndCommand(st).value)
  {
    NoDiscardOperator(ShowOperator(op) + rest);
    LexAfter(ShowOperator(op), rest, st, EndCommand(st).value);
  }

  /** The scanner reads back every line of the grammar. */
  lemma {:induction false} LexLine(l: Line, st: Scan)
    requires GoodLine(l) && Clean(st) && !st.inWord && st.words == []
    ensures Lex(Show(l), st) == Some(st.segments + Segments(l))
    decreases l
  {
    hide Lex, GoodElements, OperatorAt, WordsOf, ShowElements;
    assert Current(st).words + WordsOf(l.cmd) == WordsOf(l.cmd);
    if l.Last? {
      assert Show(l) == ShowElements(l.cmd) + "";
      var st' := LexElements(l.cmd, "", st);
      assert Current(st').words == WordsOf(l.cmd);
      LexEnd(st');
    } else {
      var tail := ShowOperator(l.op) + Show(l.rest);
      assert Show(l) == ShowElements(l.cmd) + tail;
      var st' := LexElements(l.cmd, tail, st);
      assert Current(st').words == WordsOf(l.cmd);
      OperatorReads(l.op, l.rest);
      LexOperator(l.op, Show(l.rest), st');
      var next := EndCommand(st').value;
      LexLine(l.rest, next);
      assert next.segments + Segments(l.rest) == st.segments + Segments(l);
    }
  }

  // -------------------------------------------------------------- only lines of the grammar are accepted

  function Extend(st: Scan, ps: seq<Piece>): Scan {
    if ps == [] then st else AddAll(st, ps)
  }

  function AsElement(ps: seq<Piece>): seq<Element> {
    if ps == [] then [] else [Written(ps)]
  }

  function LaterSegments(l: Line): seq<seq<Word>> {
    if l.Join? then Segments(l.rest) else []
  }

  /** The words of the simple command that `st`, `ps` and `es` make up. */
  function CommandWords(st: Scan, ps: seq<Piece>, es: seq<Element>): seq<Word> {
    Current(Extend(st, ps)).words + WordsOf(es)
  }

  /** The rest `s` of a command is written as the rest `ps` of the open word, then `l`. */
  ghost predicate AsWritten(s: string, inWord: bool, ps: seq<Piece>, l: Line) {
    && s == ShowPieces(ps) + Show(l)
    && GoodPieces(ps) && GoodElements(l.cmd)
    && (!inWord && ps != [] ==> ps[0] != Bare('#'))
    && (inWord || ps != [] ==> Separated(l.cmd))
    && (l.Join? ==> GoodLine(l.rest))
  }

  /** ... and that is what the scanner makes of it. */
  ghost predicate Reads(s: string, st: Scan, ps: seq<Piece>, l: Line) {
    && AsWritten(s, st.inWord, ps, l)
    && CommandWords(st, ps, l.cmd) != []
    && Lex(s, st) == Some(st.segments + [CommandWords(st, ps, l.cmd)] + LaterSegments(l))
  }

  function Prepend(es: seq<Element>, l: Line): Line {
    match l
    case Last(cmd) => Last(es + cmd)
    case Join(cmd, op, rest) => Join(es + cmd, op, rest)
  }

  lemma ConsElement(e: Element, es: seq<Element>)
    ensures WordsOf([e] + es) == (if e.Written? then [WordOf(e.pieces)] else []) + WordsOf(es)
    ensures ShowElements([e] + es) == ShowElement(e) + ShowElements(es)
  {
    assert ([e] + es)[1..] == es;
  }

  lemma ShowPrepend(e: Element, l: Line)
    ensures Show(Prepend([e], l)) == ShowElement(e) + Show(l)
    ensures WordsOf(Prepend([e], l).cmd) == WordsOf([e]) + WordsOf(l.cmd)
    ensures LaterSegments(Prepend([e], l)) == LaterSegments(l)
  {
    hide ShowElements, ShowElement, WordsOf, WordOf;
    ConsElement(e, l.cmd);
    ConsElement(e, []);
    NothingWritten();
    assert [e] + [] == [e];
  }

  /** A word read to its end becomes an element of the line. */
  lemma CloseWord(ps: seq<Piece>, l: Line)
    requires GoodPieces(ps) && GoodElements(l.cmd) && (ps != [] ==> ps[0] != Bare('#') && Separated(l.cmd))
    ensures GoodElements(Prepend(AsElement(ps), l).cmd)
    ensures Show(Prepend(AsElement(ps), l)) == ShowPieces(ps) + Show(l)
    ensures WordsOf(Prepend(AsElement(ps), l).cmd) == (if ps == [] then [] else [WordOf(ps)]) + WordsOf(l.cmd)
    ensures LaterSegments(Prepend(AsElement(ps), l)) == LaterSegments(l)
  {
    if ps == [] {
      assert Prepend([], l) == l && ShowPieces(ps) + Show(l) == Show(l);
    } else {
      ShowPrepend(Written(ps), l);
    }
  }

  lemma {:induction false} Sound(s: string, st: Scan) returns (ps: seq<Piece>, l: Line)
    requires Clean(st) && Lex(s, st).Some?
    ensures Reads(s, st, ps, l)
    decreases |s|
  {
    hide Lex, DiscardAt, WordsOf;
    if s == "" {
      ps, l := [], Last([]);
      LexEnd(st);
      NothingWritten();
      assert Current(st).words + [] == Current(st).words;
      assert st.segments + [Current(st).words] + [] == st.segments + [Current(st).words];
      return;
    }
    hide Reads;
    LexStep(s, st);
    var n, next := Step(s, st).value.0, Step(s, st).value.1;
    var ps', l' := Sound(s[n..], next);
    if !st.inWord && DiscardAt(s) > 0 {
      ps, l := ReadsDiscard(s, st, ps', l');
    } else if s[0] == ' ' || s[0] == '\t' {
      ps, l := ReadsBlank(s, st, ps', l');
    } else if s[0] in ";|&" {
      ps, l := ReadsOperator(s, st, ps', l');
    } else {
      ps, l := ReadsPiece(s, st, ps', l');
    }
  }

  lemma ReadsDiscard(s: string, st: Scan, ps': seq<Piece>, l': Line) returns (ps: seq<Piece>, l: Line)
    requires s != "" && !st.inWord && DiscardAt(s) > 0 && Lex(s, st) == Lex(s[DiscardAt(s)..], st)
    requires Reads(s[DiscardAt(s)..], st, ps', l')
    ensures Reads(s, st, ps, l)
  {
    hide Lex, DiscardAt, AsWritten, CommandWords, LaterSegments;
    l := SoundDiscard(s, ps', l');
    ps := [];
    SameWords(st, l', l);
  }

  lemma ReadsBlank(s: string, st: Scan, ps': seq<Piece>, l': Line) returns (ps: seq<Piece>, l: Line)
    requires s != "" && (s[0] == ' ' || s[0] == '\t') && Lex(s, st) == Lex(s[1..], Current(st))
    requires Reads(s[1..], Current(st), ps', l')
    ensures Reads(s, st, ps, l)
  {
    hide Lex, AsWritten, CommandWords, LaterSegments;
    l := SoundBlank(s, ps', l');
    ps := [];
    BlankWords(st, ps', l'.cmd, l.cmd);
    WeakenWritten(s, st.inWord, l);
  }

  lemma ReadsOperator(s: string, st: Scan, ps': seq<Piece>, l': Line) returns (ps: seq<Piece>, l: Line)
    requires s != "" && s[0] in ";|&" && OperatorAt(s) > 0 && EndCommand(st).Some? && Clean(st)
    requires Lex(s, st) == Lex(s[OperatorAt(s)..], EndCommand(st).value)
    requires Reads(s[OperatorAt(s)..], EndCommand(st).value, ps', l')
    ensures Reads(s, st, ps, l)
  {
    hide Lex, AsWritten, CommandWords, LaterSegments, OperatorAt;
    OperatorRestWords(st, ps', l'.cmd);
    l := SoundOperator(s, ps', l');
    ps := [];
    OperatorWords(st, ps', l', l);
    WeakenWritten(s, st.inWord, l);
  }

  lemma ReadsPiece(s: string, st: Scan, ps': seq<Piece>, l': Line) returns (ps: seq<Piece>, l: Line)
    requires s != "" && s[0] !in " \t;|&" && Step(s, st).Some? && (st.inWord || DiscardAt(s) == 0)
    requires Lex(s, st) == Lex(s[Step(s, st).value.0..], Step(s, st).value.1)
    requires Reads(s[Step(s, st).value.0..], Step(s, st).value.1, ps', l')
    ensures Reads(s, st, ps, l)
  {
    hide Lex, AsWritten, Extend, LaterSegments, DiscardAt, WordsOf;
    var p := SoundPiece(s, st, ps', l');
    ps, l := [p] + ps', l';
    PieceWords(st, p, ps');
  }

  lemma WeakenWritten(s: string, inWord: bool, l: Line)
    requires AsWritten(s, true, [], l)
    ensures AsWritten(s, inWord, [], l)
  {
  }

  lemma OperatorRestWords(st: Scan, ps': seq<Piece>, es': seq<Element>)
    requires Clean(st) && EndCommand(st).Some?
    ensures CommandWords(EndCommand(st).value, ps', es') == (if ps' == [] then [] else [WordOf(ps')]) + WordsOf(es')
  {
    hide WordsOf;
    ExtendedWords(EndCommand(st).value, ps');
  }

  lemma NoWords(e: Element)
    requires !e.Written?
    ensures WordsOf([e]) == []
  {
    assert [e][1..] == [];
  }

  lemma NothingWritten()
    ensures WordsOf([]) == [] && ShowElements([]) == ""
  {
  }

  lemma PiecesOpening(ps: seq<Piece>, rest: string)
    requires ps != [] && GoodPieces(ps)
    ensures !EndsWord(ShowPieces(ps) + rest)
  {
    assert (ShowPieces(ps) + rest)[0] == ShowPiece(ps[0])[0];
  }

  // ---- what each step adds to the text

  lemma SoundDiscard(s: string, ps': seq<Piece>, l': Line) returns (l: Line)
    requires DiscardAt(s) > 0 && AsWritten(s[DiscardAt(s)..], false, ps', l')
    ensures ps' == [] && AsWritten(s, false, [], l)
    ensures WordsOf(l.cmd) == WordsOf(l'.cmd) && LaterSegments(l) == LaterSegments(l')
  {
    hide DiscardAt, ShowElements, WordsOf, Segments, GoodLine, Show, EndsWord;
    DiscardFacts(s);
    var n := DiscardAt(s);
    var r := s[..n];
    OpensSeparated(s[n..], ps', l');
    l := Prepend([Discard(r)], l');
    ShowPrepend(Discard(r), l');
    NoWords(Discard(r));
    assert [] + WordsOf(l'.cmd) == WordsOf(l'.cmd);
    assert s == r + s[n..] && ShowPieces([]) + Show(l) == Show(l) && ShowPieces([]) + Show(l') == Show(l');
  }

  /** A rest that opens with a blank, an operator or the end opens with no word and no redirection. */
  lemma OpensSeparated(s: string, ps: seq<Piece>, l: Line)
    requires EndsWord(s) && AsWritten(s, false, ps, l)
    ensures ps == [] && Separated(l.cmd)
  {
    if ps != [] {
      PiecesOpening(ps, Show(l));
      assert false;
    }
    assert s == Show(l);
    if l.cmd != [] {
      ElementOpening(l.cmd[0]);
      assert s[0] == ShowElement(l.cmd[0])[0];
    }
  }

  lemma SoundBlank(s: string, ps': seq<Piece>, l': Line) returns (l: Line)
    requires s != "" && (s[0] == ' ' || s[0] == '\t') && AsWritten(s[1..], false, ps', l')
    ensures AsWritten(s, true, [], l) && LaterSegments(l) == LaterSegments(l')
    ensures WordsOf(l.cmd) == (if ps' == [] then [] else [WordOf(ps')]) + WordsOf(l'.cmd)
  {
    hide ShowElements, TextOf, AnyQuoted, WordsOf, Show;
    var m := Prepend(AsElement(ps'), l');
    CloseWord(ps', l');
    l := Prepend([Blank(s[0])], m);
    ShowPrepend(Blank(s[0]), m);
    NoWords(Blank(s[0]));
    assert s == [s[0]] + s[1..] && ShowPieces([]) + Show(l) == Show(l);
  }

  lemma SoundOperator(s: string, ps': seq<Piece>, l': Line) returns (l: Line)
    requires s != "" && s[0] in ";|&" && OperatorAt(s) > 0
    requires AsWritten(s[OperatorAt(s)..], false, ps', l')
    requires (if ps' == [] then [] else [WordOf(ps')]) + WordsOf(l'.cmd) != []
    ensures AsWritten(s, true, [], l) && l.cmd == []
    ensures LaterSegments(l) == [(if ps' == [] then [] else [WordOf(ps')]) + WordsOf(l'.cmd)] + LaterSegments(l')
  {
    hide ShowElements, TextOf, AnyQuoted, OperatorAt, ShowOperator, GoodElement;
    var op := OperatorOf(s);
    var m := Prepend(AsElement(ps'), l');
    CloseWord(ps', l');
    l := Join([], op, m);
    ShowJoin(op, m);
    assert ShowPieces([]) + Show(l) == Show(l);
  }

  lemma OperatorOf(s: string) returns (op: Operator)
    requires s != "" && s[0] in ";|&" && OperatorAt(s) > 0
    ensures s == ShowOperator(op) + s[OperatorAt(s)..]
  {
    op := if s[0] == ';' then Semicolon else if s[0] == '&' then And else if OperatorAt(s) == 2 then Or else Pipe;
  }

  lemma ShowJoin(op: Operator, m: Line)
    ensures Show(Join([], op, m)) == ShowOperator(op) + Show(m)
  {
    assert ShowElements([]) + ShowOperator(op) == ShowOperator(op);
  }

  lemma SoundPiece(s: string, st: Scan, ps': seq<Piece>, l': Line) returns (p: Piece)
    requires s != "" && s[0] !in " \t;|&" && Step(s, st).Some? && (st.inWord || DiscardAt(s) == 0)
    requires AsWritten(s[Step(s, st).value.0..], true, ps', l')
    ensures Step(s, st).value.1 == Add(st, p)
    ensures AsWritten(s, st.inWord, [p] + ps', l')
  {
    hide Step, ShowPieces, ShowPiece, Show, GoodPiece, GoodElements, GoodLine, Add;
    p := PieceOf(s, st);
    ShowPiecesCons(p, ps');
    assert ShowPieces([p] + ps') + Show(l') == ShowPiece(p) + (ShowPieces(ps') + Show(l'));
  }

  lemma ShowPiecesCons(p: Piece, ps: seq<Piece>)
    ensures ShowPieces([p] + ps) == ShowPiece(p) + ShowPieces(ps)
  {
    assert ([p] + ps)[1..] == ps;
  }

  lemma PieceOf(s: string, st: Scan) returns (p: Piece)
    requires s != "" && s[0] !in " \t;|&" && Step(s, st).Some? && (st.inWord || DiscardAt(s) == 0)
    ensures GoodPiece(p) && (st.inWord || p != Bare('#'))
    ensures Step(s, st).value.1 == Add(st, p) && s == ShowPiece(p) + s[Step(s, st).value.0..]
  {
    hide DiscardAt;
    if s[0] == '\'' || s[0] == '"' {
      var q := Quote(s).value;
      assert s[1..][|q|] == s[|q| + 1];
      assert s == [s[0]] + q + [s[|q| + 1]] + s[|q| + 2..];
      p := if s[0] == '"' then Double(q) else Single(q);
    } else {
      p := Bare(s[0]);
      assert s == [s[0]] + s[1..];
    }
  }

  // ---- what each step adds to the words

  lemma SameWords(st: Scan, l': Line, l: Line)
    requires WordsOf(l.cmd) == WordsOf(l'.cmd)
    ensures CommandWords(st, [], l.cmd) == CommandWords(st, [], l'.cmd)
  {
  }

  lemma BlankWords(st: Scan, ps': seq<Piece>, es': seq<Element>, es: seq<Element>)
    requires WordsOf(es) == (if ps' == [] then [] else [WordOf(ps')]) + WordsOf(es')
    ensures CommandWords(st, [], es) == CommandWords(Current(st), ps', es')
  {
    hide WordsOf;
    ExtendedWords(Current(st), ps');
  }

  lemma OperatorWords(st: Scan, ps': seq<Piece>, l': Line, l: Line)
    requires Clean(st) && EndCommand(st).Some? && l.cmd == []
    requires LaterSegments(l) == [CommandWords(EndCommand(st).value, ps', l'.cmd)] + LaterSegments(l')
    ensures CommandWords(st, [], l.cmd) != []
    ensures st.segments + [CommandWords(st, [], l.cmd)] + LaterSegments(l)
            == EndCommand(st).value.segments + [CommandWords(EndCommand(st).value, ps', l'.cmd)] + LaterSegments(l')
  {
    hide LaterSegments, WordOf;
    NothingWritten();
    assert Current(st).words + [] == Current(st).words;
  }

  lemma PieceWords(st: Scan, p: Piece, ps': seq<Piece>)
    ensures Extend(st, [p] + ps') == Extend(Add(st, p), ps')
  {
    var ps := [p] + ps';
    assert ps[1..] == ps';
    AddAllCons(st, ps);
    if ps' == [] { assert Add(st, p).text + "" == Add(st, p).text; }
  }

  /** Closing the word that `ps` completes adds it to the words. */
  lemma ExtendedWords(st: Scan, ps: seq<Piece>)
    requires Clean(st) && !st.inWord
    ensures Current(Extend(st, ps)).words == st.words + if ps == [] then [] else [WordOf(ps)]
  {
    assert "" + TextOf(ps) == TextOf(ps);
  }

  // -------------------------------------------------------------- the split itself

  lemma RestOf(s: string, i: nat, n: nat)
    requires i + n <= |s|
    ensures s[i..][n..] == s[i + n..]
  {
  }

  /** Where the scanner's step stands between words or inside one. */
  predicate NoDiscardHere(s: string, st: Scan) {
    st.inWord || DiscardAt(s) == 0
  }

  lemma StepDiscards(s: string, st: Scan)
    requires s != "" && !st.inWord && DiscardAt(s) > 0
    ensures Step(s, st) == Some((DiscardAt(s), st))
  {
    hide DiscardAt;
  }

  lemma StepQuoted(s: string, st: Scan)
    requires s != "" && (s[0] == '\'' || s[0] == '"') && NoDiscardHere(s, st)
    ensures Step(s, st) == if Quote(s).None? then None
                           else Some((|Quote(s).value| + 2, Scan(st.segments, st.words, st.text + Quote(s).value, true, true)))
  {
    hide DiscardAt;
  }

  lemma StepOperator(s: string, st: Scan)
    requires s != "" && (s[0] == ';' || s[0] == '|' || s[0] == '&') && NoDiscardHere(s, st)
    ensures Step(s, st) == if OperatorAt(s) == 0 || EndCommand(st).None? then None else Some((OperatorAt(s), EndCommand(st).value))
  {
    hide DiscardAt;
  }

  lemma StepOther(s: string, st: Scan)
    requires s != "" && s[0] !in "'\";|&" && NoDiscardHere(s, st)
    ensures Step(s, st) ==
            if s[0] == ' ' || s[0] == '\t' then Some((1, Current(st)))
            else if !BareChar(s[0]) || (s[0] == '#' && !st.inWord) then None
            else Some((1, Scan(st.segments, st.words, st.text + [s[0]], true, st.quoted)))
  {
    hide DiscardAt;
  }

  lemma {:induction false} FindAtLeast(s: string, c: char, k: nat)
    requires k <= |s| && forall i :: 0 <= i < k ==> s[i] != c
    ensures Find(s, c) >= k
  {
    if k > 0 { FindAtLeast(s[1..], c, k - 1); }
  }

  /** Reads the quoted text that opens `s`. */
  method ReadQuote(s: string) returns (q: Option<string>)
    requires s != "" && (s[0] == '\'' || s[0] == '"')
    ensures q == Quote(s)
  {
    var j := 1;
    while j < |s| && s[j] != s[0]
      invariant 1 <= j <= |s| && forall k :: 1 <= k < j ==> s[k] != s[0]
      invariant s[0] == '"' ==> GoodPiece(Double(s[1..j]))
    {
      if s[0] == '"' && (s[j] == '$' || s[j] == '`' || s[j] == '\\') {
        FindAtLeast(s[1..], s[0], j);
        assert s[1..][..Find(s[1..], s[0])][j - 1] == s[j];
        return None;
      }
      assert s[1..j + 1] == s[1..j] + [s[j]];
      j := j + 1;
    }
    if j == |s| {
      FindAtLeast(s[1..], s[0], |s| - 1);
      return None;
    }
    assert forall k :: 0 <= k < j - 1 ==> s[1..][k] == s[k + 1];
    FindIs(s[1..], s[0], j - 1);
    assert s[1..][..j - 1] == s[1..j];
    return Some(s[1..j]);
  }

  /** Cuts a command into its simple commands. It succeeds exactly on the lines of the grammar,
      with their segments. */
  method SplitSimpleCommands(command: string) returns (segments: seq<seq<Word>>, ok: bool)
    ensures ok <==> exists l :: GoodLine(l) && Show(l) == command
    ensures ok ==> forall l :: GoodLine(l) && Show(l) == command ==> Segments(l) == segments
  {
    hide Lex, Step, DiscardAt, GoodLine, Show, Segments, BareChar;
    var scan := START;
    segments := [];
    var i := 0;
    AcceptedExactly(command);
    while i < |command|
      invariant 0 <= i <= |command|
      invariant Lex(command[i..], scan) == Lex(command, START)
    {
      ghost var st, at, rest := scan, i, command[i..];
      var c := command[i];
      LexStep(rest, st);
      if !scan.inWord {
        var n := DiscardAt(command[i..]);
        if n > 0 {
          DiscardFacts(rest);
          RestOf(command, at, n);
          StepDiscards(rest, st);
          i := i + n;
          continue;
        }
      }
      if c !in "'\";|&" { StepOther(rest, st); }
      if c == ' ' || c == '\t' {
        scan := Current(scan);
        i := i + 1;
      } else if c == '\'' || c == '"' {
        StepQuoted(rest, st);
        var body := ReadQuote(command[i..]);
        if body.None? { return [], false; }
        scan := scan.(text := scan.text + body.value, inWord := true, quoted := true);
        i := i + |body.value| + 2;
      } else if c == ';' || c == '|' || c == '&' {
        assert |rest| > 1 ==> rest[1] == command[i + 1];
        StepOperator(rest, st);
        if c == '&' && (i + 1 >= |command| || command[i + 1] != '&') { return [], false; }
        var ended := EndCommand(scan);
        if ended.None? { return [], false; }
        scan := ended.value;
        i := i + 1;
        if c == '&' {
          i := i + 1;
        } else if c == '|' && i < |command| {
          if command[i] == '|' { i := i + 1; }
          else if command[i] == '&' { return [], false; }
        }
      } else if !BareChar(c) || (c == '#' && !scan.inWord) {
        return [], false;
      } else {
        scan := scan.(text := scan.text + [c], inWord := true);
        i := i + 1;
      }
      assert Step(rest, st) == Some((i - at, scan));
      RestOf(command, at, i - at);
    }
    assert command[i..] == "";
    LexEnd(scan);
    var ended := EndCommand(scan);
    if ended.None? { return [], false; }
    return ended.value.segments, true;
  }

  lemma AcceptedExactly(command: string)
    ensures Lex(command, START).Some? <==> exists l :: GoodLine(l) && Show(l) == command
    ensures forall l :: GoodLine(l) && Show(l) == command ==> Lex(command, START) == Some(Segments(l))
  {
    forall l | GoodLine(l) && Show(l) == command
      ensures Lex(command, START) == Some(Segments(l))
    {
      LexLine(l, START);
      assert [] + Segments(l) == Segments(l);
    }
    if Lex(command, START).Some? {
      var ps, m := Sound(command, START);
      CloseWord(ps, m);
      ExtendedWords(START, ps);
      var l := Prepend(AsElement(ps), m);
      assert GoodLine(l) && Show(l) == command;
    }
  }
}
