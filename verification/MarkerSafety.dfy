/** When a registered command is recognised as ours: the marker text is looked for in a command
    line that begins with the quoted path of the binary, so the path itself may get in the way. */
module MarkerSafety {
  import opened Text
  import opened Registration
  import opened Json
  import opened Settings
  import opened SettingsLaws

  /** The first occurrence of the marker in the path, if any, is followed by a blank. */
  predicate Harmless(path: string, marker: string) {
    if HasPrefix(path, marker) then |path| > |marker| && path[|marker|] == ' '
    else path == "" || Harmless(path[1..], marker)
  }

  /** No path of the binary gets in the way of any event's marker. */
  ghost predicate MarkerSafe(binary: string) {
    forall k :: 0 <= k < |REGISTRATIONS| ==> Harmless(binary, Marker(REGISTRATIONS[k].event))
  }

  lemma PrefixCons(x: char, s: string, m: string)
    requires m != ""
    ensures HasPrefix([x] + s, m) <==> x == m[0] && HasPrefix(s, m[1..])
  {
    var t := [x] + s;
    if HasPrefix(t, m) {
      assert t[..|m|][0] == m[0] && s[..|m| - 1] == t[..|m|][1..];
    }
    if x == m[0] && HasPrefix(s, m[1..]) {
      assert t[..|m|] == [x] + s[..|m| - 1];
    }
  }

  lemma NoQuotePrefix(s: string, m: string)
    requires m != "" && '\'' !in m && s != "" && s[0] == '\''
    ensures !HasPrefix(s, m)
  {
    assert m[0] in m;
    assert s == [s[0]] + s[1..];
    PrefixCons(s[0], s[1..], m);
  }

  /** Escaping leaves a text without quotes where it was. */
  lemma {:induction false} PrefixEscaped(b: string, t: string, m: string)
    requires '\'' !in m && t != "" && t[0] == '\''
    ensures HasPrefix(Escape(b) + t, m) <==> HasPrefix(b, m)
  {
    if m != "" {
      if b == "" {
        assert Escape(b) + t == t;
        NoQuotePrefix(t, m);
      } else if b[0] == '\'' {
        assert Escape(b)[0] == '\'' && (Escape(b) + t)[0] == '\'';
        NoQuotePrefix(Escape(b) + t, m);
        NoQuotePrefix(b, m);
      } else {
        assert Escape(b) + t == [b[0]] + (Escape(b[1..]) + t) && b == [b[0]] + b[1..];
        PrefixCons(b[0], Escape(b[1..]) + t, m);
        PrefixCons(b[0], b[1..], m);
        PrefixEscaped(b[1..], t, m[1..]);
      }
    }
  }

  lemma PrefixLonger(s: string, m: string)
    ensures HasPrefix(s, m + " ") <==> HasPrefix(s, m) && |s| > |m| && s[|m|] == ' '
  {
    if HasPrefix(s, m + " ") {
      assert s[..|m|] == s[..|m| + 1][..|m|] && s[|m|] == s[..|m| + 1][|m|];
    }
    if HasPrefix(s, m) && |s| > |m| && s[|m|] == ' ' { assert s[..|m| + 1] == s[..|m|] + " "; }
  }

  /** Text that does not open with a blank moves the first occurrence of a marker along. */
  lemma {:induction false} MarkedAfter(a: string, s: string, m: string)
    requires m != "" && m[0] == ' ' && ' ' !in a
    ensures MarkedBy(a + s, m) == MarkedBy(s, m)
  {
    if a == "" { assert a + s == s; }
    else {
      assert a + s == [a[0]] + (a[1..] + s) && (a + s)[1..] == a[1..] + s;
      PrefixCons(a[0], a[1..] + s, m);
      MarkedAfter(a[1..], s, m);
    }
  }

  predicate Mentions(text: string, marker: string) {
    HasPrefix(text, marker) || (text != "" && Mentions(text[1..], marker))
  }

  /** A marker that an escaped text mentions is found there, and otherwise in what follows. */
  lemma {:induction false} MarkedPastEscaped(b: string, s: string, m: string)
    requires m != "" && m[0] == ' ' && '\'' !in m
    ensures MarkedBy(Escape(b) + ("'" + s), m) == if Mentions(b, m) then Harmless(b, m) else MarkedBy(s, m)
    decreases |b|
  {
    var t := "'" + s;
    var whole := Escape(b) + t;
    if b == "" {
      assert whole == "'" + s;
      MarkedAfter("'", s, m);
    } else {
      PrefixEscaped(b, t, m);
      PrefixEscaped(b, t, m + " ");
      PrefixLonger(whole, m);
      PrefixLonger(b, m);
      if HasPrefix(b, m) {
        EscapedIsLonger(b, t, m);
      } else {
        MarkedPastEscaped(b[1..], s, m);
        if b[0] == '\'' {
          assert whole == "'\\''" + (Escape(b[1..]) + t);
          MarkedAfter("'\\''", Escape(b[1..]) + t, m);
        } else {
          assert whole == [b[0]] + (Escape(b[1..]) + t) && whole[1..] == Escape(b[1..]) + t;
        }
      }
    }
  }

  lemma {:induction false} EscapedIsLonger(b: string, t: string, m: string)
    requires HasPrefix(b, m) && t != ""
    ensures |Escape(b) + t| > |m|
  {
    EscapeGrows(b);
  }

  lemma {:induction false} EscapeGrows(b: string)
    ensures |Escape(b)| >= |b|
  {
    if b != "" { EscapeGrows(b[1..]); }
  }

  lemma {:induction false} NoBlankMentions(b: string, m: string)
    requires m != "" && m[0] == ' ' && ' ' !in b
    ensures !Mentions(b, m)
  {
    if b != "" {
      assert b == [b[0]] + b[1..];
      PrefixCons(b[0], b[1..], m);
      NoBlankMentions(b[1..], m);
    }
  }

  lemma {:induction false} UnmentionedIsHarmless(b: string, m: string)
    requires !Mentions(b, m)
    ensures Harmless(b, m)
  {
    if b != "" { UnmentionedIsHarmless(b[1..], m); }
  }

  /** A marker that a quoted argument mentions is found there, and otherwise in what follows. */
  lemma MarkedPastQuoted(b: string, s: string, m: string)
    requires m != "" && m[0] == ' ' && '\'' !in m
    ensures MarkedBy(ShellQuote(b) + s, m) == if Mentions(b, m) then Harmless(b, m) else MarkedBy(s, m)
  {
    if PlainArg(b) {
      assert ' ' !in b by { assert forall i :: 0 <= i < |b| ==> PlainChar(b[i]) && b[i] != ' '; }
      MarkedAfter(b, s, m);
      NoBlankMentions(b, m);
    } else {
      assert ShellQuote(b) + s == "'" + (Escape(b) + ("'" + s));
      MarkedAfter("'", Escape(b) + ("'" + s), m);
      MarkedPastEscaped(b, s, m);
    }
  }

  /** The marker is found behind the quoted path exactly when the path is harmless. */
  lemma MarkedBehindQuoted(b: string, m: string, rest: string)
    requires m != "" && m[0] == ' ' && '\'' !in m
    ensures MarkedBy(ShellQuote(b) + (m + (" " + rest)), m) == Harmless(b, m)
  {
    hide ShellQuote;
    MarkedPastQuoted(b, m + (" " + rest), m);
    assert (m + (" " + rest))[..|m|] == m && (m + (" " + rest))[|m|] == ' ';
    if !Mentions(b, m) { UnmentionedIsHarmless(b, m); }
  }

  lemma JoinCons(a: string, parts: seq<string>)
    requires parts != []
    ensures Join([a] + parts) == a + (" " + Join(parts))
  {
    assert ([a] + parts)[1..] == parts;
  }

  lemma JoinFour(q: string, a: string, b: string, e: string, more: seq<string>)
    requires more != []
    ensures Join([q] + ([a] + ([b] + ([e] + more)))) == q + ((" " + a + " " + b + " " + e) + (" " + Join(more)))
  {
    hide Join;
    JoinCons(q, [a] + ([b] + ([e] + more)));
    JoinCons(a, [b] + ([e] + more));
    JoinCons(b, [e] + more);
    JoinCons(e, more);
  }

  lemma MarkerText(event: string)
    ensures " " + "hook" + " " + "claude-code" + " " + event == Marker(event)
  {
    assert " " + "hook" + " " + "claude-code" + " " == " hook claude-code ";
  }

  lemma CommandShape(install: Install, event: string) returns (rest: string)
    ensures install.Command(event) == ShellQuote(install.binary) + (Marker(event) + (" " + rest))
  {
    var parts := install.Parts(event);
    assert parts[0] == "hook" && parts[1] == "claude-code" && parts[2] == event && |parts| > 3;
    var more := parts[3..];
    assert [ShellQuote(install.binary)] + parts == [ShellQuote(install.binary)] + (["hook"] + (["claude-code"] + ([event] + more)));
    hide Join, Install.Parts, ShellQuote, Marker;
    rest := Join(more);
    JoinFour(ShellQuote(install.binary), "hook", "claude-code", event, more);
    MarkerText(event);
  }

  lemma MarkerFacts(event: string)
    requires event in EVENTS
    ensures Marker(event) != "" && Marker(event)[0] == ' ' && '\'' !in Marker(event)
  {
    assert forall i :: 0 <= i < |event| ==> event[i] != '\'';
    assert forall i :: 0 <= i < 18 ==> " hook claude-code "[i] != '\'';
  }

  /** The registered commands are all recognised exactly when the path of the binary is safe. */
  lemma RecognisedIffMarkerSafe(install: Install)
    ensures Recognised(install) <==> MarkerSafe(install.binary)
  {
    hide MarkedBy, Harmless, EVENTS;
    forall k | 0 <= k < |REGISTRATIONS|
      ensures Ours(install.Command(REGISTRATIONS[k].event), REGISTRATIONS[k].event) == Harmless(install.binary, Marker(REGISTRATIONS[k].event))
    {
      var event := REGISTRATIONS[k].event;
      assert event in EVENTS by { EventIsKnown(k); }
      MarkerFacts(event);
      var rest := CommandShape(install, event);
      MarkedBehindQuoted(install.binary, Marker(event), rest);
    }
  }

  lemma EventIsKnown(k: nat)
    requires k < |REGISTRATIONS|
    ensures REGISTRATIONS[k].event in EVENTS
  {
  }

  /** Registering a second time reports no change exactly when the path of the binary is safe. */
  lemma ApplyIdempotentIffMarkerSafe(install: Install, root: Object)
    requires Applied(install, root).1
    ensures Applied(install, Applied(install, root).0) == (Applied(install, root).0, true) <==> MarkerSafe(install.binary)
  {
    hide Applied;
    ApplyTwice(install, root);
    RecognisedIffMarkerSafe(install);
  }

  /** A path that contains a marker followed by something else is not safe. */
  lemma UnsafePath()
    ensures !MarkerSafe("/opt" + " hook claude-code session-start" + "er/gk")
  {
    var m := Marker(SESSION_START);
    assert " hook claude-code " + "session-start" == " hook claude-code session-start";
    UnsafeFrom("/opt", m, "er/gk");
    assert REGISTRATIONS[0].event == SESSION_START;
  }

  lemma {:induction false} UnsafeFrom(before: string, m: string, after: string)
    requires m != "" && m[0] == ' ' && ' ' !in before && after != "" && after[0] != ' '
    ensures !Harmless(before + m + after, m)
  {
    var s := before + m + after;
    if before == "" {
      assert s == m + after && s[..|m|] == m;
    } else {
      assert s == [before[0]] + (before[1..] + m + after);
      PrefixCons(before[0], before[1..] + m + after, m);
      UnsafeFrom(before[1..], m, after);
    }
  }
}
