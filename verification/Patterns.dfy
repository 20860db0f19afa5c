/** The regular expressions of the code, read as such, and the predicates that stand for them. */
module Patterns {
  import opened Text
  import Names
  import SpawnDirs
  import Delivery
  import Registration

  /** A piece of an expression: a text, or from `min` to `max` characters of a bracket class. */
  datatype Item = Literal(text: string) | Class(bracket: string, min: nat, max: nat)

  /** A bracket class: characters, and ranges written with a dash between two of them. */
  predicate InClass(c: char, bracket: string)
    decreases |bracket|
  {
    if bracket == "" then false
    else if |bracket| >= 3 && bracket[1] == '-' then bracket[0] <= c <= bracket[2] || InClass(c, bracket[3..])
    else c == bracket[0] || InClass(c, bracket[1..])
  }

  predicate Fits(item: Item, s: string) {
    match item
    case Literal(text) => s == text
    case Class(bracket, min, max) => min <= |s| <= max && forall i :: 0 <= i < |s| ==> InClass(s[i], bracket)
  }

  /** `s` as a whole is what the items stand for, one after the other. */
  ghost predicate Matches(items: seq<Item>, s: string) {
    if items == [] then s == ""
    else exists n: nat :: n <= |s| && Fits(items[0], s[..n]) && Matches(items[1..], s[n..])
  }

  lemma OneItem(item: Item, s: string)
    ensures Matches([item], s) <==> Fits(item, s)
  {
    assert [item][1..] == [] && s[..|s|] == s && s[|s|..] == "";
    if Matches([item], s) {
      var n: nat :| n <= |s| && Fits(item, s[..n]) && Matches([item][1..], s[n..]);
      assert s[n..] == "" && n == |s|;
    }
    if Fits(item, s) {
      assert Fits([item][0], s[..|s|]) && Matches([item][1..], s[|s|..]);
    }
  }

  predicate FixedLength(item: Item, n: nat) {
    match item case Literal(text) => n == |text| case Class(_, min, max) => n == min == max
  }

  /** An item of a fixed length in front. */
  lemma FixedItem(item: Item, n: nat, rest: seq<Item>, s: string)
    requires FixedLength(item, n)
    ensures Matches([item] + rest, s) <==> n <= |s| && Fits(item, s[..n]) && Matches(rest, s[n..])
  {
    assert ([item] + rest)[1..] == rest && ([item] + rest)[0] == item;
    if Matches([item] + rest, s) {
      var k: nat :| k <= |s| && Fits(item, s[..k]) && Matches(([item] + rest)[1..], s[k..]);
      assert k == n;
    }
  }

  lemma Range(c: char, lo: char, hi: char, rest: string)
    ensures InClass(c, [lo, '-', hi] + rest) <==> lo <= c <= hi || InClass(c, rest)
  {
    assert ([lo, '-', hi] + rest)[3..] == rest;
  }

  /** Without a dash but at its end a class is its characters. */
  lemma {:induction false} Singles(c: char, chars: string)
    requires forall i :: 0 <= i < |chars| - 1 ==> chars[i] != '-'
    ensures InClass(c, chars) <==> c in chars
    decreases |chars|
  {
    if chars != "" { Singles(c, chars[1..]); }
  }

  const ALNUM := "A-Z" + ("a-z" + "0-9")

  lemma Alphanumeric(c: char, rest: string)
    ensures InClass(c, ALNUM + rest) <==> 'A' <= c <= 'Z' || 'a' <= c <= 'z' || '0' <= c <= '9' || InClass(c, rest)
  {
    Range(c, 'A', 'Z', "a-z" + "0-9" + rest);
    Range(c, 'a', 'z', "0-9" + rest);
    Range(c, '0', '9', rest);
    assert ALNUM + rest == "A-Z" + (("a-z" + "0-9") + rest) && ("a-z" + "0-9") + rest == "a-z" + ("0-9" + rest);
  }

  // -------------------------------------------------------------- names

  lemma NameClass(c: char)
    ensures InClass(c, ALNUM + "._-") <==> Names.NameChar(c)
  {
    Alphanumeric(c, "._-");
    Singles(c, "._-");
  }

  const NAME: seq<Item> := [Class(ALNUM + "._-", 1, 128)]

  lemma NameIs(s: string)
    ensures Names.Name(s) <==> Matches(NAME, s)
  {
    OneItem(NAME[0], s);
    forall c ensures InClass(c, ALNUM + "._-") <==> Names.NameChar(c) { NameClass(c); }
  }

  const SAFE_NAME: seq<Item> := [Class(ALNUM, 1, 1)] + [Class(ALNUM + "._-", 0, 127)]

  lemma SafeNameIs(s: string)
    ensures Names.SafeName(s) <==> Matches(SAFE_NAME, s)
  {
    FixedItem(SAFE_NAME[0], 1, [SAFE_NAME[1]], s);
    if |s| >= 1 {
      OneItem(SAFE_NAME[1], s[1..]);
      Alphanumeric(s[0], "");
      assert ALNUM + [] == ALNUM;
      forall c ensures InClass(c, ALNUM + "._-") <==> Names.NameChar(c) { NameClass(c); }
      assert forall i :: 1 <= i < |s| ==> s[i] == s[1..][i - 1];
    }
  }

  const ROLE_NAME: seq<Item> := [Class("a-z", 1, 1)] + [Class("a-z0-9_-", 0, 63)]

  lemma RoleNameIs(s: string)
    ensures Names.RoleName(s) <==> Matches(ROLE_NAME, s)
  {
    FixedItem(ROLE_NAME[0], 1, [ROLE_NAME[1]], s);
    if |s| >= 1 {
      OneItem(ROLE_NAME[1], s[1..]);
      Range(s[0], 'a', 'z', "");
      assert ['a', '-', 'z'] + "" == "a-z";
      forall c ensures InClass(c, "a-z0-9_-") <==> 'a' <= c <= 'z' || '0' <= c <= '9' || c == '_' || c == '-' {
        Range(c, 'a', 'z', "0-9_-");
        Range(c, '0', '9', "_-");
        Singles(c, "_-");
        assert ['a', '-', 'z'] + "0-9_-" == "a-z0-9_-" && ['0', '-', '9'] + "_-" == "0-9_-";
      }
      assert forall i :: 1 <= i < |s| ==> s[i] == s[1..][i - 1];
    }
  }

  const VERSION: seq<Item> := [Class(ALNUM + "._+-", 1, 64)]

  lemma VersionIs(s: string)
    ensures Names.Version(s) <==> Matches(VERSION, s)
  {
    OneItem(VERSION[0], s);
    forall c ensures InClass(c, ALNUM + "._+-") <==> Names.NameChar(c) || c == '+' {
      Alphanumeric(c, "._+-");
      Singles(c, "._+-");
    }
  }

  lemma ActorIs(s: string, kind: string)
    ensures Names.ActorOf(s, kind) <==> Matches([Literal(kind + ":")] + NAME, s)
  {
    FixedItem(Literal(kind + ":"), |kind| + 1, NAME, s);
    if |s| > |kind| { NameIs(s[|kind| + 1..]); }
  }

  /** ^(agent|runtime):[A-Za-z0-9._-]{1,128}$ */
  lemma ActorSubIs(s: string)
    ensures Names.ActorSub(s) <==> Matches([Literal("agent:")] + NAME, s) || Matches([Literal("runtime:")] + NAME, s)
  {
    ActorIs(s, "agent");
    ActorIs(s, "runtime");
    assert "agent" + ":" == "agent:" && "runtime" + ":" == "runtime:";
  }

  // -------------------------------------------------------------- directories and arguments

  lemma HexClass(c: char)
    ensures InClass(c, "0-9a-f") <==> SpawnDirs.HexDigit(c)
  {
    Range(c, '0', '9', "a-f");
    Range(c, 'a', 'f', "");
    assert ['0', '-', '9'] + "a-f" == "0-9a-f" && ['a', '-', 'f'] + "" == "a-f";
  }

  const SPAWN_NAME: seq<Item> := [Class("0-9a-f", 10, 10)] + ([Literal("-")] + [Class("0-9a-f", 32, 32)])

  lemma SpawnNameIs(s: string)
    ensures SpawnDirs.SpawnName(s) <==> Matches(SPAWN_NAME, s)
  {
    FixedItem(SPAWN_NAME[0], 10, [Literal("-")] + [Class("0-9a-f", 32, 32)], s);
    forall c ensures InClass(c, "0-9a-f") <==> SpawnDirs.HexDigit(c) { HexClass(c); }
    if |s| >= 10 {
      FixedItem(Literal("-"), 1, [Class("0-9a-f", 32, 32)], s[10..]);
      if |s| >= 11 { OneItem(Class("0-9a-f", 32, 32), s[10..][1..]); }
    }
  }

  lemma PathClass(c: char)
    ensures InClass(c, ALNUM + "._/+-") <==> Delivery.PathChar(c)
  {
    Alphanumeric(c, "._/+-");
    Singles(c, "._/+-");
  }

  /** ^/[A-Za-z0-9._/+-]+$ */
  lemma DeliverableIs(s: string)
    ensures (|s| >= 2 && s[0] == '/' && forall i :: 1 <= i < |s| ==> Delivery.PathChar(s[i]))
       <==> Matches([Literal("/")] + [Class(ALNUM + "._/+-", 1, |s|)], s)
  {
    FixedItem(Literal("/"), 1, [Class(ALNUM + "._/+-", 1, |s|)], s);
    if |s| >= 1 {
      OneItem(Class(ALNUM + "._/+-", 1, |s|), s[1..]);
      forall c ensures InClass(c, ALNUM + "._/+-") <==> Delivery.PathChar(c) { PathClass(c); }
      assert forall i :: 1 <= i < |s| ==> s[i] == s[1..][i - 1];
    }
  }

  lemma PlainClass(c: char)
    ensures InClass(c, ALNUM + "_@%+=:,./-") <==> Registration.PlainChar(c)
  {
    var others := "_@%+=:,./-";
    Alphanumeric(c, others);
    Singles(c, others);
    assert c in others <==> (c == '_' || c == '@' || c == '%' || c == '+' || c == '=' || c == ':' || c == ',' || c == '.' || c == '/' || c == '-');
  }

  /** ^[A-Za-z0-9_@%+=:,./-]+$ */
  lemma PlainArgIs(s: string)
    ensures Registration.PlainArg(s) <==> Matches([Class(ALNUM + "_@%+=:,./-", 1, |s|)], s)
  {
    OneItem(Class(ALNUM + "_@%+=:,./-", 1, |s|), s);
    forall c ensures InClass(c, ALNUM + "_@%+=:,./-") <==> Registration.PlainChar(c) { PlainClass(c); }
  }
}
