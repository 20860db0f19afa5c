/** Characters as the bytes of UTF-8, and the functions on bytes told of characters: how long a character
    is, which are white space, and which fall to ASCII letters in lower case. */
module Utf8 {
  import opened Text
  import ReadOnly

  /** A code point that has an encoding. */
  predicate Scalar(cp: nat) { cp < 0xD800 || 0xE000 <= cp <= 0x10FFFF }

  function Tail(cp: nat): char { (0x80 + cp % 64) as char }

  /** The bytes of a character, each as the character with its code. */
  function Encode(cp: nat): (s: string)
    requires Scalar(cp)
    ensures s != ""
  {
    if cp < 0x80 then [cp as char]
    else if cp < 0x800 then [(0xC0 + cp / 64) as char, Tail(cp)]
    else if cp < 0x1_0000 then [(0xE0 + cp / 4096) as char, Tail(cp / 64), Tail(cp)]
    else [(0xF0 + cp / 262144) as char, Tail(cp / 4096), Tail(cp / 64), Tail(cp)]
  }

  /** A character at the front is as long as its encoding. */
  lemma RuneIsEncoded(cp: nat, rest: string)
    requires Scalar(cp)
    ensures RuneLen(Encode(cp) + rest) == |Encode(cp)|
  {
    var s := Encode(cp) + rest;
    assert forall i :: 0 <= i < |Encode(cp)| ==> s[i] == Encode(cp)[i];
  }

  /** The code point of two, three or four bytes. */
  function Decode(s: string): nat
    requires 2 <= |s| <= 4 && s[0] as int >= 0xC0 && forall i :: 1 <= i < |s| ==> 0x80 <= s[i] as int < 0xC0
    requires (|s| == 2 ==> s[0] as int < 0xE0) && (|s| == 3 ==> 0xE0 <= s[0] as int < 0xF0) && (|s| == 4 ==> 0xF0 <= s[0] as int < 0xF8)
  {
    if |s| == 2 then (s[0] as int - 0xC0) * 64 + (s[1] as int - 0x80)
    else if |s| == 3 then ((s[0] as int - 0xE0) * 64 + (s[1] as int - 0x80)) * 64 + (s[2] as int - 0x80)
    else (((s[0] as int - 0xF0) * 64 + (s[1] as int - 0x80)) * 64 + (s[2] as int - 0x80)) * 64 + (s[3] as int - 0x80)
  }

  /** More than one byte is taken for a character only where one stands encoded. */
  lemma LongRunesAreEncoded(s: string) returns (cp: nat)
    requires s != "" && RuneLen(s) > 1
    ensures Scalar(cp) && cp >= 0x80 && |s| >= RuneLen(s) && Encode(cp) == s[..RuneLen(s)]
  {
    var n := RuneLen(s);
    cp := Decode(s[..n]);
    if n == 2 { TwoBytes(s, cp); } else if n == 3 { ThreeBytes(s, cp); } else { FourBytes(s, cp); }
  }

  lemma TwoBytes(s: string, cp: nat)
    requires s != "" && RuneLen(s) == 2 && cp == Decode(s[..2])
    ensures Scalar(cp) && cp >= 0x80 && Encode(cp) == s[..2]
  {
  }

  lemma ThreeBytes(s: string, cp: nat)
    requires s != "" && RuneLen(s) == 3 && cp == Decode(s[..3])
    ensures Scalar(cp) && cp >= 0x80 && Encode(cp) == s[..3]
  {
  }

  lemma FourBytes(s: string, cp: nat)
    requires s != "" && RuneLen(s) == 4 && cp == Decode(s[..4])
    ensures Scalar(cp) && cp >= 0x80 && Encode(cp) == s[..4]
  {
  }

  // -------------------------------------------------------------- white space

  /** The white-space characters of Unicode. */
  predicate Space(cp: nat) {
    || 0x9 <= cp <= 0xD || cp == 0x20 || cp == 0x85 || cp == 0xA0 || cp == 0x1680 || 0x2000 <= cp <= 0x200A
    || cp == 0x2028 || cp == 0x2029 || cp == 0x202F || cp == 0x205F || cp == 0x3000
  }

  lemma SpacesLead(cp: nat, rest: string)
    requires Space(cp)
    ensures LeadingSpace(Encode(cp) + rest) == |Encode(cp)|
  {
    var s := Encode(cp) + rest;
    assert forall i :: 0 <= i < |Encode(cp)| ==> s[i] == Encode(cp)[i];
  }

  lemma OnlySpacesLead(s: string) returns (cp: nat)
    requires LeadingSpace(s) > 0
    ensures Space(cp) && Encode(cp) == s[..LeadingSpace(s)]
  {
    var n := LeadingSpace(s);
    if n == 1 {
      cp := s[0] as int;
    } else if n == 2 {
      cp := s[1] as int;
    } else {
      cp := (s[0] as int - 0xE0) * 4096 + (s[1] as int - 0x80) * 64 + (s[2] as int - 0x80);
    }
  }

  /** Characters one after the other. */
  function EncodeAll(cps: seq<nat>): string
    requires forall i :: 0 <= i < |cps| ==> Scalar(cps[i])
  {
    if cps == [] then "" else EncodeAll(cps[..|cps| - 1]) + Encode(cps[|cps| - 1])
  }

  lemma {:induction false} EncodeFirst(cps: seq<nat>)
    requires cps != [] && forall i :: 0 <= i < |cps| ==> Scalar(cps[i])
    ensures EncodeAll(cps) == Encode(cps[0]) + EncodeAll(cps[1..])
    decreases |cps|
  {
    hide Encode;
    var n := |cps| - 1;
    if n == 0 {
      assert cps[..0] == [] && cps[1..] == [];
    } else {
      EncodeFirst(cps[..n]);
      assert cps[..n][1..] == cps[1..][..n - 1] && cps[1..][n - 1] == cps[n];
    }
  }

  predicate Spaces(cps: seq<nat>) { forall i :: 0 <= i < |cps| ==> Space(cps[i]) }

  lemma SpacesAreScalar(cps: seq<nat>)
    requires Spaces(cps)
    ensures forall i :: 0 <= i < |cps| ==> Scalar(cps[i])
  {
  }

  /** White space is taken off both ends of text that begins and ends with printing characters. */
  lemma {:induction false} TrimsSpaces(a: seq<nat>, s: string, b: seq<nat>)
    requires Spaces(a) && Spaces(b) && s != "" && Printing(s[0]) && Printing(s[|s| - 1])
    ensures (forall i :: 0 <= i < |a| ==> Scalar(a[i])) && (forall i :: 0 <= i < |b| ==> Scalar(b[i]))
    ensures TrimSpace(EncodeAll(a) + s + EncodeAll(b)) == s
    decreases |a|
  {
    hide Encode, Space, Scalar, LeadingSpace, TrailingSpace, Printing;
    SpacesAreScalar(a);
    SpacesAreScalar(b);
    var t := s + EncodeAll(b);
    if a == [] {
      assert EncodeAll(a) + s + EncodeAll(b) == t;
      TrimsAtEnd(s, b);
    } else {
      EncodeFirst(a);
      var first := Encode(a[0]);
      var rest := EncodeAll(a[1..]) + s + EncodeAll(b);
      assert EncodeAll(a) + s + EncodeAll(b) == first + rest;
      SpacesLead(a[0], rest);
      assert (first + rest)[|first|..] == rest;
      TrimsSpaces(a[1..], s, b);
    }
  }

  lemma SpacesTrail(before: string, cp: nat)
    requires Space(cp)
    ensures TrailingSpace(before + Encode(cp)) == |Encode(cp)|
  {
    var s := before + Encode(cp);
    var n := |Encode(cp)|;
    assert s[|s| - n..] == Encode(cp) + "";
    SpacesLead(cp, "");
    if n == 2 {
      assert s[|s| - 1..] == Encode(cp)[1..];
    } else if n == 3 {
      assert s[|s| - 1..] == Encode(cp)[2..];
      assert s[|s| - 2..] == Encode(cp)[1..];
    }
  }

  lemma {:induction false} TrimsAtEnd(s: string, b: seq<nat>)
    requires Spaces(b) && s != "" && Printing(s[0]) && Printing(s[|s| - 1])
    ensures forall i :: 0 <= i < |b| ==> Scalar(b[i])
    ensures TrimSpace(s + EncodeAll(b)) == s
    decreases |b|
  {
    hide Encode, Space, Scalar, LeadingSpace, TrailingSpace, Printing;
    SpacesAreScalar(b);
    if b == [] {
      assert s + EncodeAll(b) == s;
      NothingToTrim(s);
    } else {
      var last := Encode(b[|b| - 1]);
      var most := s + EncodeAll(b[..|b| - 1]);
      assert s + EncodeAll(b) == most + last;
      SpacesTrail(most, b[|b| - 1]);
      PrintingOpens(most + last);
      assert (most + last)[..|most + last| - |last|] == most;
      TrimsAtEnd(s, b[..|b| - 1]);
    }
  }

  // -------------------------------------------------------------- lower case

  /** What a character comes to in lower case, where that is an ASCII letter: a capital, the dotted capital
      I and the Kelvin sign. */
  function LowerLetter(cp: nat): nat {
    if 'A' as int <= cp <= 'Z' as int then cp + 32 else if cp == 0x130 then 'i' as int else if cp == 0x212A then 'k' as int else cp
  }

  lemma LowersByte(c: char, rest: string)
    requires c as int >= 0x80
    requires c as int == 0xC4 ==> rest != "" && rest[0] as int != 0xB0
    requires c as int == 0xE2 ==> |rest| >= 2 && !(rest[0] as int == 0x84 && rest[1] as int == 0xAA)
    ensures ReadOnly.Lower([c] + rest) == [c] + ReadOnly.Lower(rest)
  {
    var s := [c] + rest;
    NotSpecial(c, rest, s);
    hide ByteIn;
    assert s[1..] == rest && s[0] == c && !(c <= 'Z');
  }

  lemma NotSpecial(c: char, rest: string, s: string)
    requires s == [c] + rest
    requires c as int == 0xC4 ==> rest != "" && rest[0] as int != 0xB0
    requires c as int == 0xE2 ==> |rest| >= 2 && !(rest[0] as int == 0x84 && rest[1] as int == 0xAA)
    ensures !(ByteIn(s, 0, 0xC4, 0xC4) && ByteIn(s, 1, 0xB0, 0xB0))
    ensures !(ByteIn(s, 0, 0xE2, 0xE2) && ByteIn(s, 1, 0x84, 0x84) && ByteIn(s, 2, 0xAA, 0xAA))
  {
  }

  lemma LowersCharacters(cp: nat, rest: string)
    requires Scalar(cp)
    ensures ReadOnly.Lower(Encode(cp) + rest) == (if LowerLetter(cp) != cp then [LowerLetter(cp) as char] else Encode(cp)) + ReadOnly.Lower(rest)
  {
    var s := Encode(cp) + rest;
    if cp < 0x80 {
      assert s[1..] == rest;
    } else if cp == 0x130 {
      assert s[2..] == rest;
    } else if cp == 0x212A {
      assert s[3..] == rest;
    } else {
      UnchangedInLower(cp, rest);
    }
  }

  lemma UnchangedInLower(cp: nat, rest: string)
    requires Scalar(cp) && cp >= 0x80 && cp != 0x130 && cp != 0x212A
    ensures ReadOnly.Lower(Encode(cp) + rest) == Encode(cp) + ReadOnly.Lower(rest)
  {
    hide ReadOnly.Lower;
    var e := Encode(cp);
    LowersTail(e[0], e[1..], rest);
    assert e == [e[0]] + e[1..];
  }

  lemma LowersTail(c: char, tail: string, rest: string)
    requires c as int >= 0xC0 && 1 <= |tail| <= 3 && forall i :: 0 <= i < |tail| ==> 0x80 <= tail[i] as int < 0xC0
    requires c as int == 0xC4 ==> tail[0] as int != 0xB0
    requires c as int == 0xE2 ==> |tail| == 2 && !(tail[0] as int == 0x84 && tail[1] as int == 0xAA)
    ensures ReadOnly.Lower([c] + tail + rest) == [c] + tail + ReadOnly.Lower(rest)
  {
    hide ReadOnly.Lower;
    assert [c] + tail + rest == [c] + (tail + rest);
    LowersByte(c, tail + rest);
    assert tail + rest == [tail[0]] + (tail[1..] + rest);
    LowersByte(tail[0], tail[1..] + rest);
    if |tail| > 1 {
      assert tail[1..] + rest == [tail[1]] + (tail[2..] + rest);
      LowersByte(tail[1], tail[2..] + rest);
      if |tail| > 2 {
        assert tail[2..] + rest == [tail[2]] + rest;
        LowersByte(tail[2], rest);
      } else {
        assert tail[2..] + rest == rest;
      }
    } else {
      assert tail[1..] + rest == rest;
    }
  }
}
