/** Delivery directories: their timestamped names, and the sweep that removes old ones. */
module SpawnDirs {
  import opened Text
  import opened Decimal
  import C = Claims

  /** The age beyond which the serving process sweeps a directory away, in nanoseconds. */
  const MAX_AGE := 2 * C.MAX_LIFETIME_SECONDS * SECOND

  /** 16 to the 10: the first time whose hexadecimal form needs an eleventh digit. */
  const NAME_LIMIT := 0x100_0000_0000

  predicate HexDigit(c: char) { Digit(c) || 'a' <= c <= 'f' }

  predicate AllHex(s: string) { forall i :: 0 <= i < |s| ==> HexDigit(s[i]) }

  function HexChar(d: nat): char
    requires d < 16
  {
    if d < 10 then '0' + d as char else 'a' + (d - 10) as char
  }

  function HexDigitValue(c: char): nat
    requires HexDigit(c)
  {
    if Digit(c) then (c - '0') as nat else (c - 'a') as nat + 10
  }

  function Hex(n: nat): (s: string)
    ensures s != "" && AllHex(s)
  {
    if n < 16 then [HexChar(n)] else Hex(n / 16) + [HexChar(n % 16)]
  }

  function HexValue(s: string): nat
    requires AllHex(s)
  {
    if s == "" then 0 else 16 * HexValue(s[..|s| - 1]) + HexDigitValue(s[|s| - 1])
  }

  function Zeros(n: nat): (s: string)
    ensures |s| == n && forall i :: 0 <= i < n ==> s[i] == '0'
  {
    seq(n, _ => '0')
  }

  function PadTo(width: nat, s: string): string {
    if |s| < width then Zeros(width - |s|) + s else s
  }

  /** %010x: a sign counts towards the width. */
  function Stamp(t: int): string {
    if t < 0 then "-" + PadTo(9, Hex(-t)) else PadTo(10, Hex(t))
  }

  /** ^[0-9a-f]{10}-[0-9a-f]{32}$ */
  predicate SpawnName(name: string) {
    |name| == 43 && AllHex(name[..10]) && name[10] == '-' && AllHex(name[11..])
  }

  predicate RandomId(id: string) { |id| == 32 && AllHex(id) }

  function CreatedName(t: int, id: string): string { Stamp(t) + "-" + id }

  // -------------------------------------------------------------- names carry their time

  lemma {:induction false} HexReads(n: nat)
    ensures HexValue(Hex(n)) == n
  {
    if n >= 16 {
      HexReads(n / 16);
      assert Hex(n)[..|Hex(n)| - 1] == Hex(n / 16);
    } else {
      assert Hex(n)[..0] == "";
    }
  }

  lemma {:induction false} ZerosInFront(k: nat, s: string)
    requires AllHex(s)
    ensures AllHex(Zeros(k) + s) && HexValue(Zeros(k) + s) == HexValue(s)
  {
    var z := Zeros(k) + s;
    assert forall i :: 0 <= i < |z| ==> HexDigit(z[i]);
    if s != "" {
      assert z[..|z| - 1] == Zeros(k) + s[..|s| - 1];
      ZerosInFront(k, s[..|s| - 1]);
    } else if k > 0 {
      assert z[..|z| - 1] == Zeros(k - 1) + s;
      ZerosInFront(k - 1, s);
    } else {
      assert z == s;
    }
  }

  function Pow16(d: nat): nat {
    if d == 0 then 1 else 16 * Pow16(d - 1)
  }

  /** The digits of `n` number at most `d` exactly when `n` is below 16 to the `d`. */
  lemma {:induction false} HexLength(n: nat, d: nat)
    requires d > 0
    ensures |Hex(n)| <= d <==> n < Pow16(d)
  {
    if n < 16 {
      OneIsEnough(d);
    } else if d == 1 {
      assert Pow16(1) == 16 * Pow16(0);
    } else {
      HexLength(n / 16, d - 1);
    }
  }

  lemma {:induction false} OneIsEnough(d: nat)
    requires d > 0
    ensures Pow16(d) >= 16
  {
    if d > 1 { OneIsEnough(d - 1); }
  }

  lemma TenDigits()
    ensures Pow16(10) == NAME_LIMIT
  {
    assert Pow16(4) == 0x1_0000;
    assert Pow16(8) == 0x1_0000_0000;
  }

  /** The name of a directory made at time `t` carries the pattern exactly for the times its ten
      digits can hold, and then reads back as `t`. */
  lemma NameReadsBack(t: int, id: string)
    requires RandomId(id)
    ensures SpawnName(CreatedName(t, id)) <==> 0 <= t < NAME_LIMIT
    ensures 0 <= t < NAME_LIMIT ==> CreatedAt(CreatedName(t, id)) == t
  {
    hide Hex, HexValue, Pow16;
    var name := CreatedName(t, id);
    if t < 0 {
      assert name[..10][0] == '-';
    } else {
      HexLength(t, 10);
      TenDigits();
      HexReads(t);
      ZerosInFront(if |Hex(t)| < 10 then 10 - |Hex(t)| else 0, Hex(t));
      if t < NAME_LIMIT {
        assert name[..10] == Stamp(t) && name[11..] == id;
        assert Zeros(0) + Hex(t) == Hex(t);
      }
    }
  }

  /** The time a directory's name carries, in seconds. */
  function CreatedAt(name: string): nat
    requires SpawnName(name)
  {
    HexValue(name[..10])
  }

  // -------------------------------------------------------------- the sweep

  /** A difference of times as a duration: nanoseconds held to 64 bits. */
  function Saturate(n: int): int {
    if n > MAX_INT64 then MAX_INT64 else if n < -MAX_INT64 - 1 then -MAX_INT64 - 1 else n
  }

  /** A directory of ours that is older than `maxAge`. Times are in nanoseconds. */
  predicate Stale(name: string, now: int, maxAge: int) {
    SpawnName(name) && Saturate(now - CreatedAt(name) * SECOND) > maxAge
  }

  /** What the sweep removes had expired: an assertion delivered in a directory named with its own
      issue time ends at most a maximum lifetime later. */
  lemma RemovedHasExpired(iat: int, exp: int, id: string, now: int)
    requires RandomId(id) && exp <= iat + C.MAX_LIFETIME_SECONDS
    requires Stale(CreatedName(iat, id), now, MAX_AGE)
    ensures exp * SECOND + C.MAX_LIFETIME_SECONDS * SECOND < now
  {
    hide CreatedName, SpawnName, CreatedAt;
    NameReadsBack(iat, id);
  }

  /** Exactly when a directory is swept away, for every time of creation and of the sweep. */
  lemma StaleExactly(t: int, id: string, now: int)
    requires RandomId(id)
    ensures Stale(CreatedName(t, id), now, MAX_AGE) <==> 0 <= t < NAME_LIMIT && now > t * SECOND + MAX_AGE
  {
    hide CreatedName, SpawnName, CreatedAt;
    NameReadsBack(t, id);
  }

  /** In plain numbers: a directory is swept away when more than twice twelve hours have passed since the
      second in its name. */
  lemma SweptAfterADay(t: int, id: string, now: int)
    requires RandomId(id)
    ensures Stale(CreatedName(t, id), now, MAX_AGE) <==> 0 <= t < 1_099_511_627_776 && now - t * 1_000_000_000 > 86_400_000_000_000
  {
    hide CreatedName, Stale;
    StaleExactly(t, id, now);
  }

  /** The digits and what they stand for. */
  lemma HexDigitsAre(d: nat)
    requires d < 16
    ensures HexChar(d) == "0123456789abcdef"[d] && HexDigit("0123456789abcdef"[d]) && HexDigitValue("0123456789abcdef"[d]) == d
  {
  }

  /** What removing an entry comes to. */
  datatype Removal = Removed | Vanished | Failed

  /** The entries of a listing on whose removal the sweep meets outcome `o`, in the order listed. */
  function Met(listing: seq<string>, now: int, maxAge: int, outcome: string -> Removal, o: Removal): seq<string> {
    if listing == [] then []
    else
      var name := listing[|listing| - 1];
      Met(listing[..|listing| - 1], now, maxAge, outcome, o)
      + if Stale(name, now, maxAge) && outcome(name) == o then [name] else []
  }

  lemma {:induction false} MetExactly(listing: seq<string>, now: int, maxAge: int, outcome: string -> Removal, o: Removal)
    ensures forall n :: n in Met(listing, now, maxAge, outcome, o) <==> n in listing && Stale(n, now, maxAge) && outcome(n) == o
  {
    hide Stale;
    if listing != [] {
      MetExactly(listing[..|listing| - 1], now, maxAge, outcome, o);
      assert listing == listing[..|listing| - 1] + [listing[|listing| - 1]];
    }
  }

  lemma MetNext(listing: seq<string>, k: nat, now: int, maxAge: int, outcome: string -> Removal, o: Removal)
    requires k < |listing|
    ensures Met(listing[..k + 1], now, maxAge, outcome, o)
         == Met(listing[..k], now, maxAge, outcome, o) + if Stale(listing[k], now, maxAge) && outcome(listing[k]) == o then [listing[k]] else []
  {
    assert listing[..k + 1][..k] == listing[..k];
  }

  class Root {
    const path: string
    var entries: set<string>

    constructor (path: string)
      ensures this.path == path && entries == {}
    {
      this.path := path;
      entries := {};
    }

    /** Makes a directory named from `now` in seconds. `made` is what mkdirat says of a free name. */
    method Create(now: int, id: string, made: bool) returns (name: Option<string>)
      requires RandomId(id)
      modifies this
      ensures name.Some? <==> made && CreatedName(now, id) !in old(entries)
      ensures name.Some? ==> name.value == CreatedName(now, id) && entries == old(entries) + {name.value}
      ensures name.None? ==> entries == old(entries)
    {
      var n := CreatedName(now, id);
      if !made || n in entries { return None; }
      entries := entries + {n};
      return Some(n);
    }

    /** Removes a directory made before. */
    method Discard(name: string)
      modifies this
      ensures entries == old(entries) - {name}
    {
      entries := entries - {name};
    }

    /** Removes the stale entries of a listing: every other entry stays, whatever it is, an entry
        that vanished meanwhile is not counted, and a failure does not end the sweep. */
    method Reap(listing: seq<string>, now: int, maxAge: int, outcome: string -> Removal) returns (removed: nat, failures: seq<string>)
      requires -TWO_63 <= maxAge <= MAX_INT64
      modifies this
      ensures forall n :: n in entries <==> n in old(entries) && !(n in listing && Stale(n, now, maxAge) && !outcome(n).Failed?)
      ensures forall n :: n in old(entries) && n !in entries ==> SpawnName(n) && now - CreatedAt(n) * SECOND > maxAge
      ensures removed == |Met(listing, now, maxAge, outcome, Removed)|
      ensures failures == Met(listing, now, maxAge, outcome, Failed)
    {
      hide SpawnName, CreatedAt, Saturate, Met;
      removed, failures := 0, [];
      assert listing[..0] == [];
      NothingMet(now, maxAge, outcome);
      for k := 0 to |listing|
        invariant removed == |Met(listing[..k], now, maxAge, outcome, Removed)|
        invariant failures == Met(listing[..k], now, maxAge, outcome, Failed)
        invariant entries == Remaining(old(entries), listing[..k], now, maxAge, outcome)
      {
        var name := listing[k];
        MetNext(listing, k, now, maxAge, outcome, Removed);
        MetNext(listing, k, now, maxAge, outcome, Failed);
        RemainingNext(old(entries), listing, k, now, maxAge, outcome);
        if !SpawnName(name) { continue; }
        var created := CreatedAt(name);
        if Saturate(now - created * SECOND) <= maxAge { continue; }
        match outcome(name) {
          case Vanished => entries := entries - {name};
          case Failed => failures := failures + [name];
          case Removed =>
            entries := entries - {name};
            removed := removed + 1;
        }
      }
      assert listing[..|listing|] == listing;
      StaleMeansOld(old(entries) - entries, now, maxAge);
    }
  }

  lemma NothingMet(now: int, maxAge: int, outcome: string -> Removal)
    ensures forall o :: Met([], now, maxAge, outcome, o) == []
  {
  }

  /** The entries left once those of a listing have been swept. */
  ghost function Remaining(entries: set<string>, listing: seq<string>, now: int, maxAge: int, outcome: string -> Removal): set<string> {
    set n | n in entries && !(n in listing && Stale(n, now, maxAge) && !outcome(n).Failed?)
  }

  lemma RemainingNext(entries: set<string>, listing: seq<string>, k: nat, now: int, maxAge: int, outcome: string -> Removal)
    requires k < |listing|
    ensures Remaining(entries, listing[..k + 1], now, maxAge, outcome)
         == Remaining(entries, listing[..k], now, maxAge, outcome) - if Stale(listing[k], now, maxAge) && !outcome(listing[k]).Failed? then {listing[k]} else {}
  {
    hide Stale;
    assert listing[..k + 1] == listing[..k] + [listing[k]];
  }

  lemma StaleMeansOld(names: set<string>, now: int, maxAge: int)
    requires -TWO_63 <= maxAge <= MAX_INT64 && forall n :: n in names ==> Stale(n, now, maxAge)
    ensures forall n :: n in names ==> SpawnName(n) && now - CreatedAt(n) * SECOND > maxAge
  {
  }
}
