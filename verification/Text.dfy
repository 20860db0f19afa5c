/** Optional values and results, and the string functions of the Go standard library the
    modelled code calls. A Go string is a sequence of bytes; a byte is the character with
    that code. */
module Text {

  datatype Option<+T> = None | Some(value: T)

  datatype Result<+T, +E> = Ok(value: T) | Err(error: E)

  predicate HasPrefix(s: string, prefix: string) {
    |prefix| <= |s| && s[..|prefix|] == prefix
  }

  predicate HasSuffix(s: string, suffix: string) {
    |suffix| <= |s| && s[|s| - |suffix|..] == suffix
  }

  function TrimSuffix(s: string, suffix: string): string {
    if HasSuffix(s, suffix) then s[..|s| - |suffix|] else s
  }

  /** strings.TrimRight with a one-character cutset. */
  function TrimRight(s: string, c: char): string {
    if |s| > 0 && s[|s| - 1] == c then TrimRight(s[..|s| - 1], c) else s
  }

  /** strings.Split with a one-character separator. */
  function Split(s: string, sep: char): (parts: seq<string>)
    ensures |parts| > 0
  {
    if s == "" then [""]
    else
      var rest := Split(s[1..], sep);
      if s[0] == sep then [""] + rest else [[s[0]] + rest[0]] + rest[1..]
  }

  predicate Letter(c: char) { 'a' <= c <= 'z' || 'A' <= c <= 'Z' }

  predicate Digit(c: char) { '0' <= c <= '9' }

  /** What follows the last occurrence of `c`, or all of `s` when there is none. */
  function AfterLast(s: string, c: char): string {
    if s == "" then ""
    else if s[|s| - 1] == c then ""
    else AfterLast(s[..|s| - 1], c) + [s[|s| - 1]]
  }

  // -------------------------------------------------------------- UTF-8

  /** Byte `i` of `s` lies between `low` and `high`. */
  predicate ByteIn(s: string, i: nat, low: int, high: int) {
    i < |s| && low <= s[i] as int <= high
  }

  /** The length of the character that opens `s`; a byte that opens no valid encoding counts alone. */
  function RuneLen(s: string): (n: nat)
    requires s != ""
    ensures 1 <= n <= |s|
  {
    if ByteIn(s, 0, 0xC2, 0xDF) && ByteIn(s, 1, 0x80, 0xBF) then 2
    else if ByteIn(s, 2, 0x80, 0xBF)
            && ((ByteIn(s, 0, 0xE0, 0xE0) && ByteIn(s, 1, 0xA0, 0xBF)) || (ByteIn(s, 0, 0xE1, 0xEC) && ByteIn(s, 1, 0x80, 0xBF))
                || (ByteIn(s, 0, 0xED, 0xED) && ByteIn(s, 1, 0x80, 0x9F)) || (ByteIn(s, 0, 0xEE, 0xEF) && ByteIn(s, 1, 0x80, 0xBF))) then 3
    else if ByteIn(s, 2, 0x80, 0xBF) && ByteIn(s, 3, 0x80, 0xBF)
            && ((ByteIn(s, 0, 0xF0, 0xF0) && ByteIn(s, 1, 0x90, 0xBF)) || (ByteIn(s, 0, 0xF1, 0xF3) && ByteIn(s, 1, 0x80, 0xBF))
                || (ByteIn(s, 0, 0xF4, 0xF4) && ByteIn(s, 1, 0x80, 0x8F))) then 4
    else 1
  }

  /** The length of the white-space character of Unicode that opens `s`, or 0. */
  function LeadingSpace(s: string): (n: nat)
    ensures n <= |s|
  {
    if s == "" then 0
    else if s[0] == ' ' || '\t' <= s[0] <= '\r' then 1
    else if ByteIn(s, 0, 0xC2, 0xC2) && (ByteIn(s, 1, 0x85, 0x85) || ByteIn(s, 1, 0xA0, 0xA0)) then 2
    else if ByteIn(s, 0, 0xE1, 0xE1) && ByteIn(s, 1, 0x9A, 0x9A) && ByteIn(s, 2, 0x80, 0x80) then 3
    else if ByteIn(s, 0, 0xE2, 0xE2) && ByteIn(s, 1, 0x80, 0x80)
            && (ByteIn(s, 2, 0x80, 0x8A) || ByteIn(s, 2, 0xA8, 0xA9) || ByteIn(s, 2, 0xAF, 0xAF)) then 3
    else if ByteIn(s, 0, 0xE2, 0xE2) && ByteIn(s, 1, 0x81, 0x81) && ByteIn(s, 2, 0x9F, 0x9F) then 3
    else if ByteIn(s, 0, 0xE3, 0xE3) && ByteIn(s, 1, 0x80, 0x80) && ByteIn(s, 2, 0x80, 0x80) then 3
    else 0
  }

  /** The length of the white-space character that ends `s`, or 0. */
  function TrailingSpace(s: string): (n: nat)
    ensures n <= |s|
  {
    if |s| >= 1 && LeadingSpace(s[|s| - 1..]) == 1 then 1
    else if |s| >= 2 && LeadingSpace(s[|s| - 2..]) == 2 then 2
    else if |s| >= 3 && LeadingSpace(s[|s| - 3..]) == 3 then 3
    else 0
  }

  function TrimSpace(s: string): string
    decreases |s|
  {
    if LeadingSpace(s) > 0 then TrimSpace(s[LeadingSpace(s)..])
    else if TrailingSpace(s) > 0 then TrimSpace(s[..|s| - TrailingSpace(s)])
    else s
  }

  predicate Printing(c: char) { ' ' < c <= '~' }

  lemma PrintingOpens(s: string)
    requires s != "" && Printing(s[0])
    ensures LeadingSpace(s) == 0
  {
  }

  lemma PrintingCloses(s: string)
    requires s != "" && Printing(s[|s| - 1])
    ensures LeadingSpace(s) != |s|
  {
  }

  /** Text that begins and ends with printing ASCII characters has nothing to trim. */
  lemma NothingToTrim(s: string)
    requires s != "" && Printing(s[0]) && Printing(s[|s| - 1])
    ensures TrimSpace(s) == s
  {
    hide LeadingSpace;
    PrintingOpens(s);
    PrintingCloses(s[|s| - 1..]);
    if |s| >= 2 { PrintingCloses(s[|s| - 2..]); }
    if |s| >= 3 { PrintingCloses(s[|s| - 3..]); }
  }
}
