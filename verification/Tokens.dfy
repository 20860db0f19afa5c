/** Compact tokens: what is signed for claims, and reading a token of our own back. The signature
    is ideal: it verifies only over a text the key has signed. Base64 and JSON text are an encoding
    that can be undone. */
module Tokens {
  import opened Text
  import opened Json
  import opened Paths
  import opened Claims

  /** `encode` and `parse` go between an object and a segment, `seal` gives the segment of the
      signature over a text and `decode` reads such a segment. */
  datatype Codec = Codec(encode: Object -> string, parse: string -> Option<Object>,
                         seal: string -> string, decode: string -> Option<string>)

  predicate UrlText(s: string) {
    forall i :: 0 <= i < |s| ==> Letter(s[i]) || Digit(s[i]) || s[i] == '-' || s[i] == '_'
  }

  ghost predicate Faithful(codec: Codec) {
    && (forall o :: codec.parse(codec.encode(o)) == Some(o))
    && (forall o :: UrlText(codec.encode(o)) && codec.encode(o) != "")
    && (forall input :: UrlText(codec.seal(input)) && codec.seal(input) != "" && codec.decode(codec.seal(input)).Some?)
  }

  /** One signature the key has made. */
  datatype Signed = Signed(header: Object, claims: Claims)

  function Input(codec: Codec, s: Signed): string {
    codec.encode(s.header) + "." + codec.encode(Payload(s.claims))
  }

  /** The compact token of a signature. */
  function Token(codec: Codec, s: Signed): string {
    Input(codec, s) + "." + codec.seal(Input(codec, s))
  }

  /** Verifies a token against the keyring and returns its claims. `verifies` is the keyring's check
      of a signature, given the header, the text signed and the signature. */
  function ParseOwn(codec: Codec, verifies: (Object, string, string) -> bool, token: string): Option<Claims> {
    var parts := Split(TrimSpace(token), '.');
    if |parts| != 3 then None
    else
      var header, sig := codec.parse(parts[0]), codec.decode(parts[2]);
      if header.None? || sig.None? then None
      else if !verifies(header.value, parts[0] + "." + parts[1], sig.value) then None
      else
        var payload := codec.parse(parts[1]);
        if payload.None? then None else Some(ClaimsOf(payload.value))
  }

  /** Signatures cannot be forged: one verifies only over a text that was signed. */
  ghost predicate Unforgeable(codec: Codec, verifies: (Object, string, string) -> bool, made: set<Signed>) {
    forall header, input, sig :: verifies(header, input, sig) ==> exists s :: s in made && Input(codec, s) == input
  }

  predicate DatesFit(c: Claims) {
    Int64(c.iat) && Int64(c.exp) && Int64(c.cia)
  }

  lemma TwoParts(a: string, b: string, c: string, d: string)
    requires '.' !in a && '.' !in b && '.' !in c && '.' !in d
    requires a + "." + b == c + "." + d
    ensures a == c && b == d
  {
    SplitAt(a, '.', b);
    SplitAt(c, '.', d);
    SplitOne(b, '.');
    SplitOne(d, '.');
    assert a + "." + b == a + ['.'] + b && c + "." + d == c + ['.'] + d;
    assert ([a] + [b])[0] == a && ([a] + [b])[1] == b;
    assert ([c] + [d])[0] == c && ([c] + [d])[1] == d;
  }

  lemma NoDot(s: string)
    requires UrlText(s)
    ensures '.' !in s
  {
  }

  /** What reads back as our own was signed by us, with just those claims. */
  lemma ParsedWasSigned(codec: Codec, verifies: (Object, string, string) -> bool, made: set<Signed>, token: string) returns (s: Signed)
    requires Faithful(codec) && Unforgeable(codec, verifies, made)
    requires forall s :: s in made ==> DatesFit(s.claims)
    requires ParseOwn(codec, verifies, token).Some?
    ensures s in made && ParseOwn(codec, verifies, token) == Some(s.claims)
  {
    hide Split, Payload, ClaimsOf, TrimSpace, UrlText;
    var parts := Split(TrimSpace(token), '.');
    var input := parts[0] + "." + parts[1];
    s :| s in made && Input(codec, s) == input;
    SplitHasNoSeparator(TrimSpace(token), '.');
    NoDot(codec.encode(s.header));
    NoDot(codec.encode(Payload(s.claims)));
    TwoParts(parts[0], parts[1], codec.encode(s.header), codec.encode(Payload(s.claims)));
    ClaimsReadBack(s.claims);
  }

  lemma TokenParts(codec: Codec, s: Signed)
    requires Faithful(codec)
    ensures Split(Token(codec, s), '.') == [codec.encode(s.header), codec.encode(Payload(s.claims)), codec.seal(Input(codec, s))]
  {
    hide Split, Payload, UrlText;
    var h, p, g := codec.encode(s.header), codec.encode(Payload(s.claims)), codec.seal(Input(codec, s));
    NoDot(h);
    NoDot(p);
    NoDot(g);
    assert Token(codec, s) == h + ['.'] + (p + ['.'] + g);
    SplitAt(h, '.', p + ['.'] + g);
    SplitAt(p, '.', g);
    SplitOne(g, '.');
    assert [h] + ([p] + [g]) == [h, p, g];
  }

  /** A token of ours, whose signature the keyring verifies, reads back as the claims signed. */
  lemma TokenReadsBack(codec: Codec, verifies: (Object, string, string) -> bool, s: Signed)
    requires Faithful(codec) && DatesFit(s.claims)
    requires verifies(s.header, Input(codec, s), codec.decode(codec.seal(Input(codec, s))).value)
    ensures ParseOwn(codec, verifies, Token(codec, s)) == Some(s.claims)
  {
    hide Split, Payload, ClaimsOf, Input, TrimSpace;
    var t := Token(codec, s);
    TokenParts(codec, s);
    TokenEnds(codec, s);
    ClaimsReadBack(s.claims);
    InputParts(codec, s);
  }

  lemma InputParts(codec: Codec, s: Signed)
    ensures Input(codec, s) == codec.encode(s.header) + "." + codec.encode(Payload(s.claims))
  {
  }

  lemma TokenEnds(codec: Codec, s: Signed)
    requires Faithful(codec)
    ensures TrimSpace(Token(codec, s)) == Token(codec, s)
  {
    hide Payload, TrimSpace;
    var t := Token(codec, s);
    assert t[0] == codec.encode(s.header)[0];
    var g := codec.seal(Input(codec, s));
    assert t[|t| - 1] == g[|g| - 1];
    NothingToTrim(t);
  }
}
