/** Signatures: the textual pattern grammar (`"48 8B ?? 74"`), the bytes-and-mask
    form, and the per-offset match test every matcher is built on. */
module Patterns {
  import opened Common

  /** The pattern-layer errors, each returned at once to the caller. */
  datatype PatternError =
    | InvalidHex(token: string)
    | InvalidPatternFormat(token: string)
    | EmptyPattern
    | MaskLengthMismatch
    | InvalidMaskChar(c: char)

  /** One signature: per position an exact byte (`Some`) or a wildcard (`None`),
      together with the mask text it was built with. */
  datatype Pattern = Pattern(bytes: seq<Option<byte>>, mask: string)

  /** One reported hit: where it starts and how many bytes it spans. */
  datatype PatternMatch = PatternMatch(offset: nat, size: nat)

  // ---------------------------------------------------------------------------
  // Tokenizing (`str::split_whitespace`)

  /** Unicode `White_Space`, the separator class of `split_whitespace`. */
  predicate IsWhitespace(c: char)
  {
    var v := c as int;
    (9 <= v <= 13) || v == 32 || v == 0x85 || v == 0xA0 || v == 0x1680
    || (0x2000 <= v <= 0x200A) || v == 0x2028 || v == 0x2029 || v == 0x202F
    || v == 0x205F || v == 0x3000
  }

  /** A token: non-empty text without a separator in it. */
  predicate IsWord(t: string)
  {
    |t| > 0 && forall k :: 0 <= k < |t| ==> !IsWhitespace(t[k])
  }

  /** The length of the separator-free run `s` starts with. */
  function WordLength(s: string): (n: nat)
    ensures n <= |s|
    ensures forall k :: 0 <= k < n ==> !IsWhitespace(s[k])
    ensures n < |s| ==> IsWhitespace(s[n])
  {
    if s == [] || IsWhitespace(s[0]) then 0 else 1 + WordLength(s[1..])
  }

  /** The maximal separator-free runs of `s`, left to right. */
  function Tokens(s: string): (ts: seq<string>)
    ensures forall k :: 0 <= k < |ts| ==> IsWord(ts[k])
    decreases |s|
  {
    if s == [] then []
    else if IsWhitespace(s[0]) then Tokens(s[1..])
    else
      var n := WordLength(s);
      [s[..n]] + Tokens(s[n..])
  }

  lemma {:induction false} WordLengthOfWord(w: string, rest: string)
    requires IsWord(w)
    requires rest == [] || IsWhitespace(rest[0])
    ensures WordLength(w + rest) == |w|
    decreases |w|
  {
    if |w| > 1 {
      assert (w + rest)[1..] == w[1..] + rest;
      WordLengthOfWord(w[1..], rest);
    } else {
      assert (w + rest)[1..] == rest;
    }
  }

  /** A separator between two texts splits their tokens apart and adds none. */
  lemma {:induction false} TokensOfWordThen(w: string, rest: string)
    requires IsWord(w)
    ensures Tokens(w) == [w]
    ensures Tokens(w + " " + rest) == [w] + Tokens(rest)
  {
    WordLengthOfWord(w, []);
    assert w + [] == w && w[..|w|] == w && w[|w|..] == [];
    var s := w + " " + rest;
    WordLengthOfWord(w, " " + rest);
    assert s == w + (" " + rest);
    assert s[..|w|] == w;
    assert s[|w|..] == " " + rest;
    assert (" " + rest)[1..] == rest;
  }

  // ---------------------------------------------------------------------------
  // Parsing one token

  /** `u8::from_str_radix(t, 16)`: an optional leading `+`, then one or more hex
      digits of either case, and a value that fits a byte. */
  function FromStrRadix16(t: string): (r: Option<byte>)
    ensures r.Some? ==> |t| >= 1
  {
    var digits := if |t| >= 2 && t[0] == '+' then t[1..] else t;
    if digits == [] || !AllHexDigits(digits) then None
    else if HexValue(digits) < 256 then Some(HexValue(digits))
    else None
  }

  /** One token of the textual grammar: `?`/`??` is a wildcard, text of two UTF-8
      bytes must be hex, anything else is malformed. */
  function ParseToken(t: string): Result<Option<byte>, PatternError>
  {
    if t == "?" || t == "??" then Ok(None)
    else if Utf8Length(t) == 2 then
      match FromStrRadix16(t)
      case Some(b) => Ok(Some(b))
      case None => Err(InvalidHex(t))
    else Err(InvalidPatternFormat(t))
  }

  /** The tokens parsed left to right; the first bad token decides the error. */
  function ParseTokens(ts: seq<string>): Result<seq<Option<byte>>, PatternError>
  {
    if ts == [] then Ok([])
    else
      match ParseTokens(ts[..|ts| - 1])
      case Err(e) => Err(e)
      case Ok(bs) =>
        match ParseToken(ts[|ts| - 1])
        case Err(e) => Err(e)
        case Ok(b) => Ok(bs + [b])
  }

  function MaskChar(b: Option<byte>): char
  {
    if b.None? then '?' else 'x'
  }

  /** The mask text `Pattern::new` builds: `?` per wildcard, `x` per exact byte. */
  function MaskOf(bs: seq<Option<byte>>): (m: string)
    ensures |m| == |bs|
    ensures forall k :: 0 <= k < |bs| ==> m[k] == MaskChar(bs[k])
  {
    if bs == [] then "" else MaskOf(bs[..|bs| - 1]) + [MaskChar(bs[|bs| - 1])]
  }

  /** `Pattern::new`, as a value. */
  function Parse(s: string): Result<Pattern, PatternError>
  {
    match ParseTokens(Tokens(s))
    case Err(e) => Err(e)
    case Ok(bs) => if bs == [] then Err(EmptyPattern) else Ok(Pattern(bs, MaskOf(bs)))
  }

  /** Once a prefix of the tokens fails, the whole token list fails the same way. */
  lemma {:induction false} ParseTokensErrPersists(ts: seq<string>, i: nat, e: PatternError)
    requires i <= |ts|
    requires ParseTokens(ts[..i]) == Err(e)
    ensures ParseTokens(ts) == Err(e)
    decreases |ts| - i
  {
    if i < |ts| {
      assert ts[..i + 1][..i] == ts[..i];
      ParseTokensErrPersists(ts, i + 1, e);
    } else {
      assert ts[..i] == ts;
    }
  }

  /** Parsing one more token: its value is appended, or its error ends the parse. */
  lemma ParseTokensStep(ts: seq<string>, i: nat, j: nat, bs: seq<Option<byte>>)
    requires i < |ts| && j == i + 1 && ParseTokens(ts[..i]) == Ok(bs)
    ensures ParseTokens(ts[..j]) == match ParseToken(ts[i])
                                    case Err(e) => Err(e)
                                    case Ok(b) => Ok(bs + [b])
  {
    assert ts[..j][..i] == ts[..i] && ts[..j][i] == ts[i];
  }

  /** The mask of one more position is the old mask and that position's mark. */
  lemma MaskOfSnoc(bs: seq<Option<byte>>, b: Option<byte>, bs': seq<Option<byte>>)
    requires bs' == bs + [b]
    ensures MaskOf(bs') == MaskOf(bs) + [MaskChar(b)]
  {
    assert bs'[..|bs|] == bs;
  }

  /** `Pattern::new`: tokenizes, then converts token by token while building the mask. */
  method New(s: string) returns (r: Result<Pattern, PatternError>)
    ensures r == Parse(s)
  {
    var parts := Tokens(s);
    var bytes: seq<Option<byte>> := [];
    var mask: string := "";
    var i := 0;
    while i < |parts|
      invariant 0 <= i <= |parts|
      invariant ParseTokens(parts[..i]) == Ok(bytes)
      invariant mask == MaskOf(bytes)
    {
      var part := parts[i];
      ghost var at, before := i, bytes;
      ParseTokensStep(parts, at, at + 1, before);
      if part == "?" || part == "??" {
        bytes := bytes + [None];
        mask := mask + "?";
      } else if Utf8Length(part) == 2 {
        match FromStrRadix16(part)
        case None =>
          ParseTokensErrPersists(parts, at + 1, InvalidHex(part));
          return Err(InvalidHex(part));
        case Some(b) =>
          bytes := bytes + [Some(b)];
          mask := mask + "x";
      } else {
        ParseTokensErrPersists(parts, at + 1, InvalidPatternFormat(part));
        return Err(InvalidPatternFormat(part));
      }
      i := i + 1;
      MaskOfSnoc(before, bytes[|bytes| - 1], bytes);
    }
    assert parts[..i] == parts;
    if bytes == [] {
      return Err(EmptyPattern);
    }
    return Ok(Pattern(bytes, mask));
  }

  // ---------------------------------------------------------------------------
  // What parsing means

  /** The token list parses exactly when every token does, to the token's own value. */
  lemma {:induction false} ParseTokensOk(ts: seq<string>, bs: seq<Option<byte>>)
    ensures ParseTokens(ts) == Ok(bs) <==>
              |bs| == |ts| && forall k :: 0 <= k < |ts| ==> ParseToken(ts[k]) == Ok(bs[k])
  {
    if ts != [] && bs != [] {
      var n := |ts| - 1;
      ParseTokensOk(ts[..n], bs[..|bs| - 1]);
      assert bs == bs[..|bs| - 1] + [bs[|bs| - 1]];
      assert forall k :: 0 <= k < n ==> ts[..n][k] == ts[k];
    } else if ts != [] {
      match ParseTokens(ts[..|ts| - 1])
      case Err(_) =>
      case Ok(bs') =>
    }
  }

  /** The token at which parsing stops: every earlier token is good. */
  predicate FirstBadToken(ts: seq<string>, k: nat)
  {
    k < |ts| && ParseToken(ts[k]).Err? && forall j :: 0 <= j < k ==> ParseToken(ts[j]).Ok?
  }

  /** A list with a bad token fails with the error of the first bad one. */
  lemma ParseTokensFirstError(ts: seq<string>, k: nat)
    requires FirstBadToken(ts, k)
    ensures ParseTokens(ts) == Err(ParseToken(ts[k]).error)
  {
    var good := seq(k, j requires 0 <= j < k => ParseToken(ts[j]).value);
    ParseTokensOk(ts[..k], good);
    assert ts[..k + 1][..k] == ts[..k];
    ParseTokensErrPersists(ts, k + 1, ParseToken(ts[k]).error);
  }

  /** A successful parse: one position per token, each the token's value, a non-empty
      pattern, and a mask that marks exactly the wildcards with `?` and the rest with `x`. */
  lemma ParseOk(s: string, p: Pattern)
    requires Parse(s) == Ok(p)
    ensures 1 <= |p.bytes| == |Tokens(s)| == |p.mask|
    ensures forall k :: 0 <= k < |p.bytes| ==> ParseToken(Tokens(s)[k]) == Ok(p.bytes[k])
    ensures forall k :: 0 <= k < |p.bytes| ==>
              (p.mask[k] == '?' <==> p.bytes[k].None?) && (p.mask[k] == 'x' <==> p.bytes[k].Some?)
  {
    ParseTokensOk(Tokens(s), p.bytes);
  }

  /** A failing token list has a first bad token, and its error is the one reported. */
  lemma {:induction false} ParseTokensErrWitness(ts: seq<string>)
    requires ParseTokens(ts).Err?
    ensures exists k: nat :: FirstBadToken(ts, k) && ParseTokens(ts).error == ParseToken(ts[k]).error
  {
    var n := |ts| - 1;
    assert forall j :: 0 <= j < n ==> ts[..n][j] == ts[j];
    match ParseTokens(ts[..n])
    case Err(e) =>
      ParseTokensErrWitness(ts[..n]);
      var k: nat :| FirstBadToken(ts[..n], k) && e == ParseToken(ts[..n][k]).error;
      assert FirstBadToken(ts, k);
    case Ok(bs) =>
      ParseTokensOk(ts[..n], bs);
      assert FirstBadToken(ts, n);
  }

  /** `EmptyPattern` is reported exactly for text with no token in it. */
  lemma ParseEmpty(s: string)
    ensures Parse(s) == Err(EmptyPattern) <==> Tokens(s) == []
  {
    match ParseTokens(Tokens(s))
    case Ok(bs) => ParseTokensOk(Tokens(s), bs);
    case Err(e) => ParseTokensErrWitness(Tokens(s));
  }

  /** A text whose `k`-th token is its first bad one fails with that token's error. */
  lemma ParseBadToken(s: string, k: nat)
    requires FirstBadToken(Tokens(s), k)
    ensures Parse(s) == Err(ParseToken(Tokens(s)[k]).error)
  {
    ParseTokensFirstError(Tokens(s), k);
  }

  // ---------------------------------------------------------------------------
  // The textual form a pattern is written in

  /** The token a position is written as: `??` or two upper-case hex digits. */
  function TokenText(b: Option<byte>): string
  {
    if b.None? then "??" else Hex02(b.value)
  }

  function TokenTexts(bs: seq<Option<byte>>): (ts: seq<string>)
    ensures |ts| == |bs|
    ensures forall k :: 0 <= k < |bs| ==> ts[k] == TokenText(bs[k])
  {
    if bs == [] then [] else [TokenText(bs[0])] + TokenTexts(bs[1..])
  }

  /** A pattern written out in the grammar `Pattern::new` reads, tokens joined by spaces. */
  function Format(bs: seq<Option<byte>>): string
  {
    Join(TokenTexts(bs), " ")
  }

  lemma TokenTextParses(b: Option<byte>)
    ensures IsWord(TokenText(b))
    ensures ParseToken(TokenText(b)) == Ok(b)
  {
    if b.Some? {
      var t := Hex02(b.value);
      Utf8LengthAscii(t);
      assert t[0] != '+';
    }
  }

  /** Joining words with single spaces and splitting on whitespace gives the words back. */
  lemma {:induction false} TokensOfJoin(parts: seq<string>)
    requires forall k :: 0 <= k < |parts| ==> IsWord(parts[k])
    ensures Tokens(Join(parts, " ")) == parts
  {
    if |parts| == 1 {
      TokensOfWordThen(parts[0], "");
    } else if |parts| > 1 {
      TokensOfJoin(parts[1..]);
      TokensOfWordThen(parts[0], Join(parts[1..], " "));
      assert parts == [parts[0]] + parts[1..];
    }
  }

  /** Writing a pattern out and parsing it back gives the same pattern. */
  lemma FormatRoundTrip(bs: seq<Option<byte>>)
    requires bs != []
    ensures Parse(Format(bs)) == Ok(Pattern(bs, MaskOf(bs)))
  {
    var ts := TokenTexts(bs);
    forall k | 0 <= k < |ts|
      ensures IsWord(ts[k]) && ParseToken(ts[k]) == Ok(bs[k])
    {
      TokenTextParses(bs[k]);
    }
    TokensOfJoin(ts);
    ParseTokensOk(ts, bs);
  }

  /** Four positions written out: their token texts with a space between neighbours. */
  lemma FormatFour(a: Option<byte>, b: Option<byte>, c: Option<byte>, d: Option<byte>)
    ensures Format([a, b, c, d]) == TokenText(a) + " " + (TokenText(b) + " " + (TokenText(c) + " " + TokenText(d)))
  {
    var ts := TokenTexts([a, b, c, d]);
    var ta, tb, tc, td := TokenText(a), TokenText(b), TokenText(c), TokenText(d);
    assert ts == [ta, tb, tc, td];
    assert ts[3..] == [td] && ts[2..] == [tc, td] && ts[1..] == [tb, tc, td];
    var j3 := Join(ts[3..], " ");
    assert j3 == td;
    var j2 := Join(ts[2..], " ");
    assert j2 == tc + " " + j3;
    var j1 := Join(ts[1..], " ");
    assert j1 == tb + " " + j2;
    assert Join(ts, " ") == ta + " " + j1;
  }

  /** A pattern of `n` wildcards. */
  function AllWildcards(n: nat): (bs: seq<Option<byte>>)
    ensures |bs| == n && forall k :: 0 <= k < n ==> bs[k].None?
  {
    seq(n, _ => None)
  }

  /** `n` wildcard tokens separated by single spaces. */
  function WildcardsText(n: nat): string
  {
    if n == 0 then "" else if n == 1 then "??" else "?? " + WildcardsText(n - 1)
  }

  /** An all-wildcard pattern of `n` positions is written as `WildcardsText(n)`. */
  lemma {:induction false} FormatWildcards(n: nat)
    ensures Format(AllWildcards(n)) == WildcardsText(n)
  {
    var bs := AllWildcards(n);
    if n > 1 {
      FormatWildcards(n - 1);
      assert bs[1..] == AllWildcards(n - 1);
      var ts := TokenTexts(bs);
      assert ts == ["??"] + TokenTexts(bs[1..]);
      assert ts[1..] == TokenTexts(bs[1..]);
      assert Join(ts, " ") == "??" + " " + Join(ts[1..], " ");
    } else if n == 1 {
      assert TokenTexts(bs) == ["??"];
    }
  }

  /** The token texts of the running example's positions. */
  lemma ExampleTokens(bs: seq<Option<byte>>)
    requires bs == [Some(0x48), Some(0x8B), None, Some(0x74), None]
    ensures TokenTexts(bs) == ["48", "8B", "??", "74", "??"]
  {
    assert TokenText(bs[0]) == "48" by { assert HexDigit(4) == '4' && HexDigit(8) == '8'; }
    assert TokenText(bs[1]) == "8B" by { assert HexDigit(8) == '8' && HexDigit(11) == 'B'; }
    assert TokenText(bs[3]) == "74" by { assert HexDigit(7) == '7' && HexDigit(4) == '4'; }
  }

  lemma ExampleJoin(ts: seq<string>)
    requires ts == ["48", "8B", "??", "74", "??"]
    ensures Join(ts, " ") == "48 8B ?? 74 ??"
  {
    assert Join(ts[4..], " ") == "??";
    assert Join(ts[3..], " ") == "74 ??";
    assert Join(ts[2..], " ") == "?? 74 ??";
    assert Join(ts[1..], " ") == "8B ?? 74 ??";
  }

  /** The signature used as the running example: `48 8B ?? 74 ??`. */
  lemma ParseExample()
    ensures Parse("48 8B ?? 74 ??")
         == Ok(Pattern([Some(0x48), Some(0x8B), None, Some(0x74), None], "xx?x?"))
  {
    var bs: seq<Option<byte>> := [Some(0x48), Some(0x8B), None, Some(0x74), None];
    ExampleTokens(bs);
    ExampleJoin(TokenTexts(bs));
    FormatRoundTrip(bs);
    assert MaskOf(bs) == "xx?x?";
  }

  // ---------------------------------------------------------------------------
  // The bytes-and-mask form (`Pattern::from_bytes_and_mask`)

  /** `x`/`X` keeps the byte, `?` makes the position a wildcard. */
  predicate IsMaskChar(c: char)
  {
    c == 'x' || c == 'X' || c == '?'
  }

  /** The mask applied to the buffer, character by character; the first bad
      character decides the error. */
  function ApplyMask(bytes: seq<byte>, mask: string): Result<seq<Option<byte>>, PatternError>
    requires |mask| <= |bytes|
  {
    if mask == [] then Ok([])
    else
      match ApplyMask(bytes, mask[..|mask| - 1])
      case Err(e) => Err(e)
      case Ok(ps) =>
        var c := mask[|mask| - 1];
        if c == 'x' || c == 'X' then Ok(ps + [Some(bytes[|mask| - 1])])
        else if c == '?' then Ok(ps + [None])
        else Err(InvalidMaskChar(c))
  }

  /** `Pattern::from_bytes_and_mask`, as a value. The length test compares the
      buffer with the mask's UTF-8 byte length. */
  function Masked(bytes: seq<byte>, mask: string): Result<Pattern, PatternError>
  {
    if |bytes| != Utf8Length(mask) then Err(MaskLengthMismatch)
    else
      match ApplyMask(bytes, mask)
      case Err(e) => Err(e)
      case Ok(ps) => Ok(Pattern(ps, mask))
  }

  lemma {:induction false} ApplyMaskErrPersists(bytes: seq<byte>, mask: string, i: nat, e: PatternError)
    requires i <= |mask| <= |bytes|
    requires ApplyMask(bytes, mask[..i]) == Err(e)
    ensures ApplyMask(bytes, mask) == Err(e)
    decreases |mask| - i
  {
    if i < |mask| {
      assert mask[..i + 1][..i] == mask[..i];
      ApplyMaskErrPersists(bytes, mask, i + 1, e);
    } else {
      assert mask[..i] == mask;
    }
  }

  /** `Pattern::from_bytes_and_mask`: checks the lengths, then walks the mask. */
  method FromBytesAndMask(bytes: seq<byte>, mask: string) returns (r: Result<Pattern, PatternError>)
    ensures r == Masked(bytes, mask)
  {
    if |bytes| != Utf8Length(mask) {
      return Err(MaskLengthMismatch);
    }
    var patternBytes: seq<Option<byte>> := [];
    var i := 0;
    while i < |mask|
      invariant 0 <= i <= |mask|
      invariant ApplyMask(bytes, mask[..i]) == Ok(patternBytes)
    {
      var c := mask[i];
      assert mask[..i + 1][..i] == mask[..i] && mask[..i + 1][i] == c;
      if c == 'x' || c == 'X' {
        patternBytes := patternBytes + [Some(bytes[i])];
      } else if c == '?' {
        patternBytes := patternBytes + [None];
      } else {
        ApplyMaskErrPersists(bytes, mask, i + 1, InvalidMaskChar(c));
        return Err(InvalidMaskChar(c));
      }
      i := i + 1;
    }
    assert mask[..i] == mask;
    return Ok(Pattern(patternBytes, mask));
  }

  /** The mask applies exactly when every character is a mask character, and then
      position `k` is the buffer's byte or a wildcard as the mask says. */
  lemma {:induction false} ApplyMaskOk(bytes: seq<byte>, mask: string)
    requires |mask| <= |bytes|
    ensures ApplyMask(bytes, mask).Ok? <==> forall k :: 0 <= k < |mask| ==> IsMaskChar(mask[k])
    ensures ApplyMask(bytes, mask).Ok? ==>
              var ps := ApplyMask(bytes, mask).value;
              |ps| == |mask| &&
              forall k :: 0 <= k < |mask| ==> ps[k] == (if mask[k] == '?' then None else Some(bytes[k]))
  {
    if mask != [] {
      var n := |mask| - 1;
      ApplyMaskOk(bytes, mask[..n]);
      assert forall k :: 0 <= k < n ==> mask[..n][k] == mask[k];
    }
  }

  /** What `from_bytes_and_mask` accepts, and what it builds: the mask text is kept,
      and position `k` holds `bytes[k]` unless the mask has `?` there. */
  lemma MaskedSpec(bytes: seq<byte>, mask: string)
    ensures Masked(bytes, mask).Ok? <==>
              Utf8Length(mask) == |bytes| && forall k :: 0 <= k < |mask| ==> IsMaskChar(mask[k])
    ensures Masked(bytes, mask).Ok? ==>
              var p := Masked(bytes, mask).value;
              p.mask == mask && |p.bytes| == |bytes| == |mask| &&
              forall k :: 0 <= k < |mask| ==> p.bytes[k] == (if mask[k] == '?' then None else Some(bytes[k]))
    ensures Masked(bytes, mask) == Err(MaskLengthMismatch) <==> Utf8Length(mask) != |bytes|
    ensures Masked(bytes, mask).Err? && Utf8Length(mask) == |bytes| ==>
              exists k :: 0 <= k < |mask| && !IsMaskChar(mask[k]) &&
                (forall j :: 0 <= j < k ==> IsMaskChar(mask[j])) &&
                Masked(bytes, mask).error == InvalidMaskChar(mask[k])
  {
    if Utf8Length(mask) == |bytes| {
      ApplyMaskOk(bytes, mask);
      if forall k :: 0 <= k < |mask| ==> IsMaskChar(mask[k]) {
        Utf8LengthAscii(mask);
      } else {
        var k :| 0 <= k < |mask| && !IsMaskChar(mask[k]);
        ApplyMaskErr(bytes, mask);
      }
    }
  }

  /** A mask that does not apply fails on its first character that is not a mask
      character, never on length. */
  lemma {:induction false} ApplyMaskErr(bytes: seq<byte>, mask: string)
    requires |mask| <= |bytes|
    requires ApplyMask(bytes, mask).Err?
    ensures exists k :: 0 <= k < |mask| && !IsMaskChar(mask[k]) &&
              (forall j :: 0 <= j < k ==> IsMaskChar(mask[j])) &&
              ApplyMask(bytes, mask).error == InvalidMaskChar(mask[k])
  {
    var n := |mask| - 1;
    assert forall j :: 0 <= j < n ==> mask[..n][j] == mask[j];
    if ApplyMask(bytes, mask[..n]).Err? {
      ApplyMaskErr(bytes, mask[..n]);
      var k :| 0 <= k < n && !IsMaskChar(mask[..n][k]) &&
               (forall j :: 0 <= j < k ==> IsMaskChar(mask[..n][j])) &&
               ApplyMask(bytes, mask[..n]).error == InvalidMaskChar(mask[..n][k]);
      assert mask[..n][k] == mask[k];
    } else {
      ApplyMaskOk(bytes, mask[..n]);
      assert !IsMaskChar(mask[n]);
    }
  }

  /** The concrete buffer a pattern denotes with every wildcard read as zero. */
  function Filled(bs: seq<Option<byte>>): (r: seq<byte>)
    ensures |r| == |bs|
    ensures forall k :: 0 <= k < |bs| ==> bs[k].Some? ==> r[k] == bs[k].value
  {
    if bs == [] then [] else [if bs[0].None? then 0 else bs[0].value] + Filled(bs[1..])
  }

  /** The two constructors agree: a parsed pattern's mask, applied to any buffer that
      holds its exact bytes, rebuilds the pattern. */
  lemma MaskRoundTrip(bs: seq<Option<byte>>)
    ensures Masked(Filled(bs), MaskOf(bs)) == Ok(Pattern(bs, MaskOf(bs)))
  {
    var m := MaskOf(bs);
    MaskedSpec(Filled(bs), m);
    Utf8LengthAscii(m);
    var p := Masked(Filled(bs), m).value;
    assert p.bytes == bs;
  }

  // ---------------------------------------------------------------------------
  // Matching

  /** An expected position accepts a data byte: a wildcard accepts any. */
  predicate Accepts(expected: Option<byte>, b: byte)
  {
    expected.None? || expected.value == b
  }

  /** The pattern lies wholly inside `data` at `offset` and every position accepts
      the byte under it. */
  predicate Matches(p: Pattern, data: seq<byte>, offset: nat)
  {
    offset + |p.bytes| <= |data| &&
    forall i :: 0 <= i < |p.bytes| ==> Accepts(p.bytes[i], data[offset + i])
  }

  /** A pattern without wildcards. */
  predicate Exact(p: Pattern)
  {
    forall i :: 0 <= i < |p.bytes| ==> p.bytes[i].Some?
  }

  /** `Pattern::matches_at`: a bounds test, then one comparison per exact position. */
  method MatchesAt(p: Pattern, data: seq<byte>, offset: nat) returns (found: bool)
    ensures found == Matches(p, data, offset)
  {
    if offset + |p.bytes| > |data| {
      return false;
    }
    var i := 0;
    while i < |p.bytes|
      invariant 0 <= i <= |p.bytes|
      invariant forall k :: 0 <= k < i ==> Accepts(p.bytes[k], data[offset + k])
    {
      if p.bytes[i].Some? && data[offset + i] != p.bytes[i].value {
        return false;
      }
      i := i + 1;
    }
    return true;
  }

  // ---------------------------------------------------------------------------
  // What a list of hits can promise

  /** Offsets strictly increase along the list. */
  predicate Increasing(ms: seq<PatternMatch>)
  {
    forall a, b :: 0 <= a < b < |ms| ==> ms[a].offset < ms[b].offset
  }

  /** Every reported hit is a real match of the pattern's full length. */
  predicate Sound(ms: seq<PatternMatch>, p: Pattern, data: seq<byte>)
  {
    forall k :: 0 <= k < |ms| ==> ms[k].size == |p.bytes| && Matches(p, data, ms[k].offset)
  }

  /** A real hit at `o` put in front of sound, increasing hits that all lie after `o`
      keeps the list sound and increasing, with every hit at or after `o`. */
  lemma SoundCons(p: Pattern, data: seq<byte>, o: nat, rest: seq<PatternMatch>, ms: seq<PatternMatch>)
    requires Matches(p, data, o) && ms == [PatternMatch(o, |p.bytes|)] + rest
    requires Sound(rest, p, data) && Increasing(rest)
    requires forall k :: 0 <= k < |rest| ==> rest[k].offset >= o + 1
    ensures Sound(ms, p, data) && Increasing(ms)
    ensures forall k :: 0 <= k < |ms| ==> ms[k].offset >= o
  {
    assert forall k :: 1 <= k < |ms| ==> ms[k] == rest[k - 1];
  }

  /** Every match at or after `o` is reported. */
  ghost predicate CompleteFrom(ms: seq<PatternMatch>, p: Pattern, data: seq<byte>, o: nat)
  {
    forall j: nat :: o <= j && Matches(p, data, j) ==> exists k :: 0 <= k < |ms| && ms[k].offset == j
  }
}
