/** Matcher selection and the high-level scanner. A matcher is data: one of the
    three algorithms, or the hybrid that picks one from the pattern's shape. */
module Matchers {
  import opened Common
  import opened Patterns
  import Naive
  import BoyerMoore
  import Kmp

  datatype MatcherKind = NaiveMatcher | BoyerMooreMatcher | KmpMatcher | HybridMatcher

  function WildcardCount(bs: seq<Option<byte>>): (n: nat)
    ensures n <= |bs|
    ensures n == 0 <==> forall k :: 0 <= k < |bs| ==> bs[k].Some?
  {
    if bs == [] then 0 else (if bs[0].None? then 1 else 0) + WildcardCount(bs[1..])
  }

  /** `HybridMatcher::select_matcher`: Boyer-Moore for patterns of at least 8 bytes
      with under 30% wildcards, otherwise KMP from 4 bytes on, otherwise naive. The
      ratio test `wildcards / len < 0.3` is taken exactly, as `10 * wildcards < 3 * len`. */
  function SelectMatcher(p: Pattern): (k: MatcherKind)
    ensures k != HybridMatcher
    ensures k == BoyerMooreMatcher <==> |p.bytes| >= 8 && 10 * WildcardCount(p.bytes) < 3 * |p.bytes|
    ensures k == KmpMatcher <==> |p.bytes| >= 4 && !(|p.bytes| >= 8 && 10 * WildcardCount(p.bytes) < 3 * |p.bytes|)
    ensures k == NaiveMatcher <==> |p.bytes| < 4
  {
    if |p.bytes| >= 8 && 10 * WildcardCount(p.bytes) < 3 * |p.bytes| then BoyerMooreMatcher
    else if |p.bytes| >= 4 then KmpMatcher
    else NaiveMatcher
  }

  /** `find_all` of a matcher. The Boyer-Moore and KMP entries are the corrected
      searches; a pattern without wildcards gets the same hits from the searches as
      written (`FindAllAsWritten`). */
  function FindAll(kind: MatcherKind, p: Pattern, data: seq<byte>): seq<PatternMatch>
    decreases if kind == HybridMatcher then 1 else 0
  {
    match kind
    case NaiveMatcher => Naive.AllMatches(p, data)
    case BoyerMooreMatcher => BoyerMoore.FixedAllMatches(p, data)
    case KmpMatcher => Kmp.CheckedAllMatches(p, data)
    case HybridMatcher => FindAll(SelectMatcher(p), p, data)
  }

  /** `find_first` of a matcher. */
  function FindFirst(kind: MatcherKind, p: Pattern, data: seq<byte>): Option<PatternMatch>
    decreases if kind == HybridMatcher then 1 else 0
  {
    match kind
    case NaiveMatcher => Naive.FirstMatch(p, data)
    case BoyerMooreMatcher => BoyerMoore.FixedFirstMatch(p, data)
    case KmpMatcher => Kmp.CheckedFirstMatch(p, data)
    case HybridMatcher => FindFirst(SelectMatcher(p), p, data)
  }

  /** The matchers exactly as the code dispatches them. */
  function FindAllAsWritten(kind: MatcherKind, p: Pattern, data: seq<byte>): seq<PatternMatch>
    decreases if kind == HybridMatcher then 1 else 0
  {
    match kind
    case NaiveMatcher => Naive.AllMatches(p, data)
    case BoyerMooreMatcher => BoyerMoore.AllMatches(p, data)
    case KmpMatcher => Kmp.AllMatches(p, data)
    case HybridMatcher => FindAllAsWritten(SelectMatcher(p), p, data)
  }

  function FindFirstAsWritten(kind: MatcherKind, p: Pattern, data: seq<byte>): Option<PatternMatch>
    decreases if kind == HybridMatcher then 1 else 0
  {
    match kind
    case NaiveMatcher => Naive.FirstMatch(p, data)
    case BoyerMooreMatcher => BoyerMoore.FirstMatch(p, data)
    case KmpMatcher => Kmp.FirstMatch(p, data)
    case HybridMatcher => FindFirstAsWritten(SelectMatcher(p), p, data)
  }

  /** Every matcher, the hybrid included, reports the reference hits. */
  lemma FindAllAgrees(kind: MatcherKind, p: Pattern, data: seq<byte>)
    ensures FindAll(kind, p, data) == Naive.AllMatches(p, data)
  {
    BoyerMoore.FixedAllMatchesIsNaive(p, data);
    Kmp.CheckedAllMatchesIsNaive(p, data);
  }

  lemma FindFirstAgrees(kind: MatcherKind, p: Pattern, data: seq<byte>)
    ensures FindFirst(kind, p, data) == Naive.FirstMatch(p, data)
  {
    BoyerMoore.FixedFirstMatchIsNaive(p, data);
    Kmp.CheckedFirstMatchIsNaive(p, data);
  }

  /** For a pattern without wildcards the three algorithms as written agree with each
      other and with the corrected matchers. */
  lemma AsWrittenAgreesWhenExact(kind: MatcherKind, p: Pattern, data: seq<byte>)
    requires Exact(p)
    ensures FindAllAsWritten(kind, p, data) == FindAll(kind, p, data) == Naive.AllMatches(p, data)
    ensures FindFirstAsWritten(kind, p, data) == FindFirst(kind, p, data) == Naive.FirstMatch(p, data)
  {
    BoyerMoore.AllMatchesExact(p, data);
    BoyerMoore.FirstMatchExact(p, data);
    Kmp.AllMatchesExact(p, data);
    Kmp.FirstMatchExact(p, data);
    FindAllAgrees(kind, p, data);
    FindFirstAgrees(kind, p, data);
  }

  // ---------------------------------------------------------------------------
  // The scanner

  datatype PatternScanner = PatternScanner(matcher: MatcherKind)

  /** `PatternScanner::new` and `Default`: the hybrid matcher. */
  function NewScanner(): (s: PatternScanner)
    ensures s.matcher == HybridMatcher
  {
    PatternScanner(HybridMatcher)
  }

  /** `PatternScanner::with_matcher`. */
  function WithMatcher(kind: MatcherKind): (s: PatternScanner)
    ensures s.matcher == kind
  {
    PatternScanner(kind)
  }

  /** `PatternScanner::scan`: a pattern error is returned before any searching. */
  function Scan(s: PatternScanner, patternText: string, data: seq<byte>): Result<seq<PatternMatch>, PatternError>
  {
    match Parse(patternText)
    case Err(e) => Err(e)
    case Ok(p) => Ok(FindAll(s.matcher, p, data))
  }

  /** `PatternScanner::scan_first`. */
  function ScanFirst(s: PatternScanner, patternText: string, data: seq<byte>): Result<Option<PatternMatch>, PatternError>
  {
    match Parse(patternText)
    case Err(e) => Err(e)
    case Ok(p) => Ok(FindFirst(s.matcher, p, data))
  }

  /** `PatternScanner::scan_pattern`. */
  function ScanPattern(s: PatternScanner, p: Pattern, data: seq<byte>): seq<PatternMatch>
  {
    FindAll(s.matcher, p, data)
  }

  /** `PatternScanner::scan_pattern_first`. */
  function ScanPatternFirst(s: PatternScanner, p: Pattern, data: seq<byte>): Option<PatternMatch>
  {
    FindFirst(s.matcher, p, data)
  }

  /** Scanning text fails exactly when the text does not parse, with the same error;
      otherwise it reports every match of the parsed pattern, once each, in order. */
  lemma ScanSpec(s: PatternScanner, patternText: string, data: seq<byte>)
    ensures Scan(s, patternText, data).Err? <==> Parse(patternText).Err?
    ensures Scan(s, patternText, data).Err? ==> Scan(s, patternText, data).error == Parse(patternText).error
    ensures Scan(s, patternText, data).Ok? ==>
              var p := Parse(patternText).value;
              var ms := Scan(s, patternText, data).value;
              Sound(ms, p, data) && Increasing(ms) && CompleteFrom(ms, p, data, 0)
  {
    if Parse(patternText).Ok? {
      var p := Parse(patternText).value;
      ParseOk(patternText, p);
      FindAllAgrees(s.matcher, p, data);
      Naive.AllMatchesSpec(p, data);
    }
  }

  /** `scan_first` is the first hit `scan` reports. */
  lemma ScanFirstIsHead(s: PatternScanner, patternText: string, data: seq<byte>)
    ensures ScanFirst(s, patternText, data).Err? <==> Scan(s, patternText, data).Err?
    ensures Scan(s, patternText, data).Ok? ==>
              var ms := Scan(s, patternText, data).value;
              ScanFirst(s, patternText, data).value == if ms == [] then None else Some(ms[0])
  {
    if Parse(patternText).Ok? {
      var p := Parse(patternText).value;
      FindAllAgrees(s.matcher, p, data);
      FindFirstAgrees(s.matcher, p, data);
      Naive.FirstMatchIsHead(p, data);
    }
  }

  // ---------------------------------------------------------------------------
  // The repository's own examples

  lemma ShortExampleFormat(bs: seq<Option<byte>>)
    requires bs == [Some(0x48), Some(0x8B), None, Some(0x74)]
    ensures Format(bs) == "48 8B ?? 74"
  {
    assert TokenText(bs[0]) == "48" by { assert HexDigit(4) == '4' && HexDigit(8) == '8'; }
    assert TokenText(bs[1]) == "8B" by { assert HexDigit(8) == '8' && HexDigit(11) == 'B'; }
    assert TokenText(bs[3]) == "74" by { assert HexDigit(7) == '7' && HexDigit(4) == '4'; }
    FormatFour(bs[0], bs[1], bs[2], bs[3]);
  }

  /** The signature of `test_pattern_matching`. */
  lemma ParseShortExample()
    ensures Parse("48 8B ?? 74") == Ok(Pattern([Some(0x48), Some(0x8B), None, Some(0x74)], "xx?x"))
  {
    var bs: seq<Option<byte>> := [Some(0x48), Some(0x8B), None, Some(0x74)];
    ShortExampleFormat(bs);
    FormatRoundTrip(bs);
    assert MaskOf(bs) == "xx?x";
  }

  lemma ShortExampleHits(p: Pattern, data: seq<byte>)
    requires p == Pattern([Some(0x48), Some(0x8B), None, Some(0x74)], "xx?x")
    requires data == [0x48, 0x8B, 0x05, 0x74, 0x12, 0x90, 0x48, 0x8B, 0xFF, 0x74, 0x34]
    ensures Naive.AllMatches(p, data) == [PatternMatch(0, 4), PatternMatch(6, 4)]
  {
    assert Naive.From(p, data, 8) == [];
    assert !Accepts(p.bytes[0], data[7]);
    assert Naive.From(p, data, 7) == [];
    assert Matches(p, data, 6);
    assert Naive.From(p, data, 6) == [PatternMatch(6, 4)];
    assert !Accepts(p.bytes[0], data[5]);
    assert Naive.From(p, data, 5) == [PatternMatch(6, 4)];
    assert !Accepts(p.bytes[0], data[4]);
    assert Naive.From(p, data, 4) == [PatternMatch(6, 4)];
    assert !Accepts(p.bytes[0], data[3]);
    assert Naive.From(p, data, 3) == [PatternMatch(6, 4)];
    assert !Accepts(p.bytes[0], data[2]);
    assert Naive.From(p, data, 2) == [PatternMatch(6, 4)];
    assert !Accepts(p.bytes[0], data[1]);
    assert Naive.From(p, data, 1) == [PatternMatch(6, 4)];
    assert Matches(p, data, 0);
  }

  /** `48 8B ?? 74` over the eleven-byte buffer of `test_pattern_matching` is found at
      offsets 0 and 6 by the default scanner. */
  lemma ScannerExample()
    ensures var data: seq<byte> := [0x48, 0x8B, 0x05, 0x74, 0x12, 0x90, 0x48, 0x8B, 0xFF, 0x74, 0x34];
            Scan(NewScanner(), "48 8B ?? 74", data) == Ok([PatternMatch(0, 4), PatternMatch(6, 4)])
  {
    var data: seq<byte> := [0x48, 0x8B, 0x05, 0x74, 0x12, 0x90, 0x48, 0x8B, 0xFF, 0x74, 0x34];
    var p := Pattern([Some(0x48), Some(0x8B), None, Some(0x74)], "xx?x");
    ParseShortExample();
    FindAllAgrees(HybridMatcher, p, data);
    ShortExampleHits(p, data);
  }

  lemma PairExampleHits(p: Pattern, data: seq<byte>)
    requires p == Pattern([Some(0x34), Some(0x56)], "xx")
    requires data == [0x12, 0x34, 0x56, 0x78, 0x9A, 0x34, 0x56, 0xBC]
    ensures Naive.AllMatches(p, data) == [PatternMatch(1, 2), PatternMatch(5, 2)]
  {
    assert Naive.From(p, data, 7) == [];
    assert !Accepts(p.bytes[0], data[6]);
    assert Naive.From(p, data, 6) == [];
    assert Matches(p, data, 5);
    assert Naive.From(p, data, 5) == [PatternMatch(5, 2)];
    assert !Accepts(p.bytes[0], data[4]);
    assert Naive.From(p, data, 4) == [PatternMatch(5, 2)];
    assert !Accepts(p.bytes[0], data[3]);
    assert Naive.From(p, data, 3) == [PatternMatch(5, 2)];
    assert !Accepts(p.bytes[0], data[2]);
    assert Naive.From(p, data, 2) == [PatternMatch(5, 2)];
    assert Matches(p, data, 1);
    assert Naive.From(p, data, 1) == [PatternMatch(1, 2), PatternMatch(5, 2)];
    assert !Accepts(p.bytes[0], data[0]);
  }

  /** `34 56` over the buffer of `test_different_matchers` is found at offsets 1 and 5
      by each of the three algorithms as written. */
  lemma AlgorithmsExample(kind: MatcherKind)
    ensures var data: seq<byte> := [0x12, 0x34, 0x56, 0x78, 0x9A, 0x34, 0x56, 0xBC];
            var p := Pattern([Some(0x34), Some(0x56)], "xx");
            FindAllAsWritten(kind, p, data) == [PatternMatch(1, 2), PatternMatch(5, 2)]
  {
    var data: seq<byte> := [0x12, 0x34, 0x56, 0x78, 0x9A, 0x34, 0x56, 0xBC];
    var p := Pattern([Some(0x34), Some(0x56)], "xx");
    AsWrittenAgreesWhenExact(kind, p, data);
    PairExampleHits(p, data);
  }
}
