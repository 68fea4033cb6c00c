/** Boyer-Moore search with the bad-character rule, as the matcher applies it,
    and the wildcard-aware shift that makes it agree with the reference matcher. */
module BoyerMoore {
  import opened Common
  import opened Patterns
  import Naive

  function Max(a: int, b: int): int
  {
    if a >= b then a else b
  }

  // ---------------------------------------------------------------------------
  // The bad-character table

  /** The table after inserting the first `n` positions: each exact byte maps to the
      last position that holds it, because a later insert overwrites an earlier one. */
  function TableUpTo(bs: seq<Option<byte>>, n: nat): map<byte, nat>
    requires n <= |bs|
  {
    if n == 0 then map[]
    else
      var t := TableUpTo(bs, n - 1);
      if bs[n - 1].Some? then t[bs[n - 1].value := n - 1] else t
  }

  function BadCharTable(p: Pattern): map<byte, nat>
  {
    TableUpTo(p.bytes, |p.bytes|)
  }

  /** `t` maps exactly the exact bytes among the first `n` positions, each to the
      rightmost position holding it. */
  predicate RightmostUpTo(bs: seq<Option<byte>>, t: map<byte, nat>, n: nat)
    requires n <= |bs|
  {
    (forall c :: c in t ==>
       t[c] < n && bs[t[c]] == Some(c) && forall i :: t[c] < i < n ==> bs[i] != Some(c))
    && (forall i :: 0 <= i < n && bs[i].Some? ==> bs[i].value in t)
  }

  lemma {:induction false} TableUpToRightmost(bs: seq<Option<byte>>, n: nat)
    requires n <= |bs|
    ensures RightmostUpTo(bs, TableUpTo(bs, n), n)
  {
    if n > 0 {
      TableUpToRightmost(bs, n - 1);
    }
  }

  /** The table holds exactly the pattern's exact bytes, each at its rightmost position. */
  lemma BadCharTableSpec(p: Pattern)
    ensures RightmostUpTo(p.bytes, BadCharTable(p), |p.bytes|)
  {
    TableUpToRightmost(p.bytes, |p.bytes|);
  }

  /** `BoyerMooreMatcher::build_bad_char_table`. */
  method BuildBadCharTable(p: Pattern) returns (table: map<byte, nat>)
    ensures table == BadCharTable(p)
  {
    table := map[];
    var i := 0;
    while i < |p.bytes|
      invariant 0 <= i <= |p.bytes|
      invariant table == TableUpTo(p.bytes, i)
    {
      if p.bytes[i].Some? {
        table := table[p.bytes[i].value := i];
      }
      i := i + 1;
    }
  }

  // ---------------------------------------------------------------------------
  // The search as written

  /** How far the window moves after a mismatch whose last window byte is `c`:
      `max(1, len - pos - 1)` when `c` is in the table at `pos`, else the full length. */
  function Shift(p: Pattern, t: map<byte, nat>, c: byte): (s: nat)
    ensures 1 <= s
  {
    if c in t then Max(1, |p.bytes| - t[c] - 1) else Max(1, |p.bytes|)
  }

  /** The hits `find_all` reports once its window stands at offset `i`. A mismatching
      window always moves by the shift of its last byte: the inner comparison loop
      re-tests `matches_at` first, so it ends either at a full match or at once. */
  function From(p: Pattern, t: map<byte, nat>, data: seq<byte>, i: nat): seq<PatternMatch>
    decreases |data| - i
  {
    if |p.bytes| == 0 || i + |p.bytes| > |data| then []
    else if Matches(p, data, i) then [PatternMatch(i, |p.bytes|)] + From(p, t, data, i + 1)
    else From(p, t, data, i + Shift(p, t, data[i + |p.bytes| - 1]))
  }

  /** The hit `find_first` reports once its window stands at offset `i`; at the
      last window it steps by one instead of consulting the table. */
  function FirstFrom(p: Pattern, t: map<byte, nat>, data: seq<byte>, i: nat): Option<PatternMatch>
    decreases |data| - i
  {
    if |p.bytes| == 0 || i + |p.bytes| > |data| then None
    else if Matches(p, data, i) then Some(PatternMatch(i, |p.bytes|))
    else if i + |p.bytes| < |data| then FirstFrom(p, t, data, i + Shift(p, t, data[i + |p.bytes| - 1]))
    else FirstFrom(p, t, data, i + 1)
  }

  /** `BoyerMooreMatcher::find_all`, as a value. */
  function AllMatches(p: Pattern, data: seq<byte>): seq<PatternMatch>
  {
    if |p.bytes| == 0 || |data| < |p.bytes| then [] else From(p, BadCharTable(p), data, 0)
  }

  /** `BoyerMooreMatcher::find_first`, as a value. */
  function FirstMatch(p: Pattern, data: seq<byte>): Option<PatternMatch>
  {
    if |p.bytes| == 0 || |data| < |p.bytes| then None else FirstFrom(p, BadCharTable(p), data, 0)
  }

  /** The right-to-left comparison loop of `find_all`. Its condition re-tests
      `matches_at` on every round, so it runs to 0 on a full match and stops at
      once otherwise: the per-byte mismatch exit is never taken. */
  method CompareWindow(p: Pattern, data: seq<byte>, i: nat) returns (j: nat)
    requires |p.bytes| > 0
    ensures j == 0 <==> Matches(p, data, i)
    ensures j == 0 || j == |p.bytes|
  {
    j := |p.bytes|;
    while j > 0
      invariant 0 <= j <= |p.bytes|
      invariant j < |p.bytes| ==> Matches(p, data, i)
      decreases j
    {
      var window := MatchesAt(p, data, i);
      if !window {
        break;
      }
      if p.bytes[j - 1].Some? && data[i + j - 1] != p.bytes[j - 1].value {
        break;
      }
      j := j - 1;
    }
  }

  /** `BoyerMooreMatcher::find_all`: the window loop with its right-to-left inner
      comparison loop. */
  method FindAll(p: Pattern, data: seq<byte>) returns (ms: seq<PatternMatch>)
    ensures ms == AllMatches(p, data)
  {
    ms := [];
    if |p.bytes| == 0 || |data| < |p.bytes| {
      return;
    }
    var table := BuildBadCharTable(p);
    BadCharTableSpec(p);
    var len := |p.bytes|;
    var i := 0;
    while i <= |data| - len
      invariant ms + From(p, table, data, i) == From(p, table, data, 0)
      decreases |data| - i
    {
      var j := CompareWindow(p, data, i);
      ghost var before, at := ms, i;
      if j == 0 {
        ms := ms + [PatternMatch(i, len)];
        i := i + 1;
        FromMatchStep(p, table, data, at, i);
        Regroup(before, From(p, table, data, at), [PatternMatch(at, len)], From(p, table, data, i),
                ms, From(p, table, data, 0));
      } else {
        var badChar := data[i + j - 1];
        var shift := if badChar in table then Max(1, j - table[badChar] - 1) else j;
        assert j == |p.bytes| && badChar == data[at + |p.bytes| - 1];
        assert shift == Shift(p, table, badChar);
        i := i + shift;
        FromMissStep(p, table, data, at, shift, i);
      }
    }
    assert ms + [] == ms;
  }

  /** `BoyerMooreMatcher::find_first`. */
  method FindFirst(p: Pattern, data: seq<byte>) returns (r: Option<PatternMatch>)
    ensures r == FirstMatch(p, data)
  {
    if |p.bytes| == 0 || |data| < |p.bytes| {
      return None;
    }
    var table := BuildBadCharTable(p);
    var len := |p.bytes|;
    var i := 0;
    while i <= |data| - len
      invariant FirstFrom(p, table, data, i) == FirstFrom(p, table, data, 0)
      decreases |data| - i
    {
      var found := MatchesAt(p, data, i);
      if found {
        return Some(PatternMatch(i, len));
      }
      if i + len < |data| {
        var badChar := data[i + len - 1];
        if badChar in table {
          i := i + Max(1, len - table[badChar] - 1);
        } else {
          i := i + len;
        }
      } else {
        i := i + 1;
      }
    }
    return None;
  }

  // ---------------------------------------------------------------------------
  // What the search as written promises

  /** Every reported hit is a real match, in increasing order, none before `i`. */
  lemma {:induction false} FromSound(p: Pattern, t: map<byte, nat>, data: seq<byte>, i: nat)
    ensures Sound(From(p, t, data, i), p, data)
    ensures Increasing(From(p, t, data, i))
    ensures forall k :: 0 <= k < |From(p, t, data, i)| ==> From(p, t, data, i)[k].offset >= i
    decreases |data| - i
  {
    if |p.bytes| > 0 && i + |p.bytes| <= |data| {
      if Matches(p, data, i) {
        var k := i + 1;
        FromSound(p, t, data, k);
        FromMatchStep(p, t, data, i, k);
        SoundCons(p, data, i, From(p, t, data, k), From(p, t, data, i));
      } else {
        var s := Shift(p, t, data[i + |p.bytes| - 1]);
        var k := i + s;
        FromSound(p, t, data, k);
        FromMissStep(p, t, data, i, s, k);
      }
    }
  }

  /** `find_all` never reports a false hit, whatever the pattern. */
  lemma AllMatchesSound(p: Pattern, data: seq<byte>)
    ensures Sound(AllMatches(p, data), p, data) && Increasing(AllMatches(p, data))
  {
    FromSound(p, BadCharTable(p), data, 0);
  }

  lemma {:induction false} FirstFromIsHead(p: Pattern, t: map<byte, nat>, data: seq<byte>, i: nat)
    ensures FirstFrom(p, t, data, i) == if From(p, t, data, i) == [] then None else Some(From(p, t, data, i)[0])
    decreases |data| - i
  {
    if |p.bytes| > 0 && i + |p.bytes| <= |data| && !Matches(p, data, i) {
      var s := Shift(p, t, data[i + |p.bytes| - 1]);
      var k := i + s;
      FromMissStep(p, t, data, i, s, k);
      if i + |p.bytes| < |data| {
        FirstFromIsHead(p, t, data, k);
        FirstFromMissStep(p, t, data, i, s, k);
      } else {
        FirstFromLastWindow(p, t, data, i);
      }
    }
  }

  /** `find_first` walks the same windows as `find_all` and stops at its first hit. */
  lemma FirstMatchIsHead(p: Pattern, data: seq<byte>)
    ensures FirstMatch(p, data) == if AllMatches(p, data) == [] then None else Some(AllMatches(p, data)[0])
  {
    FirstFromIsHead(p, BadCharTable(p), data, 0);
  }

  // ---------------------------------------------------------------------------
  // The wildcard-aware shift

  /** The last wildcard position, or -1 when there is none. */
  function LastWildcard(bs: seq<Option<byte>>): (r: int)
    ensures -1 <= r < |bs|
    ensures r >= 0 ==> bs[r].None?
    ensures forall k :: r < k < |bs| ==> bs[k].Some?
  {
    if bs == [] then -1
    else if bs[|bs| - 1].None? then |bs| - 1
    else LastWildcard(bs[..|bs| - 1])
  }

  /** The shift with wildcards counted as occurrences of every byte: the window may
      only move past positions that can neither hold a wildcard nor the bad byte. */
  function FixedShift(p: Pattern, t: map<byte, nat>, c: byte): (s: nat)
    ensures 1 <= s
  {
    var pos := Max(if c in t then t[c] else -1, LastWildcard(p.bytes));
    if pos < 0 then Max(1, |p.bytes|) else Max(1, |p.bytes| - pos - 1)
  }

  function FixedFrom(p: Pattern, t: map<byte, nat>, data: seq<byte>, i: nat): seq<PatternMatch>
    decreases |data| - i
  {
    if |p.bytes| == 0 || i + |p.bytes| > |data| then []
    else if Matches(p, data, i) then [PatternMatch(i, |p.bytes|)] + FixedFrom(p, t, data, i + 1)
    else FixedFrom(p, t, data, i + FixedShift(p, t, data[i + |p.bytes| - 1]))
  }

  function FixedFirstFrom(p: Pattern, t: map<byte, nat>, data: seq<byte>, i: nat): Option<PatternMatch>
    decreases |data| - i
  {
    if |p.bytes| == 0 || i + |p.bytes| > |data| then None
    else if Matches(p, data, i) then Some(PatternMatch(i, |p.bytes|))
    else if i + |p.bytes| < |data| then FixedFirstFrom(p, t, data, i + FixedShift(p, t, data[i + |p.bytes| - 1]))
    else FixedFirstFrom(p, t, data, i + 1)
  }

  /** Boyer-Moore `find_all` with the wildcard-aware shift. */
  function FixedAllMatches(p: Pattern, data: seq<byte>): seq<PatternMatch>
  {
    if |p.bytes| == 0 || |data| < |p.bytes| then [] else FixedFrom(p, BadCharTable(p), data, 0)
  }

  /** Boyer-Moore `find_first` with the wildcard-aware shift. */
  function FixedFirstMatch(p: Pattern, data: seq<byte>): Option<PatternMatch>
  {
    if |p.bytes| == 0 || |data| < |p.bytes| then None else FixedFirstFrom(p, BadCharTable(p), data, 0)
  }

  /** No window skipped by the wildcard-aware shift can match. */
  lemma FixedShiftSafe(p: Pattern, t: map<byte, nat>, data: seq<byte>, i: nat, j: nat)
    requires |p.bytes| > 0 && i + |p.bytes| <= |data| && RightmostUpTo(p.bytes, t, |p.bytes|)
    requires i < j < i + FixedShift(p, t, data[i + |p.bytes| - 1])
    ensures !Matches(p, data, j)
  {
    var len := |p.bytes|;
    var c := data[i + len - 1];
    if j + len <= |data| {
      var q := i + len - 1 - j;
      assert 0 <= q < len && j + q == i + len - 1;
      assert p.bytes[q].Some? && p.bytes[q] != Some(c);
      assert !Accepts(p.bytes[q], data[j + q]);
    }
  }

  /** With the wildcard-aware shift the search reports exactly the reference hits. */
  lemma {:induction false} FixedFromIsNaive(p: Pattern, t: map<byte, nat>, data: seq<byte>, i: nat)
    requires |p.bytes| > 0 && RightmostUpTo(p.bytes, t, |p.bytes|)
    ensures FixedFrom(p, t, data, i) == Naive.From(p, data, i)
    decreases |data| - i
  {
    if i + |p.bytes| <= |data| {
      if Matches(p, data, i) {
        FixedFromIsNaive(p, t, data, i + 1);
        FixedHitAgrees(p, t, data, i);
      } else {
        var s := FixedShift(p, t, data[i + |p.bytes| - 1]);
        var k := i + s;
        FixedFromIsNaive(p, t, data, k);
        FixedSkipAgrees(p, t, data, i, s, k);
      }
    }
  }

  /** A matching window is reported by both, so agreement after it is agreement here. */
  lemma FixedHitAgrees(p: Pattern, t: map<byte, nat>, data: seq<byte>, i: nat)
    requires |p.bytes| > 0 && i + |p.bytes| <= |data| && Matches(p, data, i)
    requires FixedFrom(p, t, data, i + 1) == Naive.From(p, data, i + 1)
    ensures FixedFrom(p, t, data, i) == Naive.From(p, data, i)
  {
    Naive.FromStep(p, data, i);
  }

  /** A mismatching window: the wildcard-aware shift passes over no reference hit, so
      agreement after the shift is agreement here. */
  lemma FixedSkipAgrees(p: Pattern, t: map<byte, nat>, data: seq<byte>, i: nat, s: nat, k: nat)
    requires |p.bytes| > 0 && RightmostUpTo(p.bytes, t, |p.bytes|)
    requires i + |p.bytes| <= |data| && !Matches(p, data, i)
    requires s == FixedShift(p, t, data[i + |p.bytes| - 1]) && k == i + s
    requires FixedFrom(p, t, data, k) == Naive.From(p, data, k)
    ensures FixedFrom(p, t, data, i) == Naive.From(p, data, i)
  {
    FixedShiftSkipsNoHit(p, t, data, i, s, k);
    FixedFromMissStep(p, t, data, i, s, k);
  }

  /** The reference hits are the same before and after a wildcard-aware shift. */
  lemma FixedShiftSkipsNoHit(p: Pattern, t: map<byte, nat>, data: seq<byte>, i: nat, s: nat, k: nat)
    requires |p.bytes| > 0 && RightmostUpTo(p.bytes, t, |p.bytes|)
    requires i + |p.bytes| <= |data| && !Matches(p, data, i)
    requires s == FixedShift(p, t, data[i + |p.bytes| - 1]) && k == i + s
    ensures Naive.From(p, data, i) == Naive.From(p, data, k)
  {
    forall j: nat | i <= j < i + s
      ensures !Matches(p, data, j)
    {
      if j > i {
        FixedShiftSafe(p, t, data, i, j);
      }
    }
    Naive.SkipNonMatches(p, data, i, s);
  }

  lemma {:induction false} FixedFirstFromIsHead(p: Pattern, t: map<byte, nat>, data: seq<byte>, i: nat)
    ensures FixedFirstFrom(p, t, data, i)
         == if FixedFrom(p, t, data, i) == [] then None else Some(FixedFrom(p, t, data, i)[0])
    decreases |data| - i
  {
    if |p.bytes| > 0 && i + |p.bytes| <= |data| && !Matches(p, data, i) {
      var s := FixedShift(p, t, data[i + |p.bytes| - 1]);
      var k := i + s;
      FixedFromMissStep(p, t, data, i, s, k);
      if i + |p.bytes| < |data| {
        FixedFirstFromIsHead(p, t, data, k);
        FixedFirstFromMissStep(p, t, data, i, s, k);
      } else {
        FirstFromLastWindow(p, t, data, i);
      }
    }
  }

  /** Corrected `find_all`: exactly the reference hits, for every pattern. */
  lemma FixedAllMatchesIsNaive(p: Pattern, data: seq<byte>)
    ensures FixedAllMatches(p, data) == Naive.AllMatches(p, data)
  {
    if |p.bytes| > 0 {
      BadCharTableSpec(p);
      FixedFromIsNaive(p, BadCharTable(p), data, 0);
    }
  }

  /** Corrected `find_first`: exactly the reference first hit, for every pattern. */
  lemma FixedFirstMatchIsNaive(p: Pattern, data: seq<byte>)
    ensures FixedFirstMatch(p, data) == Naive.FirstMatch(p, data)
  {
    if |p.bytes| > 0 {
      FixedFirstFromIsHead(p, BadCharTable(p), data, 0);
      BadCharTableSpec(p);
      FixedFromIsNaive(p, BadCharTable(p), data, 0);
      Naive.FirstFromIsHead(p, data, 0);
    }
  }

  lemma {:induction false} LastWildcardExact(bs: seq<Option<byte>>)
    requires forall k :: 0 <= k < |bs| ==> bs[k].Some?
    ensures LastWildcard(bs) == -1
  {
    if bs != [] {
      LastWildcardExact(bs[..|bs| - 1]);
    }
  }

  /** Without wildcards the two shifts are the same, whatever the table. */
  lemma ShiftsAgreeWhenExact(p: Pattern, t: map<byte, nat>, c: byte)
    requires Exact(p)
    ensures Shift(p, t, c) == FixedShift(p, t, c)
  {
    LastWildcardExact(p.bytes);
  }

  /** Without wildcards `find_all` as written and the corrected search visit the same windows. */
  lemma {:induction false} FromAgreesWhenExact(p: Pattern, t: map<byte, nat>, data: seq<byte>, i: nat)
    requires Exact(p)
    ensures From(p, t, data, i) == FixedFrom(p, t, data, i)
    decreases |data| - i
  {
    if |p.bytes| > 0 && i + |p.bytes| <= |data| {
      if Matches(p, data, i) {
        FromAgreesWhenExact(p, t, data, i + 1);
        FromMatchStep(p, t, data, i, i + 1);
      } else {
        var c := data[i + |p.bytes| - 1];
        var s := Shift(p, t, c);
        var k := i + s;
        ShiftsAgreeWhenExact(p, t, c);
        FromAgreesWhenExact(p, t, data, k);
        FromMissStep(p, t, data, i, s, k);
        FixedFromMissStep(p, t, data, i, s, k);
      }
    }
  }

  /** A matching window is reported by both searches, which then move on by one. */
  lemma FromMatchStep(p: Pattern, t: map<byte, nat>, data: seq<byte>, i: nat, k: nat)
    requires |p.bytes| > 0 && i + |p.bytes| <= |data| && Matches(p, data, i) && k == i + 1
    ensures From(p, t, data, i) == [PatternMatch(i, |p.bytes|)] + From(p, t, data, k)
    ensures FixedFrom(p, t, data, i) == [PatternMatch(i, |p.bytes|)] + FixedFrom(p, t, data, k)
  {
  }

  /** A mismatching window is passed over by the search as written, by the shift of its last byte. */
  lemma FromMissStep(p: Pattern, t: map<byte, nat>, data: seq<byte>, i: nat, s: nat, k: nat)
    requires |p.bytes| > 0 && i + |p.bytes| <= |data| && !Matches(p, data, i)
    requires s == Shift(p, t, data[i + |p.bytes| - 1]) && k == i + s
    ensures From(p, t, data, i) == From(p, t, data, k)
  {
  }

  /** A mismatching window is passed over by the corrected search, by its own shift. */
  lemma FixedFromMissStep(p: Pattern, t: map<byte, nat>, data: seq<byte>, i: nat, s: nat, k: nat)
    requires |p.bytes| > 0 && i + |p.bytes| <= |data| && !Matches(p, data, i)
    requires s == FixedShift(p, t, data[i + |p.bytes| - 1]) && k == i + s
    ensures FixedFrom(p, t, data, i) == FixedFrom(p, t, data, k)
  {
  }

  /** Without wildcards `find_first` as written and the corrected search visit the same windows. */
  lemma {:induction false} FirstFromAgreesWhenExact(p: Pattern, t: map<byte, nat>, data: seq<byte>, i: nat)
    requires Exact(p)
    ensures FirstFrom(p, t, data, i) == FixedFirstFrom(p, t, data, i)
    decreases |data| - i
  {
    if |p.bytes| > 0 && i + |p.bytes| <= |data| && !Matches(p, data, i) {
      if i + |p.bytes| < |data| {
        var c := data[i + |p.bytes| - 1];
        var s := Shift(p, t, c);
        var k := i + s;
        ShiftsAgreeWhenExact(p, t, c);
        FirstFromAgreesWhenExact(p, t, data, k);
        FirstFromMissStep(p, t, data, i, s, k);
        FixedFirstFromMissStep(p, t, data, i, s, k);
      } else {
        FirstFromLastWindow(p, t, data, i);
      }
    }
  }

  /** `find_first` as written passes over a mismatching window that is not the last
      by the shift of its last byte. */
  lemma FirstFromMissStep(p: Pattern, t: map<byte, nat>, data: seq<byte>, i: nat, s: nat, k: nat)
    requires |p.bytes| > 0 && i + |p.bytes| < |data| && !Matches(p, data, i)
    requires s == Shift(p, t, data[i + |p.bytes| - 1]) && k == i + s
    ensures FirstFrom(p, t, data, i) == FirstFrom(p, t, data, k)
  {
  }

  /** The corrected `find_first` does the same with its own shift. */
  lemma FixedFirstFromMissStep(p: Pattern, t: map<byte, nat>, data: seq<byte>, i: nat, s: nat, k: nat)
    requires |p.bytes| > 0 && i + |p.bytes| < |data| && !Matches(p, data, i)
    requires s == FixedShift(p, t, data[i + |p.bytes| - 1]) && k == i + s
    ensures FixedFirstFrom(p, t, data, i) == FixedFirstFrom(p, t, data, k)
  {
  }

  /** Both `find_first` searches report nothing once the last window fails. */
  lemma FirstFromLastWindow(p: Pattern, t: map<byte, nat>, data: seq<byte>, i: nat)
    requires |p.bytes| > 0 && i + |p.bytes| == |data| && !Matches(p, data, i)
    ensures FirstFrom(p, t, data, i) == None && FixedFirstFrom(p, t, data, i) == None
  {
  }

  /** For a pattern without wildcards the search as written reports exactly the
      reference hits. */
  lemma AllMatchesExact(p: Pattern, data: seq<byte>)
    requires Exact(p)
    ensures AllMatches(p, data) == Naive.AllMatches(p, data)
  {
    if |p.bytes| > 0 {
      FromAgreesWhenExact(p, BadCharTable(p), data, 0);
      BadCharTableSpec(p);
      FixedFromIsNaive(p, BadCharTable(p), data, 0);
    }
  }

  /** For a pattern without wildcards `find_first` as written is the reference first hit. */
  lemma FirstMatchExact(p: Pattern, data: seq<byte>)
    requires Exact(p)
    ensures FirstMatch(p, data) == Naive.FirstMatch(p, data)
  {
    if |p.bytes| > 0 {
      FirstFromAgreesWhenExact(p, BadCharTable(p), data, 0);
      FixedFirstMatchIsNaive(p, data);
    }
  }

  /** The search as written skips a match when the pattern has a wildcard: for
      `?? 41` over `00 42 41` the bad byte 0x42 is not in the table, the window
      jumps by two, and the match at offset 1 is never tested. */
  lemma WildcardMatchSkipped()
    ensures var p := Pattern([None, Some(0x41)], "?x");
            var data: seq<byte> := [0x00, 0x42, 0x41];
            AllMatches(p, data) == [] && FirstMatch(p, data) == None
            && Naive.AllMatches(p, data) == [PatternMatch(1, 2)]
            && FixedAllMatches(p, data) == [PatternMatch(1, 2)]
  {
    var p := Pattern([None, Some(0x41)], "?x");
    var data: seq<byte> := [0x00, 0x42, 0x41];
    var t := BadCharTable(p);
    assert TableUpTo(p.bytes, 1) == map[];
    assert t == map[0x41 := 1];
    assert !Matches(p, data, 0) by { assert !Accepts(p.bytes[1], data[1]); }
    assert Matches(p, data, 1);
    assert Shift(p, t, 0x42) == 2;
    assert From(p, t, data, 0) == From(p, t, data, 2) == [];
    assert FirstFrom(p, t, data, 0) == FirstFrom(p, t, data, 2) == None;
    assert Naive.From(p, data, 2) == [];
    assert Naive.From(p, data, 1) == [PatternMatch(1, 2)];
    FixedAllMatchesIsNaive(p, data);
  }
}
