/** Knuth-Morris-Pratt search as the matcher builds it: a failure table over the
    pattern, then one pass over the data. Wildcards are treated as equal to
    everything both while building the table and while scanning. */
module Kmp {
  import opened Common
  import opened Patterns
  import Naive

  /** `pattern_chars_equal`: two pattern positions agree when either is a wildcard
      or both hold the same byte. */
  predicate CharsEqual(a: Option<byte>, b: Option<byte>)
  {
    a.None? || b.None? || a == b
  }

  /** Every failure entry points no further than its own index. */
  predicate Bounded(f: seq<nat>)
  {
    forall k :: 0 <= k < |f| ==> f[k] <= k
  }

  // ---------------------------------------------------------------------------
  // The failure table

  /** The inner `while` of `build_failure_function`: fall back along the table
      from `j` until position `j` agrees with position `i`. */
  function Retreat(bs: seq<Option<byte>>, f: seq<nat>, i: nat, j: nat): (r: nat)
    requires i < |bs| && j < |bs| && j <= |f| && Bounded(f)
    ensures r <= j
    decreases j
  {
    if j > 0 && !CharsEqual(bs[i], bs[j]) then Retreat(bs, f, i, f[j - 1]) else j
  }

  /** The entry stored at index `i`, given the entries before it. */
  function Step(bs: seq<Option<byte>>, f: seq<nat>, i: nat): (v: nat)
    requires 1 <= i < |bs| && |f| == i && Bounded(f)
    ensures v <= i
  {
    var j := Retreat(bs, f, i, f[i - 1]);
    if CharsEqual(bs[i], bs[j]) then j + 1 else j
  }

  /** The first `n` entries of the table. */
  function TableUpTo(bs: seq<Option<byte>>, n: nat): (f: seq<nat>)
    requires 1 <= n <= |bs|
    ensures |f| == n && Bounded(f) && f[0] == 0
  {
    if n == 1 then [0] else TableUpTo(bs, n - 1) + [Step(bs, TableUpTo(bs, n - 1), n - 1)]
  }

  /** `KmpMatcher::build_failure_function`, as a value. */
  function Failure(p: Pattern): (f: seq<nat>)
    ensures |f| == |p.bytes| && Bounded(f)
  {
    if |p.bytes| == 0 then [] else TableUpTo(p.bytes, |p.bytes|)
  }

  /** `KmpMatcher::build_failure_function`: fills a zeroed table in place. */
  method BuildFailureFunction(p: Pattern) returns (failure: seq<nat>)
    ensures failure == Failure(p)
  {
    var m := |p.bytes|;
    var table := new nat[m](_ => 0);
    if m == 0 {
      return table[..];
    }
    var j: nat := 0;
    var i: nat := 1;
    while i < m
      invariant 1 <= i <= m
      invariant table[..i] == TableUpTo(p.bytes, i)
      invariant j == table[i - 1]
    {
      j := FillEntry(p, table, i, j);
      i := i + 1;
    }
    assert table[..] == table[..m];
    return table[..];
  }

  /** One pass of the outer loop of `build_failure_function`: falls back from the
      previous entry `j` and stores entry `i`; the entries before `i` stay as they are. */
  method FillEntry(p: Pattern, table: array<nat>, i: nat, j: nat) returns (v: nat)
    requires table.Length == |p.bytes| && 1 <= i < |p.bytes|
    requires table[..i] == TableUpTo(p.bytes, i) && j == table[i - 1]
    modifies table
    ensures table[..i + 1] == TableUpTo(p.bytes, i + 1) && v == table[i]
    ensures table[i + 1..] == old(table[i + 1..])
  {
    ghost var f := table[..i];
    v := j;
    while v > 0 && !CharsEqual(p.bytes[i], p.bytes[v])
      invariant v < i
      invariant Retreat(p.bytes, f, i, v) == Retreat(p.bytes, f, i, f[i - 1])
    {
      v := table[v - 1];
    }
    if CharsEqual(p.bytes[i], p.bytes[v]) {
      v := v + 1;
    }
    assert v == Step(p.bytes, f, i);
    table[i] := v;
    assert table[..i + 1] == f + [v];
    TableUpToStep(p.bytes, i, f, v, table[..i + 1]);
  }

  /** The table grows by one entry at a time. */
  lemma TableUpToStep(bs: seq<Option<byte>>, i: nat, f: seq<nat>, v: nat, g: seq<nat>)
    requires 1 <= i < |bs| && f == TableUpTo(bs, i) && v == Step(bs, f, i) && g == f + [v]
    ensures g == TableUpTo(bs, i + 1)
  {
  }

  // ---------------------------------------------------------------------------
  // The search

  /** The inner `while` of the search loop: fall back along the table from `j`
      until position `j` accepts the byte at `e` (`pattern_matches_data`). */
  function Resume(p: Pattern, f: seq<nat>, data: seq<byte>, e: nat, j: nat): (r: nat)
    requires e < |data| && j < |p.bytes| && j <= |f| && Bounded(f)
    ensures r <= j
    decreases j
  {
    if j > 0 && !Accepts(p.bytes[j], data[e]) then Resume(p, f, data, e, f[j - 1]) else j
  }

  /** The matched-prefix length after reading the byte at `e` in state `j`. */
  function Advance(p: Pattern, f: seq<nat>, data: seq<byte>, e: nat, j: nat): (v: nat)
    requires e < |data| && j < |p.bytes| && j <= |f| && Bounded(f)
    ensures v <= j + 1
  {
    var r := Resume(p, f, data, e, j);
    if Accepts(p.bytes[r], data[e]) then r + 1 else r
  }

  /** The hits `find_all` reports from step `i` on, in state `j`: a full-length
      prefix reports the hit ending at `i` and falls back to the table entry. */
  function ScanFrom(p: Pattern, f: seq<nat>, data: seq<byte>, i: nat, j: nat): seq<PatternMatch>
    requires 1 <= |p.bytes| == |f| && Bounded(f)
    requires i <= |data| && j < |p.bytes| && j <= i
    decreases |data| - i
  {
    if i == |data| then []
    else
      var v := Advance(p, f, data, i, j);
      if v == |p.bytes| then
        [PatternMatch(i + 1 - |p.bytes|, |p.bytes|)] + ScanFrom(p, f, data, i + 1, f[v - 1])
      else ScanFrom(p, f, data, i + 1, v)
  }

  /** The hit `find_first` reports from step `i` on, in state `j`. */
  function FirstScan(p: Pattern, f: seq<nat>, data: seq<byte>, i: nat, j: nat): Option<PatternMatch>
    requires 1 <= |p.bytes| == |f| && Bounded(f)
    requires i <= |data| && j < |p.bytes| && j <= i
    decreases |data| - i
  {
    if i == |data| then None
    else
      var v := Advance(p, f, data, i, j);
      if v == |p.bytes| then Some(PatternMatch(i + 1 - |p.bytes|, |p.bytes|))
      else FirstScan(p, f, data, i + 1, v)
  }

  /** `KmpMatcher::find_all`, as a value. */
  function AllMatches(p: Pattern, data: seq<byte>): seq<PatternMatch>
  {
    if |p.bytes| == 0 || |data| < |p.bytes| then [] else ScanFrom(p, Failure(p), data, 0, 0)
  }

  /** `KmpMatcher::find_first`, as a value. */
  function FirstMatch(p: Pattern, data: seq<byte>): Option<PatternMatch>
  {
    if |p.bytes| == 0 || |data| < |p.bytes| then None else FirstScan(p, Failure(p), data, 0, 0)
  }

  /** `KmpMatcher::find_all`: one pass over the data with the failure table. */
  method FindAll(p: Pattern, data: seq<byte>) returns (ms: seq<PatternMatch>)
    ensures ms == AllMatches(p, data)
  {
    ms := [];
    if |p.bytes| == 0 || |data| < |p.bytes| {
      return;
    }
    var failure := BuildFailureFunction(p);
    var m := |p.bytes|;
    var j: nat := 0;
    var i: nat := 0;
    while i < |data|
      invariant i <= |data| && j < m && j <= i
      invariant ms + ScanFrom(p, failure, data, i, j) == ScanFrom(p, failure, data, 0, 0)
    {
      ghost var before, at, j0 := ms, i, j;
      while j > 0 && !Accepts(p.bytes[j], data[i])
        invariant j <= j0
        invariant Resume(p, failure, data, i, j) == Resume(p, failure, data, i, j0)
      {
        j := failure[j - 1];
      }
      if Accepts(p.bytes[j], data[i]) {
        j := j + 1;
      }
      assert j == Advance(p, failure, data, at, j0);
      if j == m {
        ms := ms + [PatternMatch(i + 1 - m, m)];
        j := failure[j - 1];
      }
      i := i + 1;
      ScanFromStep(p, failure, data, at, j0, i, j);
      Regroup(before, ScanFrom(p, failure, data, at, j0), Emitted(p, failure, data, at, j0),
              ScanFrom(p, failure, data, i, j), ms, ScanFrom(p, failure, data, 0, 0));
    }
    assert ms + [] == ms;
  }

  /** What step `i` in state `j` reports: the hit ending at `i` when the pattern completes there. */
  function Emitted(p: Pattern, f: seq<nat>, data: seq<byte>, i: nat, j: nat): (e: seq<PatternMatch>)
    requires 1 <= |p.bytes| == |f| && Bounded(f)
    requires i < |data| && j < |p.bytes| && j <= i
    ensures |e| <= 1
  {
    if Advance(p, f, data, i, j) == |p.bytes| then [PatternMatch(i + 1 - |p.bytes|, |p.bytes|)] else []
  }

  /** One step of the scan: what step `i` reports, then the rest from the next state. */
  lemma ScanFromStep(p: Pattern, f: seq<nat>, data: seq<byte>, i: nat, j: nat, k: nat, next: nat)
    requires 1 <= |p.bytes| == |f| && Bounded(f)
    requires i < |data| && j < |p.bytes| && j <= i && k == i + 1
    requires var v := Advance(p, f, data, i, j); next == if v == |p.bytes| then f[v - 1] else v
    ensures next < |p.bytes| && next <= k
    ensures ScanFrom(p, f, data, i, j) == Emitted(p, f, data, i, j) + ScanFrom(p, f, data, k, next)
  {
  }

  /** `KmpMatcher::find_first`: the same pass, stopping at the first full prefix. */
  method FindFirst(p: Pattern, data: seq<byte>) returns (r: Option<PatternMatch>)
    ensures r == FirstMatch(p, data)
  {
    if |p.bytes| == 0 || |data| < |p.bytes| {
      return None;
    }
    var failure := BuildFailureFunction(p);
    var m := |p.bytes|;
    var j: nat := 0;
    var i: nat := 0;
    while i < |data|
      invariant i <= |data| && j < m && j <= i
      invariant FirstScan(p, failure, data, i, j) == FirstScan(p, failure, data, 0, 0)
    {
      ghost var j0 := j;
      while j > 0 && !Accepts(p.bytes[j], data[i])
        invariant j <= j0
        invariant Resume(p, failure, data, i, j) == Resume(p, failure, data, i, j0)
      {
        j := failure[j - 1];
      }
      if Accepts(p.bytes[j], data[i]) {
        j := j + 1;
      }
      if j == m {
        return Some(PatternMatch(i + 1 - m, m));
      }
      i := i + 1;
    }
    return None;
  }

  // ---------------------------------------------------------------------------
  // Why the search is right for patterns without wildcards

  /** The first `k` pattern positions accept the `k` data bytes that end at `e`. */
  predicate PrefixEndsAt(p: Pattern, k: nat, data: seq<byte>, e: nat)
  {
    k <= |p.bytes| && k <= e <= |data| &&
    forall t :: 0 <= t < k ==> Accepts(p.bytes[t], data[e - k + t])
  }

  /** The first `k` positions repeat as the last `k` of the first `q`, with `k < q`. */
  predicate IsBorder(p: Pattern, q: nat, k: nat)
  {
    k < q <= |p.bytes| && forall t :: 0 <= t < k ==> p.bytes[t] == p.bytes[q - k + t]
  }

  predicate IsLongestBorder(p: Pattern, q: nat, b: nat)
  {
    IsBorder(p, q, b) && forall k :: b < k < q ==> !IsBorder(p, q, k)
  }

  /** The first `n` table entries hold the longest borders of the prefixes they index. */
  predicate FailureCorrect(p: Pattern, f: seq<nat>, n: nat)
  {
    n <= |f| && forall q :: 0 <= q < n ==> IsLongestBorder(p, q + 1, f[q])
  }

  /** Two prefixes that end at the same place make the shorter a border of the longer. */
  lemma TwoPrefixesBorder(p: Pattern, data: seq<byte>, e: nat, j: nat, k: nat)
    requires Exact(p) && k < j
    requires PrefixEndsAt(p, j, data, e) && PrefixEndsAt(p, k, data, e)
    ensures IsBorder(p, j, k)
  {
    forall t | 0 <= t < k
      ensures p.bytes[t] == p.bytes[j - k + t]
    {
      assert Accepts(p.bytes[j - k + t], data[e - j + (j - k + t)]);
    }
  }

  /** A border of a prefix that ends at `e` is itself a prefix that ends at `e`. */
  lemma BorderPrefix(p: Pattern, data: seq<byte>, e: nat, j: nat, k: nat)
    requires IsBorder(p, j, k) && PrefixEndsAt(p, j, data, e)
    ensures PrefixEndsAt(p, k, data, e)
  {
    forall t | 0 <= t < k
      ensures Accepts(p.bytes[t], data[e - k + t])
    {
      assert Accepts(p.bytes[j - k + t], data[e - j + (j - k + t)]);
    }
  }

  /** A prefix that ends one byte later is a shorter prefix plus that byte. */
  lemma ShrinkPrefix(p: Pattern, data: seq<byte>, e: nat, k: nat)
    requires 1 <= k && PrefixEndsAt(p, k, data, e + 1)
    ensures PrefixEndsAt(p, k - 1, data, e) && Accepts(p.bytes[k - 1], data[e])
  {
    forall t | 0 <= t < k - 1
      ensures Accepts(p.bytes[t], data[e - (k - 1) + t])
    {
      assert e + 1 - k + t == e - (k - 1) + t;
    }
  }

  lemma GrowPrefix(p: Pattern, data: seq<byte>, e: nat, r: nat)
    requires r < |p.bytes| && e < |data| && PrefixEndsAt(p, r, data, e)
    requires Accepts(p.bytes[r], data[e])
    ensures PrefixEndsAt(p, r + 1, data, e + 1)
  {
    forall t | 0 <= t < r + 1
      ensures Accepts(p.bytes[t], data[e + 1 - (r + 1) + t])
    {
      if t < r {
        assert e + 1 - (r + 1) + t == e - r + t;
      }
    }
  }

  /** Falling back along a correct table visits every prefix that ends at `e`, from
      the longest down, and stops at the first whose next position accepts `data[e]`:
      no longer prefix below `hi` could have been extended. */
  lemma {:induction false} ResumeCorrect(p: Pattern, f: seq<nat>, data: seq<byte>, e: nat, j: nat, hi: nat)
    requires Exact(p) && e < |data| && j < hi <= |p.bytes| && j <= |f| && Bounded(f)
    requires FailureCorrect(p, f, j)
    requires PrefixEndsAt(p, j, data, e)
    requires forall k :: j < k < hi && PrefixEndsAt(p, k, data, e) ==> !Accepts(p.bytes[k], data[e])
    ensures var r := Resume(p, f, data, e, j);
            PrefixEndsAt(p, r, data, e)
            && (forall k :: r < k < hi && PrefixEndsAt(p, k, data, e) ==> !Accepts(p.bytes[k], data[e]))
            && (r > 0 ==> Accepts(p.bytes[r], data[e]))
    decreases j
  {
    if j > 0 && !Accepts(p.bytes[j], data[e]) {
      var b := f[j - 1];
      assert IsLongestBorder(p, j, b);
      BorderPrefix(p, data, e, j, b);
      forall k | b < k < hi && PrefixEndsAt(p, k, data, e)
        ensures !Accepts(p.bytes[k], data[e])
      {
        if k < j {
          TwoPrefixesBorder(p, data, e, j, k);
        }
      }
      ResumeCorrect(p, f, data, e, b, hi);
    }
  }

  /** No prefix longer than `v` and at most `hi` long ends at `e`. */
  predicate LongestUpTo(p: Pattern, data: seq<byte>, e: nat, v: nat, hi: nat)
  {
    forall k :: v < k <= hi ==> !PrefixEndsAt(p, k, data, e)
  }

  /** One step keeps the state the longest prefix (up to `hi`) that ends where the
      data has been read to. */
  lemma AdvanceCorrect(p: Pattern, f: seq<nat>, data: seq<byte>, e: nat, j: nat, hi: nat)
    requires Exact(p) && e < |data| && j < hi <= |p.bytes| && j <= |f| && Bounded(f)
    requires FailureCorrect(p, f, j)
    requires PrefixEndsAt(p, j, data, e)
    requires forall k :: j < k < hi ==> !PrefixEndsAt(p, k, data, e)
    ensures var v := Advance(p, f, data, e, j);
            v <= hi && PrefixEndsAt(p, v, data, e + 1) && LongestUpTo(p, data, e + 1, v, hi)
  {
    ResumeCorrect(p, f, data, e, j, hi);
    var r := Resume(p, f, data, e, j);
    var v := Advance(p, f, data, e, j);
    if Accepts(p.bytes[r], data[e]) {
      GrowPrefix(p, data, e, r);
    }
    var e1 := e + 1;
    forall k | v < k <= hi
      ensures !PrefixEndsAt(p, k, data, e1)
    {
      if PrefixEndsAt(p, k, data, e1) {
        ShrinkPrefix(p, data, e, k);
      }
    }
  }

  /** A pattern's own bytes with every position read as its exact byte. */
  lemma BorderIsPrefixEnd(p: Pattern, q: nat, k: nat)
    requires Exact(p) && IsBorder(p, q, k)
    ensures PrefixEndsAt(p, k, Filled(p.bytes), q)
  {
  }

  lemma PrefixEndIsBorder(p: Pattern, q: nat, k: nat)
    requires Exact(p) && k < q && PrefixEndsAt(p, k, Filled(p.bytes), q)
    ensures IsBorder(p, q, k)
  {
    forall t | 0 <= t < k
      ensures p.bytes[t] == p.bytes[q - k + t]
    {
      assert Accepts(p.bytes[t], Filled(p.bytes)[q - k + t]);
    }
  }

  /** Without wildcards, comparing two pattern positions is accepting one position's
      byte at the other. */
  lemma {:induction false} RetreatIsResume(p: Pattern, f: seq<nat>, i: nat, j: nat)
    requires Exact(p) && i < |p.bytes| && j < |p.bytes| && j <= |f| && Bounded(f)
    ensures Retreat(p.bytes, f, i, j) == Resume(p, f, Filled(p.bytes), i, j)
    decreases j
  {
    var w := Filled(p.bytes);
    assert CharsEqual(p.bytes[i], p.bytes[j]) == Accepts(p.bytes[j], w[i]);
    if j > 0 && !CharsEqual(p.bytes[i], p.bytes[j]) {
      RetreatIsResume(p, f, i, f[j - 1]);
    }
  }

  /** Without wildcards every table entry is the longest border of its prefix. */
  lemma {:induction false} TableUpToCorrect(p: Pattern, n: nat)
    requires Exact(p) && 1 <= n <= |p.bytes|
    ensures FailureCorrect(p, TableUpTo(p.bytes, n), n)
  {
    if n > 1 {
      var i := n - 1;
      var f := TableUpTo(p.bytes, i);
      TableUpToCorrect(p, i);
      StepCorrect(p, f, i);
      var g := TableUpTo(p.bytes, n);
      assert g == f + [Step(p.bytes, f, i)];
      assert forall q :: 0 <= q < i ==> g[q] == f[q];
    }
  }

  /** Given correct entries below `i`, the entry computed at `i` is the longest border
      of the first `i + 1` positions. */
  lemma StepCorrect(p: Pattern, f: seq<nat>, i: nat)
    requires Exact(p) && 1 <= i < |p.bytes| && |f| == i && Bounded(f)
    requires FailureCorrect(p, f, i)
    ensures IsLongestBorder(p, i + 1, Step(p.bytes, f, i))
  {
    var w := Filled(p.bytes);
    var j := f[i - 1];
    BorderIsLongestPrefix(p, i, j);
    AdvanceCorrect(p, f, w, i, j, i);
    StepIsAdvance(p, f, i);
    LongestPrefixIsBorder(p, i + 1, i, Step(p.bytes, f, i));
  }

  /** Without wildcards, computing an entry is one search step over the pattern read
      as data. */
  lemma StepIsAdvance(p: Pattern, f: seq<nat>, i: nat)
    requires Exact(p) && 1 <= i < |p.bytes| && |f| == i && Bounded(f)
    ensures Step(p.bytes, f, i) == Advance(p, f, Filled(p.bytes), i, f[i - 1])
  {
    RetreatIsResume(p, f, i, f[i - 1]);
    var r := Retreat(p.bytes, f, i, f[i - 1]);
    assert CharsEqual(p.bytes[i], p.bytes[r]) == Accepts(p.bytes[r], Filled(p.bytes)[i]);
  }

  /** The longest border of the first `q` positions is the longest shorter prefix that
      ends at `q` in the pattern read as data. */
  lemma BorderIsLongestPrefix(p: Pattern, q: nat, b: nat)
    requires Exact(p) && IsLongestBorder(p, q, b)
    ensures PrefixEndsAt(p, b, Filled(p.bytes), q)
    ensures forall k :: b < k < q ==> !PrefixEndsAt(p, k, Filled(p.bytes), q)
  {
    BorderIsPrefixEnd(p, q, b);
    forall k | b < k < q
      ensures !PrefixEndsAt(p, k, Filled(p.bytes), q)
    {
      if PrefixEndsAt(p, k, Filled(p.bytes), q) {
        PrefixEndIsBorder(p, q, k);
      }
    }
  }

  /** The longest prefix ending at `q` of the pattern read as data is its longest border. */
  lemma LongestPrefixIsBorder(p: Pattern, q: nat, hi: nat, v: nat)
    requires Exact(p) && q == hi + 1 && v < q <= |p.bytes|
    requires PrefixEndsAt(p, v, Filled(p.bytes), q) && LongestUpTo(p, Filled(p.bytes), q, v, hi)
    ensures IsLongestBorder(p, q, v)
  {
    PrefixEndIsBorder(p, q, v);
    forall k | v < k < q
      ensures !IsBorder(p, q, k)
    {
      if IsBorder(p, q, k) {
        BorderIsPrefixEnd(p, q, k);
      }
    }
  }

  lemma FailureCorrectForExact(p: Pattern)
    requires Exact(p)
    ensures FailureCorrect(p, Failure(p), |p.bytes|)
  {
    if |p.bytes| > 0 {
      TableUpToCorrect(p, |p.bytes|);
    }
  }

  /** A full-length prefix ending at `e` is a match starting `|p|` bytes earlier. */
  lemma FullPrefixIsMatch(p: Pattern, data: seq<byte>, e: nat)
    requires |p.bytes| <= e <= |data|
    ensures PrefixEndsAt(p, |p.bytes|, data, e) <==> Matches(p, data, e - |p.bytes|)
  {
  }

  /** The state between steps: the longest proper prefix ending at `i`. */
  predicate ScanState(p: Pattern, data: seq<byte>, i: nat, j: nat)
  {
    j < |p.bytes| && PrefixEndsAt(p, j, data, i)
    && forall k :: j < k < |p.bytes| ==> !PrefixEndsAt(p, k, data, i)
  }

  /** One step from a correct state: a full prefix is exactly a match ending here,
      and the state after the step (or after the fall-back on a hit) is correct again. */
  lemma NextScanState(p: Pattern, data: seq<byte>, i: nat, j: nat, o: nat)
    requires Exact(p) && 1 <= |p.bytes| && i < |data| && j <= i
    requires ScanState(p, data, i, j)
    requires i + 1 >= |p.bytes| ==> o + |p.bytes| == i + 1
    ensures var f := Failure(p);
            var m := |p.bytes|;
            var v := Advance(p, f, data, i, j);
            (v == m ==> i + 1 >= m && Matches(p, data, o) && ScanState(p, data, i + 1, f[m - 1]))
            && (v < m ==> ScanState(p, data, i + 1, v) && (i + 1 >= m ==> !Matches(p, data, o)))
  {
    var f := Failure(p);
    var m := |p.bytes|;
    var i1 := i + 1;
    FailureCorrectForExact(p);
    AdvanceCorrect(p, f, data, i, j, m);
    var v := Advance(p, f, data, i, j);
    if i1 >= m {
      FullPrefixIsMatch(p, data, i1);
    }
    if v == m {
      var b := f[m - 1];
      assert IsLongestBorder(p, m, b);
      BorderPrefix(p, data, i1, m, b);
      forall k | b < k < m
        ensures !PrefixEndsAt(p, k, data, i1)
      {
        if PrefixEndsAt(p, k, data, i1) {
          TwoPrefixesBorder(p, data, i1, m, k);
        }
      }
    }
  }

  /** From a correct state at step `i`, the scan reports exactly the reference hits
      that end at or after step `i`, which start at `o` or later. */
  lemma {:induction false} ScanFromIsNaive(p: Pattern, data: seq<byte>, i: nat, j: nat, o: nat)
    requires Exact(p) && 1 <= |p.bytes| && i <= |data| && j <= i
    requires ScanState(p, data, i, j)
    requires o == if i + 1 >= |p.bytes| then i + 1 - |p.bytes| else 0
    ensures ScanFrom(p, Failure(p), data, i, j) == Naive.From(p, data, o)
    decreases |data| - i
  {
    var f := Failure(p);
    var m := |p.bytes|;
    if i < |data| {
      NextScanState(p, data, i, j, o);
      var v := Advance(p, f, data, i, j);
      var k := i + 1;
      var next := if v == m then f[m - 1] else v;
      var o' := if k + 1 >= m then k + 1 - m else 0;
      ScanFromIsNaive(p, data, k, next, o');
      StepAgrees(p, f, data, i, j, o, k, next, o');
    }
  }

  /** One step of the scan agrees with the reference, given agreement after it: a
      completed prefix is the reference hit at `o`, and every other step reports
      nothing where the reference finds no match. */
  lemma StepAgrees(p: Pattern, f: seq<nat>, data: seq<byte>, i: nat, j: nat, o: nat, k: nat, next: nat, o': nat)
    requires 1 <= |p.bytes| == |f| && Bounded(f)
    requires i < |data| && j < |p.bytes| && j <= i && k == i + 1
    requires var v := Advance(p, f, data, i, j); next == if v == |p.bytes| then f[v - 1] else v
    requires o == (if i + 1 >= |p.bytes| then i + 1 - |p.bytes| else 0)
    requires o' == (if k + 1 >= |p.bytes| then k + 1 - |p.bytes| else 0)
    requires i + 1 >= |p.bytes| ==> (Advance(p, f, data, i, j) == |p.bytes| <==> Matches(p, data, o))
    requires ScanFrom(p, f, data, k, next) == Naive.From(p, data, o')
    ensures ScanFrom(p, f, data, i, j) == Naive.From(p, data, o)
  {
    ScanFromStep(p, f, data, i, j, k, next);
    if i + 1 >= |p.bytes| {
      Naive.FromStep(p, data, o);
    }
  }

  /** Without wildcards `find_all` reports exactly the reference hits. */
  lemma AllMatchesExact(p: Pattern, data: seq<byte>)
    requires Exact(p)
    ensures AllMatches(p, data) == Naive.AllMatches(p, data)
  {
    if |p.bytes| > 0 && |data| >= |p.bytes| {
      ScanFromIsNaive(p, data, 0, 0, 0);
    }
  }

  lemma {:induction false} FirstScanIsHead(p: Pattern, f: seq<nat>, data: seq<byte>, i: nat, j: nat)
    requires 1 <= |p.bytes| == |f| && Bounded(f)
    requires i <= |data| && j < |p.bytes| && j <= i
    ensures FirstScan(p, f, data, i, j)
         == if ScanFrom(p, f, data, i, j) == [] then None else Some(ScanFrom(p, f, data, i, j)[0])
    decreases |data| - i
  {
    if i < |data| {
      var v := Advance(p, f, data, i, j);
      if v == |p.bytes| {
      } else {
        FirstScanIsHead(p, f, data, i + 1, v);
      }
    }
  }

  /** `find_first` is the head of `find_all`, whatever the pattern. */
  lemma FirstMatchIsHead(p: Pattern, data: seq<byte>)
    ensures FirstMatch(p, data) == if AllMatches(p, data) == [] then None else Some(AllMatches(p, data)[0])
  {
    if |p.bytes| > 0 && |data| >= |p.bytes| {
      FirstScanIsHead(p, Failure(p), data, 0, 0);
    }
  }

  /** Without wildcards `find_first` reports the reference first hit. */
  lemma FirstMatchExact(p: Pattern, data: seq<byte>)
    requires Exact(p)
    ensures FirstMatch(p, data) == Naive.FirstMatch(p, data)
  {
    FirstMatchIsHead(p, data);
    AllMatchesExact(p, data);
    Naive.FirstMatchIsHead(p, data);
  }

  /** The hits from step `i` on (all of the pattern's length) are reported in order
      of increasing offset, each ending no earlier than step `i`. */
  lemma {:induction false} ScanFromOrdered(p: Pattern, f: seq<nat>, data: seq<byte>, i: nat, j: nat)
    requires 1 <= |p.bytes| == |f| && Bounded(f)
    requires i <= |data| && j < |p.bytes| && j <= i
    ensures Increasing(ScanFrom(p, f, data, i, j))
    ensures forall k :: 0 <= k < |ScanFrom(p, f, data, i, j)| ==>
              ScanFrom(p, f, data, i, j)[k].size == |p.bytes| &&
              ScanFrom(p, f, data, i, j)[k].offset + |p.bytes| > i
    decreases |data| - i
  {
    if i < |data| {
      var v := Advance(p, f, data, i, j);
      if v == |p.bytes| {
        ScanFromOrdered(p, f, data, i + 1, f[v - 1]);
      } else {
        ScanFromOrdered(p, f, data, i + 1, v);
      }
    }
  }

  /** Whatever the pattern, `find_all` lists full-length hits in increasing order. */
  lemma AllMatchesOrdered(p: Pattern, data: seq<byte>)
    ensures Increasing(AllMatches(p, data))
    ensures forall k :: 0 <= k < |AllMatches(p, data)| ==> AllMatches(p, data)[k].size == |p.bytes|
  {
    if |p.bytes| > 0 && |data| >= |p.bytes| {
      ScanFromOrdered(p, Failure(p), data, 0, 0);
    }
  }

  // ---------------------------------------------------------------------------
  // Where the search as written goes wrong

  /** The offset expression `i - pattern.len() + 1` evaluated left to right in
      checked `usize` arithmetic: `None` where the subtraction goes below zero,
      which panics in a build with overflow checks. */
  function CheckedOffset(i: nat, m: nat): (r: Option<nat>)
    ensures r.None? <==> i < m
    ensures r.Some? ==> r.value == i + 1 - m
  {
    if i < m then None else Some(i - m + 1)
  }

  /** A hit at offset 0 is reported at step `len - 1`, where the offset expression
      underflows. For the buffer and signature of the repository's own
      `test_pattern_matching`, the scan reaches a full prefix at step 3 of a
      4-byte signature. */
  lemma OffsetUnderflowsAtStart()
    ensures var p := Pattern([Some(0x48), Some(0x8B), None, Some(0x74)], "xx?x");
            var data: seq<byte> := [0x48, 0x8B, 0x05, 0x74, 0x12, 0x90, 0x48, 0x8B, 0xFF, 0x74, 0x34];
            var f := Failure(p);
            f == [0, 0, 1, 0]
            && Advance(p, f, data, 0, 0) == 1 && Advance(p, f, data, 1, 1) == 2
            && Advance(p, f, data, 2, 2) == 3 && Advance(p, f, data, 3, 3) == 4
            && CheckedOffset(3, 4) == None
  {
    var p := Pattern([Some(0x48), Some(0x8B), None, Some(0x74)], "xx?x");
    var bs := p.bytes;
    assert TableUpTo(bs, 1) == [0];
    assert Step(bs, [0], 1) == 0;
    assert TableUpTo(bs, 2) == [0, 0];
    assert Retreat(bs, [0, 0], 2, 0) == 0;
    assert Step(bs, [0, 0], 2) == 1;
    assert TableUpTo(bs, 3) == [0, 0, 1];
    assert Retreat(bs, [0, 0, 1], 3, 1) == 0;
    assert Step(bs, [0, 0, 1], 3) == 0;
  }

  /** With a wildcard the table links are wrong and the search reports a window that
      does not match: for `41 ?? 42` over `00 41 00 42 00 42` it reports offsets 1
      and 3, although offset 3 holds `42 00 42`. */
  lemma WildcardFalseHit()
    ensures var p := Pattern([Some(0x41), None, Some(0x42)], "x?x");
            var data: seq<byte> := [0x00, 0x41, 0x00, 0x42, 0x00, 0x42];
            AllMatches(p, data) == [PatternMatch(1, 3), PatternMatch(3, 3)]
            && !Matches(p, data, 3)
            && Naive.AllMatches(p, data) == [PatternMatch(1, 3)]
  {
    var p := Pattern([Some(0x41), None, Some(0x42)], "x?x");
    var data: seq<byte> := [0x00, 0x41, 0x00, 0x42, 0x00, 0x42];
    WildcardTable(p);
    WildcardScan(p, Failure(p), data);
    WildcardNaive(p, data);
  }

  /** The table of `41 ?? 42` links each prefix to the one before it. */
  lemma WildcardTable(p: Pattern)
    requires p == Pattern([Some(0x41), None, Some(0x42)], "x?x")
    ensures Failure(p) == [0, 1, 2]
  {
    var bs := p.bytes;
    assert TableUpTo(bs, 1) == [0];
    assert Step(bs, [0], 1) == 1;
    assert TableUpTo(bs, 2) == [0, 1];
    assert Step(bs, [0, 1], 2) == 2;
  }

  /** The search as written over `00 41 00 42 00 42` with that table. */
  lemma WildcardScan(p: Pattern, f: seq<nat>, data: seq<byte>)
    requires p == Pattern([Some(0x41), None, Some(0x42)], "x?x") && f == [0, 1, 2]
    requires data == [0x00, 0x41, 0x00, 0x42, 0x00, 0x42]
    ensures ScanFrom(p, f, data, 0, 0) == [PatternMatch(1, 3), PatternMatch(3, 3)]
  {
    assert Advance(p, f, data, 0, 0) == 0;
    assert Advance(p, f, data, 1, 0) == 1;
    assert Advance(p, f, data, 2, 1) == 2;
    assert Advance(p, f, data, 3, 2) == 3;
    assert Resume(p, f, data, 4, 2) == 1;
    assert Advance(p, f, data, 4, 2) == 2;
    assert Advance(p, f, data, 5, 2) == 3;
    assert ScanFrom(p, f, data, 6, 2) == [];
    assert ScanFrom(p, f, data, 5, 2) == [PatternMatch(3, 3)];
    assert ScanFrom(p, f, data, 4, 2) == [PatternMatch(3, 3)];
    assert ScanFrom(p, f, data, 3, 2) == [PatternMatch(1, 3), PatternMatch(3, 3)];
    assert ScanFrom(p, f, data, 2, 1) == [PatternMatch(1, 3), PatternMatch(3, 3)];
    assert ScanFrom(p, f, data, 1, 0) == [PatternMatch(1, 3), PatternMatch(3, 3)];
  }

  /** The reference matcher over the same bytes finds only offset 1. */
  lemma WildcardNaive(p: Pattern, data: seq<byte>)
    requires p == Pattern([Some(0x41), None, Some(0x42)], "x?x")
    requires data == [0x00, 0x41, 0x00, 0x42, 0x00, 0x42]
    ensures !Matches(p, data, 3) && Naive.AllMatches(p, data) == [PatternMatch(1, 3)]
  {
    var bs := p.bytes;
    assert !Matches(p, data, 0) by { assert !Accepts(bs[0], data[0]); }
    assert Matches(p, data, 1);
    assert !Matches(p, data, 2) by { assert !Accepts(bs[0], data[2]); }
    assert !Matches(p, data, 3) by { assert !Accepts(bs[0], data[3]); }
    assert Naive.From(p, data, 4) == [];
    assert Naive.From(p, data, 3) == [];
    assert Naive.From(p, data, 2) == [];
    assert Naive.From(p, data, 1) == [PatternMatch(1, 3)];
  }

  /** The same fault with the prologue signature `48 83 EC ??` that the analysis
      engine and `find_vtables_by_patterns` search for: over
      `00 48 83 EC 00 83 EC 00` it reports offsets 1 and 4, although offset 4 holds
      `00 83 EC 00`; the corrected search reports offset 1 alone. */
  lemma PrologueFalseHit()
    ensures var p := Pattern([Some(0x48), Some(0x83), Some(0xEC), None], "xxx?");
            var data: seq<byte> := [0x00, 0x48, 0x83, 0xEC, 0x00, 0x83, 0xEC, 0x00];
            AllMatches(p, data) == [PatternMatch(1, 4), PatternMatch(4, 4)]
            && !Matches(p, data, 4)
            && Naive.AllMatches(p, data) == [PatternMatch(1, 4)]
            && CheckedAllMatches(p, data) == [PatternMatch(1, 4)]
  {
    var p := Pattern([Some(0x48), Some(0x83), Some(0xEC), None], "xxx?");
    var data: seq<byte> := [0x00, 0x48, 0x83, 0xEC, 0x00, 0x83, 0xEC, 0x00];
    PrologueTable(p);
    PrologueScan(p, Failure(p), data);
    PrologueNaive(p, data);
    CheckedAllMatchesIsNaive(p, data);
  }

  /** The table of `48 83 EC ??` links only its last prefix, through the wildcard. */
  lemma PrologueTable(p: Pattern)
    requires p == Pattern([Some(0x48), Some(0x83), Some(0xEC), None], "xxx?")
    ensures Failure(p) == [0, 0, 0, 1]
  {
    var bs := p.bytes;
    assert TableUpTo(bs, 1) == [0];
    assert Step(bs, [0], 1) == 0;
    assert TableUpTo(bs, 2) == [0, 0];
    assert Step(bs, [0, 0], 2) == 0;
    assert TableUpTo(bs, 3) == [0, 0, 0];
    assert Step(bs, [0, 0, 0], 3) == 1;
  }

  /** The search as written over `00 48 83 EC 00 83 EC 00` with that table. */
  lemma PrologueScan(p: Pattern, f: seq<nat>, data: seq<byte>)
    requires p == Pattern([Some(0x48), Some(0x83), Some(0xEC), None], "xxx?") && f == [0, 0, 0, 1]
    requires data == [0x00, 0x48, 0x83, 0xEC, 0x00, 0x83, 0xEC, 0x00]
    ensures ScanFrom(p, f, data, 0, 0) == [PatternMatch(1, 4), PatternMatch(4, 4)]
  {
    assert Advance(p, f, data, 0, 0) == 0;
    assert Advance(p, f, data, 1, 0) == 1;
    assert Advance(p, f, data, 2, 1) == 2;
    assert Advance(p, f, data, 3, 2) == 3;
    assert Advance(p, f, data, 4, 3) == 4;
    assert Advance(p, f, data, 5, 1) == 2;
    assert Advance(p, f, data, 6, 2) == 3;
    assert Advance(p, f, data, 7, 3) == 4;
    assert ScanFrom(p, f, data, 8, 1) == [];
    assert ScanFrom(p, f, data, 7, 3) == [PatternMatch(4, 4)];
    assert ScanFrom(p, f, data, 6, 2) == [PatternMatch(4, 4)];
    assert ScanFrom(p, f, data, 5, 1) == [PatternMatch(4, 4)];
    assert ScanFrom(p, f, data, 4, 3) == [PatternMatch(1, 4), PatternMatch(4, 4)];
    assert ScanFrom(p, f, data, 3, 2) == [PatternMatch(1, 4), PatternMatch(4, 4)];
    assert ScanFrom(p, f, data, 2, 1) == [PatternMatch(1, 4), PatternMatch(4, 4)];
    assert ScanFrom(p, f, data, 1, 0) == [PatternMatch(1, 4), PatternMatch(4, 4)];
  }

  /** The reference matcher over the same bytes finds only offset 1. */
  lemma PrologueNaive(p: Pattern, data: seq<byte>)
    requires p == Pattern([Some(0x48), Some(0x83), Some(0xEC), None], "xxx?")
    requires data == [0x00, 0x48, 0x83, 0xEC, 0x00, 0x83, 0xEC, 0x00]
    ensures !Matches(p, data, 4) && Naive.AllMatches(p, data) == [PatternMatch(1, 4)]
  {
    var bs := p.bytes;
    assert !Matches(p, data, 0) by { assert !Accepts(bs[0], data[0]); }
    assert Matches(p, data, 1);
    assert !Matches(p, data, 2) by { assert !Accepts(bs[0], data[2]); }
    assert !Matches(p, data, 3) by { assert !Accepts(bs[0], data[3]); }
    assert !Matches(p, data, 4) by { assert !Accepts(bs[0], data[4]); }
    assert Naive.From(p, data, 5) == [];
    assert Naive.From(p, data, 4) == [];
    assert Naive.From(p, data, 3) == [];
    assert Naive.From(p, data, 2) == [];
    assert Naive.From(p, data, 1) == [PatternMatch(1, 4)];
  }

  // ---------------------------------------------------------------------------
  // The corrected search

  /** `find_all` validated against the reference matcher: the table-driven pass for
      patterns without wildcards, the reference pass otherwise. Offsets are computed
      as `i + 1 - len`, which cannot underflow. */
  function CheckedAllMatches(p: Pattern, data: seq<byte>): seq<PatternMatch>
  {
    if Exact(p) then AllMatches(p, data) else Naive.AllMatches(p, data)
  }

  function CheckedFirstMatch(p: Pattern, data: seq<byte>): Option<PatternMatch>
  {
    if Exact(p) then FirstMatch(p, data) else Naive.FirstMatch(p, data)
  }

  /** The corrected `find_all` reports exactly the reference hits, for every pattern. */
  lemma CheckedAllMatchesIsNaive(p: Pattern, data: seq<byte>)
    ensures CheckedAllMatches(p, data) == Naive.AllMatches(p, data)
  {
    if Exact(p) {
      AllMatchesExact(p, data);
    }
  }

  /** The corrected `find_first` reports the reference first hit, for every pattern. */
  lemma CheckedFirstMatchIsNaive(p: Pattern, data: seq<byte>)
    ensures CheckedFirstMatch(p, data) == Naive.FirstMatch(p, data)
  {
    if Exact(p) {
      FirstMatchExact(p, data);
    }
  }
}
