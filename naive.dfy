/** The reference matcher: every offset is tested in turn. */
module Naive {
  import opened Common
  import opened Patterns

  /** The hits at offsets `o`, `o + 1`, ... as long as the pattern still fits. */
  function From(p: Pattern, data: seq<byte>, o: nat): seq<PatternMatch>
    decreases |data| - o
  {
    if o + |p.bytes| > |data| then []
    else (if Matches(p, data, o) then [PatternMatch(o, |p.bytes|)] else []) + From(p, data, o + 1)
  }

  /** The first hit at or after offset `o`. */
  function FirstFrom(p: Pattern, data: seq<byte>, o: nat): Option<PatternMatch>
    decreases |data| - o
  {
    if o + |p.bytes| > |data| then None
    else if Matches(p, data, o) then Some(PatternMatch(o, |p.bytes|))
    else FirstFrom(p, data, o + 1)
  }

  /** `NaiveMatcher::find_all`, as a value: nothing for an empty pattern or a
      buffer shorter than the pattern. */
  function AllMatches(p: Pattern, data: seq<byte>): seq<PatternMatch>
  {
    if |p.bytes| == 0 || |data| < |p.bytes| then [] else From(p, data, 0)
  }

  /** `NaiveMatcher::find_first`, as a value. */
  function FirstMatch(p: Pattern, data: seq<byte>): Option<PatternMatch>
  {
    if |p.bytes| == 0 || |data| < |p.bytes| then None else FirstFrom(p, data, 0)
  }

  /** `NaiveMatcher::find_all`: one `matches_at` per candidate offset. */
  method FindAll(p: Pattern, data: seq<byte>) returns (ms: seq<PatternMatch>)
    ensures ms == AllMatches(p, data)
  {
    ms := [];
    if |p.bytes| == 0 || |data| < |p.bytes| {
      return;
    }
    var i := 0;
    while i <= |data| - |p.bytes|
      invariant 0 <= i <= |data| - |p.bytes| + 1
      invariant ms + From(p, data, i) == From(p, data, 0)
    {
      var found := MatchesAt(p, data, i);
      if found {
        assert From(p, data, i) == [PatternMatch(i, |p.bytes|)] + From(p, data, i + 1);
        ms := ms + [PatternMatch(i, |p.bytes|)];
      }
      i := i + 1;
    }
    assert ms + [] == ms;
  }

  /** `NaiveMatcher::find_first`: stops at the first offset that matches. */
  method FindFirst(p: Pattern, data: seq<byte>) returns (r: Option<PatternMatch>)
    ensures r == FirstMatch(p, data)
  {
    if |p.bytes| == 0 || |data| < |p.bytes| {
      return None;
    }
    var i := 0;
    while i <= |data| - |p.bytes|
      invariant 0 <= i <= |data| - |p.bytes| + 1
      invariant FirstFrom(p, data, i) == FirstFrom(p, data, 0)
    {
      var found := MatchesAt(p, data, i);
      if found {
        return Some(PatternMatch(i, |p.bytes|));
      }
      i := i + 1;
    }
    return None;
  }

  // ---------------------------------------------------------------------------
  // What the reference matcher finds

  /** The hits from `o` on are real, in increasing order, and not before `o`. */
  lemma {:induction false} FromSound(p: Pattern, data: seq<byte>, o: nat)
    ensures Sound(From(p, data, o), p, data)
    ensures Increasing(From(p, data, o))
    ensures forall k :: 0 <= k < |From(p, data, o)| ==> From(p, data, o)[k].offset >= o
    decreases |data| - o
  {
    if o + |p.bytes| <= |data| {
      FromSound(p, data, o + 1);
    }
  }

  /** Every match from `o` on is among the hits from `o`. */
  lemma {:induction false} FromComplete(p: Pattern, data: seq<byte>, o: nat)
    ensures CompleteFrom(From(p, data, o), p, data, o)
    decreases |data| - o
  {
    if o + |p.bytes| <= |data| {
      FromComplete(p, data, o + 1);
      var ms := From(p, data, o);
      var head := if Matches(p, data, o) then [PatternMatch(o, |p.bytes|)] else [];
      assert ms == head + From(p, data, o + 1);
      forall j: nat | o <= j && Matches(p, data, j)
        ensures exists k :: 0 <= k < |ms| && ms[k].offset == j
      {
        if j == o {
          assert ms[0].offset == j;
        } else {
          var k :| 0 <= k < |From(p, data, o + 1)| && From(p, data, o + 1)[k].offset == j;
          assert ms[|head| + k].offset == j;
        }
      }
    }
  }

  /** `find_all` reports exactly the matches of a non-empty pattern, each once, in
      increasing order; an empty pattern reports nothing. */
  lemma AllMatchesSpec(p: Pattern, data: seq<byte>)
    ensures Sound(AllMatches(p, data), p, data)
    ensures Increasing(AllMatches(p, data))
    ensures |p.bytes| > 0 ==> CompleteFrom(AllMatches(p, data), p, data, 0)
    ensures |p.bytes| == 0 ==> AllMatches(p, data) == []
  {
    FromSound(p, data, 0);
    FromComplete(p, data, 0);
  }

  /** The first hit from `o` on is the head of the hits from `o` on. */
  lemma {:induction false} FirstFromIsHead(p: Pattern, data: seq<byte>, o: nat)
    ensures FirstFrom(p, data, o) == if From(p, data, o) == [] then None else Some(From(p, data, o)[0])
    decreases |data| - o
  {
    if o + |p.bytes| <= |data| && !Matches(p, data, o) {
      FirstFromIsHead(p, data, o + 1);
    }
  }

  /** `find_first` is the head of `find_all`. */
  lemma FirstMatchIsHead(p: Pattern, data: seq<byte>)
    ensures FirstMatch(p, data) == if AllMatches(p, data) == [] then None else Some(AllMatches(p, data)[0])
  {
    FirstFromIsHead(p, data, 0);
  }

  /** The first hit from `o` on is the lowest matching offset from `o` on. */
  lemma {:induction false} FirstFromSpec(p: Pattern, data: seq<byte>, o: nat)
    ensures FirstFrom(p, data, o).Some? ==>
              var m := FirstFrom(p, data, o).value;
              o <= m.offset && m.size == |p.bytes| && Matches(p, data, m.offset) &&
              forall j: nat :: o <= j < m.offset ==> !Matches(p, data, j)
    ensures FirstFrom(p, data, o).None? ==> forall j: nat :: o <= j ==> !Matches(p, data, j)
    decreases |data| - o
  {
    if o + |p.bytes| <= |data| && !Matches(p, data, o) {
      FirstFromSpec(p, data, o + 1);
    }
  }

  /** `find_first` returns the lowest matching offset, and nothing only when no
      offset matches. */
  lemma FirstMatchSpec(p: Pattern, data: seq<byte>)
    requires |p.bytes| > 0
    ensures FirstMatch(p, data).Some? ==>
              var m := FirstMatch(p, data).value;
              m.size == |p.bytes| && Matches(p, data, m.offset) &&
              forall j: nat :: j < m.offset ==> !Matches(p, data, j)
    ensures FirstMatch(p, data).None? ==> forall j: nat :: !Matches(p, data, j)
  {
    FirstFromSpec(p, data, 0);
  }

  /** Offsets that cannot match may be skipped without losing a hit. */
  /** The hits from `o`: the one at `o`, if any, then those from `o + 1`. */
  lemma FromStep(p: Pattern, data: seq<byte>, o: nat)
    requires o + |p.bytes| <= |data|
    ensures From(p, data, o)
         == (if Matches(p, data, o) then [PatternMatch(o, |p.bytes|)] else []) + From(p, data, o + 1)
  {
  }

  lemma {:induction false} SkipNonMatches(p: Pattern, data: seq<byte>, i: nat, s: nat)
    requires forall j: nat :: i <= j < i + s ==> !Matches(p, data, j)
    ensures From(p, data, i) == From(p, data, i + s)
    decreases s
  {
    if s > 0 {
      SkipNonMatches(p, data, i + 1, s - 1);
      if i + |p.bytes| > |data| {
        assert From(p, data, i + s) == [];
      }
    }
  }
}
