/**
 The syntactic tests that decide whether a matcher regex narrows the stream set, and what
 they mean for the texts the regex matches.
 */
module CatchAll {
  import opened Regex

  // ----- character coverage

  datatype Range = Range(lo: Rune, hi: Rune)

  ghost predicate Covered(r: Rune, ranges: seq<Range>) {
    exists k :: 0 <= k < |ranges| && ranges[k].lo <= r <= ranges[k].hi
  }

  predicate SortedByLow(ranges: seq<Range>) {
    forall i, j | 0 <= i < j < |ranges| :: ranges[i].lo <= ranges[j].lo
  }

  /** A trailing bound without a partner is ignored. */
  function PairUp(pairs: seq<Rune>): seq<Range> {
    if |pairs| < 2 then [] else [Range(pairs[0], pairs[1])] + PairUp(pairs[2..])
  }

  /** The scan of charClassCoversAll, with everything below next known to be covered. */
  predicate CoversFrom(ranges: seq<Range>, next: int) {
    if ranges == [] then next > MAX_RUNE
    else if ranges[0].lo > next && (next != NEWLINE || ranges[0].lo != NEWLINE + 1) then false
    else CoversFrom(ranges[1..], if ranges[0].hi >= next then ranges[0].hi + 1 else next)
  }

  lemma {:induction false} CoversFromSound(ranges: seq<Range>, next: int, r: Rune)
    requires CoversFrom(ranges, next) && next <= r && r != NEWLINE
    ensures Covered(r, ranges)
  {
    var next' := if ranges[0].hi >= next then ranges[0].hi + 1 else next;
    if next' <= r {
      CoversFromSound(ranges[1..], next', r);
      var k :| 0 <= k < |ranges[1..]| && ranges[1..][k].lo <= r <= ranges[1..][k].hi;
      assert ranges[k + 1] == ranges[1..][k];
    }
  }

  lemma {:induction false} CoversFromComplete(ranges: seq<Range>, next: nat)
    requires SortedByLow(ranges)
    requires forall r: Rune | next <= r && r != NEWLINE :: Covered(r, ranges)
    ensures CoversFrom(ranges, next)
  {
    if ranges == [] {
      if next <= MAX_RUNE {
        var r: Rune := if next == NEWLINE then NEWLINE + 1 else next;
        var covered := Covered(r, ranges);
      }
    } else {
      if ranges[0].lo > next {
        assert next == NEWLINE || !Covered(next, ranges);
        assert ranges[0].lo > NEWLINE + 1 ==> !Covered(NEWLINE + 1, ranges);
      }
      var next' := if ranges[0].hi >= next then ranges[0].hi + 1 else next;
      forall r: Rune | next' <= r && r != NEWLINE
        ensures Covered(r, ranges[1..])
      {
        assert Covered(r, ranges);
        var k :| 0 <= k < |ranges| && ranges[k].lo <= r <= ranges[k].hi;
        assert ranges[1..][k - 1] == ranges[k];
      }
      CoversFromComplete(ranges[1..], next');
    }
  }

  /** charClassCoversAll is exact on ranges sorted by low bound. */
  lemma ClassTestIsExact(ranges: seq<Range>)
    requires SortedByLow(ranges)
    ensures CoversFrom(ranges, 0) <==> forall r: Rune | r != NEWLINE :: Covered(r, ranges)
  {
    if CoversFrom(ranges, 0) {
      forall r: Rune | r != NEWLINE
        ensures Covered(r, ranges)
      {
        CoversFromSound(ranges, 0, r);
      }
    }
    if forall r: Rune | r != NEWLINE :: Covered(r, ranges) {
      CoversFromComplete(ranges, 0);
    }
  }

  lemma {:induction false} PairUpAt(pairs: seq<Rune>)
    ensures |PairUp(pairs)| == |pairs| / 2
    ensures forall k | 0 <= k < |pairs| / 2 :: PairUp(pairs)[k] == Range(pairs[2 * k], pairs[2 * k + 1])
  {
    if |pairs| >= 2 {
      PairUpAt(pairs[2..]);
      forall k | 1 <= k < |pairs| / 2
        ensures PairUp(pairs)[k] == Range(pairs[2 * k], pairs[2 * k + 1])
      {
        assert PairUp(pairs)[k] == PairUp(pairs[2..])[k - 1];
      }
    }
  }

  lemma PairUpFrom(pairs: seq<Rune>, i: nat)
    requires 2 * i <= |pairs|
    ensures |PairUp(pairs)| == |pairs| / 2
    ensures PairUp(pairs[2 * i..]) == PairUp(pairs)[i..]
    ensures forall k | 0 <= k < |pairs| / 2 :: PairUp(pairs)[k] == Range(pairs[2 * k], pairs[2 * k + 1])
  {
    hide PairUp;
    PairUpAt(pairs);
    PairUpAt(pairs[2 * i..]);
    assert |pairs[2 * i..]| / 2 == |pairs| / 2 - i;
    forall k | 0 <= k < |pairs| / 2 - i
      ensures PairUp(pairs[2 * i..])[k] == PairUp(pairs)[i + k]
    {
      assert pairs[2 * i..][2 * k] == pairs[2 * (i + k)] && pairs[2 * i..][2 * k + 1] == pairs[2 * (i + k) + 1];
    }
  }

  method CharClassCoversAll(pairs: seq<Rune>) returns (covers: bool)
    ensures covers == CoversFrom(PairUp(pairs), 0)
  {
    var next: int := 0;
    var i := 0;
    PairUpFrom(pairs, 0);
    while i + 1 < |pairs|
      invariant 0 <= i <= |pairs| && i % 2 == 0
      invariant CoversFrom(PairUp(pairs), 0) == CoversFrom(PairUp(pairs)[i / 2..], next)
    {
      var lo, hi := pairs[i], pairs[i + 1];
      assert PairUp(pairs)[i / 2] == Range(lo, hi);
      if lo > next && (next != NEWLINE || lo != NEWLINE + 1) {
        return false;
      }
      if hi >= next {
        next := hi + 1;
      }
      i := i + 2;
    }
    return next > MAX_RUNE;
  }

  // ----- alternations of single characters

  function StripCaptures(re: Tree): (bare: Tree)
    ensures !bare.Capture?
  {
    if re.Capture? then StripCaptures(re.sub) else re
  }

  /** The bounds a branch adds to the union; longer branches add nothing. */
  function BranchPairs(re: Tree): seq<Rune> {
    match StripCaptures(re)
    case AnyCharNotNL => [0, NEWLINE - 1, NEWLINE + 1, MAX_RUNE]
    case CharClass(pairs) => pairs
    case Literal(runes, _) => if |runes| == 1 then [runes[0], runes[0]] else []
    case _ => []
  }

  function AllPairs(subs: seq<Tree>): seq<Rune> {
    if subs == [] then [] else BranchPairs(subs[0]) + AllPairs(subs[1..])
  }

  function Insert(r: Range, ranges: seq<Range>): seq<Range> {
    if ranges == [] || r.lo < ranges[0].lo then [r] + ranges else [ranges[0]] + Insert(r, ranges[1..])
  }

  function SortByLow(ranges: seq<Range>): seq<Range> {
    if ranges == [] then [] else Insert(ranges[0], SortByLow(ranges[1..]))
  }

  lemma {:induction false} InsertAdds(r: Range, ranges: seq<Range>)
    ensures multiset(Insert(r, ranges)) == multiset{r} + multiset(ranges)
  {
    if ranges == [] || r.lo < ranges[0].lo {
    } else {
      InsertAdds(r, ranges[1..]);
      assert ranges == [ranges[0]] + ranges[1..];
    }
  }

  lemma {:induction false} InsertSorts(r: Range, ranges: seq<Range>)
    requires SortedByLow(ranges)
    ensures SortedByLow(Insert(r, ranges))
    ensures forall k | 0 <= k < |Insert(r, ranges)| :: Insert(r, ranges)[k].lo >= r.lo || Insert(r, ranges)[k] in ranges
  {
    if ranges == [] || r.lo < ranges[0].lo {
    } else {
      var rest := Insert(r, ranges[1..]);
      InsertSorts(r, ranges[1..]);
      assert Insert(r, ranges) == [ranges[0]] + rest;
      forall k | 0 <= k < |rest|
        ensures ranges[0].lo <= rest[k].lo
        ensures rest[k].lo >= r.lo || rest[k] in ranges
      {
        assert rest[k].lo >= r.lo || rest[k] in ranges[1..];
      }
    }
  }

  lemma {:induction false} SortByLowSorts(ranges: seq<Range>)
    ensures SortedByLow(SortByLow(ranges))
    ensures multiset(SortByLow(ranges)) == multiset(ranges)
  {
    if ranges != [] {
      SortByLowSorts(ranges[1..]);
      InsertSorts(ranges[0], SortByLow(ranges[1..]));
      InsertAdds(ranges[0], SortByLow(ranges[1..]));
      assert ranges == [ranges[0]] + ranges[1..];
    }
  }

  predicate HasAnyCharBranch(subs: seq<Tree>) {
    exists i | 0 <= i < |subs| :: StripCaptures(subs[i]).AnyChar?
  }

  predicate AlternationCovers(subs: seq<Tree>) {
    HasAnyCharBranch(subs) || CoversFrom(SortByLow(PairUp(AllPairs(subs))), 0)
  }

  lemma SameMembersCoverMore(ranges: seq<Range>, ranges': seq<Range>, r: Rune)
    requires multiset(ranges) == multiset(ranges') && Covered(r, ranges)
    ensures Covered(r, ranges')
  {
    var k :| 0 <= k < |ranges| && ranges[k].lo <= r <= ranges[k].hi;
    assert ranges[k] in multiset(ranges');
    var k' :| 0 <= k' < |ranges'| && ranges'[k'] == ranges[k];
  }

  /** The sort may leave equal bounds in any order: the answer is exact for the covered set either way. */
  lemma AnySortIsExact(ranges: seq<Range>, sorted: seq<Range>)
    requires SortedByLow(sorted) && multiset(sorted) == multiset(ranges)
    ensures CoversFrom(sorted, 0) <==> forall r: Rune | r != NEWLINE :: Covered(r, ranges)
  {
    ClassTestIsExact(sorted);
    forall r: Rune
      ensures Covered(r, ranges) <==> Covered(r, sorted)
    {
      if Covered(r, ranges) {
        SameMembersCoverMore(ranges, sorted, r);
      }
      if Covered(r, sorted) {
        SameMembersCoverMore(sorted, ranges, r);
      }
    }
  }

  method BareBranch(re: Tree) returns (sub: Tree)
    ensures sub == StripCaptures(re)
  {
    sub := re;
    while sub.Capture?
      invariant StripCaptures(sub) == StripCaptures(re)
      decreases sub
    {
      sub := sub.sub;
    }
  }

  /** Collects the bounds of the single-character branches, stopping at a branch that is any character. */
  method CollectPairs(subs: seq<Tree>) returns (anyChar: bool, collected: seq<Rune>)
    ensures anyChar == HasAnyCharBranch(subs)
    ensures !anyChar ==> collected == AllPairs(subs)
  {
    collected := [];
    for n := 0 to |subs|
      invariant forall m | 0 <= m < n :: !StripCaptures(subs[m]).AnyChar?
      invariant AllPairs(subs) == collected + AllPairs(subs[n..])
    {
      var sub := BareBranch(subs[n]);
      if sub.AnyChar? {
        return true, collected;
      }
      var added: seq<Rune> := [];
      if sub.AnyCharNotNL? {
        added := [0, NEWLINE - 1, NEWLINE + 1, MAX_RUNE];
      } else if sub.CharClass? {
        added := sub.pairs;
      } else if sub.Literal? && |sub.runes| == 1 {
        added := [sub.runes[0], sub.runes[0]];
      }
      assert added == BranchPairs(subs[n]);
      CollectOne(subs, n, collected);
      collected := collected + added;
    }
    return false, collected;
  }

  lemma CollectOne(subs: seq<Tree>, n: nat, collected: seq<Rune>)
    requires n < |subs|
    ensures collected + AllPairs(subs[n..]) == collected + BranchPairs(subs[n]) + AllPairs(subs[n + 1..])
  {
    assert subs[n..][1..] == subs[n + 1..];
  }

  method Regroup(pairs: array<Rune>) returns (ranges: seq<Range>)
    ensures ranges == PairUp(pairs[..])
  {
    ranges := [];
    var i := 0;
    PairUpFrom(pairs[..], 0);
    while i + 1 < pairs.Length
      invariant 0 <= i <= pairs.Length && i % 2 == 0
      invariant ranges == PairUp(pairs[..])[..i / 2]
    {
      ranges := ranges + [Range(pairs[i], pairs[i + 1])];
      i := i + 2;
    }
  }

  method WriteBack(pairs: array<Rune>, ranges: seq<Range>) returns (length: nat)
    requires 2 * |ranges| <= pairs.Length
    modifies pairs
    ensures length == 2 * |ranges| && PairUp(pairs[..length]) == ranges
  {
    length := 0;
    for k := 0 to |ranges|
      invariant length == 2 * k
      invariant forall m | 0 <= m < k :: pairs[2 * m] == ranges[m].lo && pairs[2 * m + 1] == ranges[m].hi
    {
      pairs[length], pairs[length + 1] := ranges[k].lo, ranges[k].hi;
      length := length + 2;
    }
    PairUpFrom(pairs[..length], 0);
    assert forall k | 0 <= k < |ranges| :: PairUp(pairs[..length])[k] == ranges[k];
  }

  /** Regroups a slice into pairs, sorts them, and writes them back over the same slice. */
  method SortPairsInPlace(pairs: array<Rune>) returns (length: nat)
    modifies pairs
    ensures length <= pairs.Length
    ensures PairUp(pairs[..length]) == SortByLow(PairUp(old(pairs[..])))
  {
    var ranges := Regroup(pairs);
    PairUpFrom(pairs[..], 0);
    SortKeepsLength(ranges);
    length := WriteBack(pairs, SortByLow(ranges));
  }

  lemma SortKeepsLength(ranges: seq<Range>)
    ensures |SortByLow(ranges)| == |ranges|
  {
    SortByLowSorts(ranges);
    assert |multiset(SortByLow(ranges))| == |multiset(ranges)|;
  }

  method AlternationCoversAllChars(subs: seq<Tree>) returns (covers: bool)
    ensures covers == AlternationCovers(subs)
  {
    var anyChar, collected := CollectPairs(subs);
    if anyChar {
      return true;
    }
    var pairs := new Rune[|collected|](i requires 0 <= i < |collected| => collected[i]);
    assert pairs[..] == collected;
    var length := SortPairsInPlace(pairs);
    covers := CharClassCoversAll(pairs[..length]);
  }
}
