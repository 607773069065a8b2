/** The candidate filters (src/filter_candidates.rs): removing candidates that a
    mutation file names, and keeping the candidates that fall inside the intervals
    of a bedGraph. Both work on a candidate list of (chromosome, u32 position)
    pairs and on the already-read lines of a file. */
module FilterCandidates {
  import opened Wrappers
  import opened Text
  import opened Utils

  /** A candidate site: chromosome name and 1-based (VCF) position. */
  type Cand = (string, U32)

  // ---------------------------------------------------------------------------
  // filter_mutations
  // ---------------------------------------------------------------------------

  /** The mutation a VCF-like line names, if any: comment lines, lines with fewer
      than two tab fields and lines whose position is not a `u32` name none. The
      chromosome loses every leading repetition of "chr". */
  function MutationOf(line: string): Option<Cand> {
    if StartsWith(line, "#") then None
    else
      var f := Split(line, '\t');
      if |f| < 2 then None
      else
        match ParseUnsigned(f[1], U32_LIMIT)
        case None => None
        case Some(pos) => Some((TrimStartMatches(f[0], "chr"), pos))
  }

  /** Every mutation the lines name. */
  function Mutations(lines: seq<string>): (r: set<Cand>)
    ensures forall x :: x in r <==> exists i :: 0 <= i < |lines| && MutationOf(lines[i]) == Some(x)
    decreases |lines|
  {
    if |lines| == 0 then {}
    else
      var rest := Mutations(lines[1..]);
      assert forall i :: 1 <= i < |lines| ==> lines[i] == lines[1..][i - 1];
      match MutationOf(lines[0])
      case None => rest
      case Some(x) => {x} + rest
  }

  /** The `to_remove` list: in file order, each named mutation that is a candidate. */
  function ToRemove(cands: seq<Cand>, lines: seq<string>): (r: seq<Cand>)
    ensures forall x :: x in r <==> x in cands && x in Mutations(lines)
    decreases |lines|
  {
    if |lines| == 0 then []
    else
      var rest := ToRemove(cands, lines[1..]);
      assert Mutations(lines) == (match MutationOf(lines[0]) case None => {} case Some(x) => {x})
                                 + Mutations(lines[1..]);
      match MutationOf(lines[0])
      case Some(x) => if x in cands then [x] + rest else rest
      case None => rest
  }

  /** `Vec::retain`: the elements not in `drop`, in their original order. */
  function Retain(s: seq<Cand>, drop: seq<Cand>): (r: seq<Cand>)
    ensures |r| <= |s|
    ensures forall x :: x in r <==> x in s && x !in drop
    decreases |s|
  {
    if |s| == 0 then []
    else
      var rest := Retain(s[1..], drop);
      assert forall x :: x in s <==> x == s[0] || x in s[1..];
      if s[0] in drop then rest else [s[0]] + rest
  }

  /** `filter_mutations`: every candidate that some mutation line names is removed,
      each occurrence of it; the survivors keep their order. */
  function FilterMutations(cands: seq<Cand>, lines: seq<string>): (r: seq<Cand>)
    ensures forall x :: x in r <==> x in cands && x !in Mutations(lines)
  {
    Retain(cands, ToRemove(cands, lines))
  }

  /** The reference filter: keep exactly the elements outside a set. */
  function FilterOut(s: seq<Cand>, drop: set<Cand>): seq<Cand>
    decreases |s|
  {
    if |s| == 0 then []
    else if s[0] in drop then FilterOut(s[1..], drop)
    else [s[0]] + FilterOut(s[1..], drop)
  }

  lemma {:induction false} RetainIsFilterOut(s: seq<Cand>, drop: seq<Cand>, d: set<Cand>)
    requires forall x :: x in s ==> (x in drop <==> x in d)
    ensures Retain(s, drop) == FilterOut(s, d)
    decreases |s|
  {
    if |s| > 0 {
      RetainIsFilterOut(s[1..], drop, d);
    }
  }

  /** `filter_mutations` removes exactly the candidates in the set of mutations the
      file names; building the intermediate `to_remove` list changes nothing. */
  lemma FilterMutationsIsFilterOut(cands: seq<Cand>, lines: seq<string>)
    ensures FilterMutations(cands, lines) == FilterOut(cands, Mutations(lines))
  {
    RetainIsFilterOut(cands, ToRemove(cands, lines), Mutations(lines));
  }

  /** `a` is obtained from `b` by deleting elements. */
  predicate IsSubsequence(a: seq<Cand>, b: seq<Cand>)
    decreases |b|
  {
    if |a| == 0 then true
    else if |b| == 0 then false
    else if a[0] == b[0] then IsSubsequence(a[1..], b[1..])
    else IsSubsequence(a, b[1..])
  }

  lemma {:induction false} FilterOutSubsequence(s: seq<Cand>, drop: set<Cand>)
    ensures IsSubsequence(FilterOut(s, drop), s)
    decreases |s|
  {
    if |s| > 0 {
      FilterOutSubsequence(s[1..], drop);
      var r := FilterOut(s[1..], drop);
      if s[0] !in drop {
        assert ([s[0]] + r)[1..] == r;
      } else {
        SubsequenceSkip(r, s);
      }
    }
  }

  /** A subsequence of the tail is a subsequence of the whole. */
  lemma {:induction false} SubsequenceSkip(a: seq<Cand>, b: seq<Cand>)
    requires |b| > 0 && IsSubsequence(a, b[1..])
    ensures IsSubsequence(a, b)
    decreases |b|, 0
  {
    if |a| > 0 && a[0] == b[0] {
      SubsequenceTail(a, b[1..]);
    }
  }

  /** Dropping the head of a subsequence keeps it a subsequence. */
  lemma {:induction false} SubsequenceTail(a: seq<Cand>, b: seq<Cand>)
    requires |a| > 0 && IsSubsequence(a, b)
    ensures IsSubsequence(a[1..], b)
    decreases |b|, 1
  {
    if a[0] != b[0] {
      SubsequenceTail(a, b[1..]);
    }
    SubsequenceSkip(a[1..], b);
  }

  /** The survivors are the input with elements deleted, in the input's order. */
  lemma FilterMutationsSubsequence(cands: seq<Cand>, lines: seq<string>)
    ensures IsSubsequence(FilterMutations(cands, lines), cands)
    ensures |FilterMutations(cands, lines)| <= |cands|
  {
    FilterMutationsIsFilterOut(cands, lines);
    FilterOutSubsequence(cands, Mutations(lines));
  }

  lemma {:induction false} FilterOutIdempotent(s: seq<Cand>, drop: set<Cand>)
    ensures FilterOut(FilterOut(s, drop), drop) == FilterOut(s, drop)
    decreases |s|
  {
    if |s| > 0 {
      FilterOutIdempotent(s[1..], drop);
      if s[0] !in drop {
        assert ([s[0]] + FilterOut(s[1..], drop))[1..] == FilterOut(s[1..], drop);
      }
    }
  }

  /** Filtering twice against the same mutation lines is filtering once. */
  lemma FilterMutationsIdempotent(cands: seq<Cand>, lines: seq<string>)
    ensures FilterMutations(FilterMutations(cands, lines), lines) == FilterMutations(cands, lines)
  {
    FilterMutationsIsFilterOut(cands, lines);
    FilterMutationsIsFilterOut(FilterMutations(cands, lines), lines);
    FilterOutIdempotent(cands, Mutations(lines));
  }

  // ---------------------------------------------------------------------------
  // filter_inconsistent
  // ---------------------------------------------------------------------------

  /** The interval lines: every line but "track" headers that has at least three
      tab fields. */
  predicate IsIntervalLine(line: string) {
    !StartsWith(line, "track") && |Split(line, '\t')| >= 3
  }

  /** `parse::<u32>().expect(..)` on both bounds, and `start + 1` in `u32`, panic
      on failure; a run without panic needs every interval line to pass them. */
  predicate IntervalParses(line: string) {
    var f := Split(line, '\t');
    IsIntervalLine(line) ==>
      && ParseUnsigned(f[1], U32_LIMIT).Some?
      && ParseUnsigned(f[1], U32_LIMIT).value + 1 < U32_LIMIT
      && ParseUnsigned(f[2], U32_LIMIT).Some?
  }

  predicate AllIntervalsParse(lines: seq<string>) {
    forall i :: 0 <= i < |lines| ==> IntervalParses(lines[i])
  }

  /** The chromosome and the half-open range `[start + 1, end)` of an interval line. */
  datatype Interval = Interval(chrom: string, lo: U32, hi: U32)

  function IntervalOf(line: string): (iv: Interval)
    requires IsIntervalLine(line) && IntervalParses(line)
  {
    var f := Split(line, '\t');
    Interval(TrimStartMatches(f[0], "chr"),
             ParseUnsigned(f[1], U32_LIMIT).value + 1,
             ParseUnsigned(f[2], U32_LIMIT).value)
  }

  /** The loop `for pos in lo..hi`: each position, ascending, whose pair with the
      chromosome is a candidate. */
  function EmitRange(cands: seq<Cand>, chrom: string, lo: U32, hi: U32): (r: seq<Cand>)
    ensures forall x :: x in r <==> x in cands && x.0 == chrom && lo <= x.1 < hi
    ensures forall i :: 0 <= i < |r| ==> (r[i].0 == chrom && lo <= r[i].1 < hi)
    decreases hi as int - lo as int
  {
    if lo >= hi then []
    else
      var rest := EmitRange(cands, chrom, lo + 1, hi);
      if (chrom, lo) in cands then [(chrom, lo)] + rest else rest
  }

  /** Positions strictly increase along the list. */
  predicate Ascending(r: seq<Cand>) {
    forall i, j :: 0 <= i < j < |r| ==> r[i].1 < r[j].1
  }

  /** Within one interval the output positions strictly increase. */
  lemma {:induction false} EmitRangeAscending(cands: seq<Cand>, chrom: string, lo: U32, hi: U32)
    ensures Ascending(EmitRange(cands, chrom, lo, hi))
    decreases hi as int - lo as int
  {
    if lo < hi {
      var next: U32 := lo + 1;
      EmitRangeAscending(cands, chrom, next, hi);
      var rest := EmitRange(cands, chrom, next, hi);
      var r := EmitRange(cands, chrom, lo, hi);
      if (chrom, lo) in cands {
        assert r == [(chrom, lo)] + rest;
        forall i, j | 0 <= i < j < |r| ensures r[i].1 < r[j].1 {
          assert r[j] == rest[j - 1];
          if i > 0 {
            assert r[i] == rest[i - 1];
          }
        }
      } else {
        assert r == rest;
      }
    }
  }

  /** Whether `line` is an interval line that covers candidate `x`. */
  predicate Covers(line: string, x: Cand)
    requires IntervalParses(line)
  {
    IsIntervalLine(line) &&
      var iv := IntervalOf(line);
      x.0 == iv.chrom && iv.lo <= x.1 < iv.hi
  }

  /** What one bedGraph line contributes: the candidates it covers, each once, by
      ascending position. By `AscendingUnique` this fixes the list exactly. */
  function LineOutput(cands: seq<Cand>, line: string): (r: seq<Cand>)
    requires IntervalParses(line)
    ensures forall x :: x in r <==> x in cands && Covers(line, x)
    ensures Ascending(r)
  {
    if IsIntervalLine(line) then
      var iv := IntervalOf(line);
      EmitRangeAscending(cands, iv.chrom, iv.lo, iv.hi);
      EmitRange(cands, iv.chrom, iv.lo, iv.hi)
    else []
  }

  /** Two ascending lists with the same members are the same list. */
  lemma {:induction false} AscendingUnique(r: seq<Cand>, s: seq<Cand>)
    requires Ascending(r) && Ascending(s)
    requires forall x :: x in r <==> x in s
    ensures r == s
    decreases |r|
  {
    if |r| > 0 {
      assert r[0] in s;
    }
    if |s| > 0 {
      assert s[0] in r;
    }
    if |r| > 0 && |s| > 0 {
      assert r[0] == s[0] by {
        var i :| 0 <= i < |r| && r[i] == s[0];
        var j :| 0 <= j < |s| && s[j] == r[0];
        assert r[0].1 <= r[i].1 == s[0].1;
        assert s[0].1 <= s[j].1 == r[0].1;
        assert i == 0;
      }
      forall x ensures x in r[1..] <==> x in s[1..] {
        if x in r[1..] {
          var i :| 1 <= i < |r| && r[i] == x;
          assert x != s[0];
          assert x in s;
        }
        if x in s[1..] {
          var j :| 1 <= j < |s| && s[j] == x;
          assert x != r[0];
          assert x in r;
        }
      }
      AscendingUnique(r[1..], s[1..]);
    }
  }

  /** A one-line bedGraph yields exactly that line's output. */
  lemma FilterInconsistentSingle(cands: seq<Cand>, line: string)
    requires IntervalParses(line)
    ensures AllIntervalsParse([line])
    ensures FilterInconsistent(cands, [line]) == LineOutput(cands, line)
  {
    assert [line][1..] == [];
  }

  /** `filter_inconsistent`: line by line, the candidates each interval covers, in
      the bedGraph's order; a candidate covered by two intervals appears twice. */
  function FilterInconsistent(cands: seq<Cand>, lines: seq<string>): (r: seq<Cand>)
    requires AllIntervalsParse(lines)
    ensures forall x :: x in r ==> x in cands
    ensures forall x :: x in r <==> x in cands && exists i :: 0 <= i < |lines| && Covers(lines[i], x)
    decreases |lines|
  {
    if |lines| == 0 then []
    else
      var rest := FilterInconsistent(cands, lines[1..]);
      var out := LineOutput(cands, lines[0]);
      assert forall i :: 1 <= i < |lines| ==> lines[i] == lines[1..][i - 1];
      assert forall x :: x in out + rest <==> x in out || x in rest;
      out + rest
  }

  /** The output for two files read one after the other is the two outputs
      concatenated; with a file repeated, every output appears twice. */
  lemma {:induction false} FilterInconsistentAppend(cands: seq<Cand>, a: seq<string>, b: seq<string>)
    requires AllIntervalsParse(a) && AllIntervalsParse(b)
    ensures AllIntervalsParse(a + b)
    ensures FilterInconsistent(cands, a + b) == FilterInconsistent(cands, a) + FilterInconsistent(cands, b)
    decreases |a|
  {
    assert AllIntervalsParse(a + b) by {
      forall i | 0 <= i < |a + b| ensures IntervalParses((a + b)[i]) {
        if i < |a| { assert (a + b)[i] == a[i]; } else { assert (a + b)[i] == b[i - |a|]; }
      }
    }
    if |a| == 0 {
      assert a + b == b;
    } else {
      assert (a + b)[0] == a[0];
      assert (a + b)[1..] == a[1..] + b;
      assert AllIntervalsParse(a[1..]) by {
        forall i | 0 <= i < |a| - 1 ensures IntervalParses(a[1..][i]) { assert a[1..][i] == a[i + 1]; }
      }
      FilterInconsistentAppend(cands, a[1..], b);
    }
  }

  /** The output does not depend on the order of the candidate list, only on which
      pairs it contains. */
  lemma {:induction false} FilterInconsistentCandidateOrder(c1: seq<Cand>, c2: seq<Cand>, lines: seq<string>)
    requires AllIntervalsParse(lines)
    requires forall x :: x in c1 <==> x in c2
    ensures FilterInconsistent(c1, lines) == FilterInconsistent(c2, lines)
    decreases |lines|
  {
    if |lines| > 0 {
      FilterInconsistentCandidateOrder(c1, c2, lines[1..]);
      if IsIntervalLine(lines[0]) {
        var iv := IntervalOf(lines[0]);
        EmitRangeSameMembers(c1, c2, iv.chrom, iv.lo, iv.hi);
      }
    }
  }

  lemma {:induction false} EmitRangeSameMembers(c1: seq<Cand>, c2: seq<Cand>, chrom: string, lo: U32, hi: U32)
    requires forall x :: x in c1 <==> x in c2
    ensures EmitRange(c1, chrom, lo, hi) == EmitRange(c2, chrom, lo, hi)
    decreases hi as int - lo as int
  {
    if lo < hi {
      EmitRangeSameMembers(c1, c2, chrom, lo + 1, hi);
    }
  }
}
