/** The global fold of `count_bases_in_reads` against a purely additive fold.

    The fold in src/find_bases.rs creates a bucket EMPTY the first time a site
    reaches it, discarding that site's counts. This module defines the additive
    fold in which every site's counts land in the table, proves that it does not
    depend on candidate order, relates the two folds exactly, and records the
    consequences for the repository's end-to-end test. */
module AdditiveFold {
  import opened Wrappers
  import opened Utils
  import opened FindBases

  // ---------------------------------------------------------------------------
  // Count maps and tables as commutative monoids
  // ---------------------------------------------------------------------------

  /** Two count maps with the same bases and the same counts are the same map. */
  lemma CountsExt(x: Counts, y: Counts)
    requires x.Keys == y.Keys
    requires forall b :: Get(x, b) == Get(y, b)
    ensures x == y
  {
    forall b | b in x ensures x[b] == y[b] {
      assert Get(x, b) == Get(y, b);
    }
  }

  lemma MergeCountsEmpty(x: Counts)
    ensures MergeCounts(x, map[]) == x
    ensures MergeCounts(map[], x) == x
  {
    CountsExt(MergeCounts(x, map[]), x);
    CountsExt(MergeCounts(map[], x), x);
  }

  lemma MergeCountsComm(x: Counts, y: Counts)
    ensures MergeCounts(x, y) == MergeCounts(y, x)
  {
    CountsExt(MergeCounts(x, y), MergeCounts(y, x));
  }

  lemma MergeCountsAssoc(x: Counts, y: Counts, z: Counts)
    ensures MergeCounts(MergeCounts(x, y), z) == MergeCounts(x, MergeCounts(y, z))
  {
    CountsExt(MergeCounts(MergeCounts(x, y), z), MergeCounts(x, MergeCounts(y, z)));
  }

  /** A bucket's counts, or no counts when the table lacks the bucket. */
  function Bucket(t: Table, pt: PosType): Counts {
    if pt in t then t[pt] else map[]
  }

  /** Bucket-wise merge of two tables. */
  function MergeTables(a: Table, b: Table): (r: Table)
    ensures r.Keys == a.Keys + b.Keys
    ensures forall pt :: Bucket(r, pt) == MergeCounts(Bucket(a, pt), Bucket(b, pt))
  {
    var r := map pt | pt in a.Keys + b.Keys :: MergeCounts(Bucket(a, pt), Bucket(b, pt));
    assert MergeCounts(map[], map[]) == map[] by {
      MergeCountsEmpty(map[]);
    }
    r
  }

  /** Two tables with the same buckets holding the same counts are the same table. */
  lemma TablesExt(x: Table, y: Table)
    requires x.Keys == y.Keys
    requires forall pt :: Bucket(x, pt) == Bucket(y, pt)
    ensures x == y
  {
    forall pt | pt in x ensures x[pt] == y[pt] {
      assert Bucket(x, pt) == Bucket(y, pt);
    }
  }

  lemma MergeTablesEmpty(a: Table)
    ensures MergeTables(a, map[]) == a
  {
    forall pt ensures Bucket(MergeTables(a, map[]), pt) == Bucket(a, pt) {
      MergeCountsEmpty(Bucket(a, pt));
    }
    TablesExt(MergeTables(a, map[]), a);
  }

  lemma MergeTablesComm(a: Table, b: Table)
    ensures MergeTables(a, b) == MergeTables(b, a)
  {
    forall pt ensures Bucket(MergeTables(a, b), pt) == Bucket(MergeTables(b, a), pt) {
      MergeCountsComm(Bucket(a, pt), Bucket(b, pt));
    }
    TablesExt(MergeTables(a, b), MergeTables(b, a));
  }

  lemma MergeTablesAssoc(a: Table, b: Table, c: Table)
    ensures MergeTables(MergeTables(a, b), c) == MergeTables(a, MergeTables(b, c))
  {
    var lhs := MergeTables(MergeTables(a, b), c);
    var rhs := MergeTables(a, MergeTables(b, c));
    forall pt ensures Bucket(lhs, pt) == Bucket(rhs, pt) {
      MergeCountsAssoc(Bucket(a, pt), Bucket(b, pt), Bucket(c, pt));
    }
    TablesExt(lhs, rhs);
  }

  // ---------------------------------------------------------------------------
  // The additive fold
  // ---------------------------------------------------------------------------

  /** One site folded in additively: every bucket it reaches receives its counts,
      whether or not the table had that bucket before. */
  function AddSite(t: Table, m: MethPos): (r: Table)
    ensures r.Keys == t.Keys + SiteBuckets(m).Keys
    ensures forall pt, b :: CountOr0(r, pt, b) == CountOr0(t, pt, b) + CountOr0(SiteBuckets(m), pt, b)
  {
    var r := MergeTables(t, SiteBuckets(m));
    assert forall pt, b :: CountOr0(r, pt, b) == Get(Bucket(r, pt), b);
    r
  }

  /** The sites folded in additively, first to last. */
  function FoldSitesAdditive(t: Table, sites: seq<MethPos>): Table
    decreases |sites|
  {
    if |sites| == 0 then t else FoldSitesAdditive(AddSite(t, sites[0]), sites[1..])
  }

  /** The total that the sites offer to bucket `pt` for base `b`. */
  function Offered(sites: seq<MethPos>, pt: PosType, b: char): nat
    decreases |sites|
  {
    if |sites| == 0 then 0 else CountOr0(SiteBuckets(sites[0]), pt, b) + Offered(sites[1..], pt, b)
  }

  /** Every count the sites offer lands in the additive table: a bucket holds
      exactly what the table started with plus the sum over all sites. */
  lemma {:induction false} AdditiveCounts(t: Table, sites: seq<MethPos>, pt: PosType, b: char)
    ensures CountOr0(FoldSitesAdditive(t, sites), pt, b) == CountOr0(t, pt, b) + Offered(sites, pt, b)
    decreases |sites|
  {
    if |sites| > 0 {
      AdditiveCounts(AddSite(t, sites[0]), sites[1..], pt, b);
    }
  }

  /** Two site lists fold consecutively as their concatenation. */
  lemma {:induction false} FoldSitesAdditiveAppend(t: Table, a: seq<MethPos>, c: seq<MethPos>)
    ensures FoldSitesAdditive(t, a + c) == FoldSitesAdditive(FoldSitesAdditive(t, a), c)
    decreases |a|
  {
    if |a| == 0 {
      assert a + c == c;
    } else {
      assert (a + c)[1..] == a[1..] + c;
      FoldSitesAdditiveAppend(AddSite(t, a[0]), a[1..], c);
    }
  }

  /** Additive steps commute. */
  lemma AddSiteSwap(t: Table, m: MethPos, n: MethPos)
    ensures AddSite(AddSite(t, m), n) == AddSite(AddSite(t, n), m)
  {
    MergeTablesAssoc(t, SiteBuckets(m), SiteBuckets(n));
    MergeTablesComm(SiteBuckets(m), SiteBuckets(n));
    MergeTablesAssoc(t, SiteBuckets(n), SiteBuckets(m));
  }

  /** A site folded in first can equally be folded in last. */
  lemma {:induction false} AddSiteFirstToLast(t: Table, m: MethPos, sites: seq<MethPos>)
    ensures FoldSitesAdditive(AddSite(t, m), sites) == AddSite(FoldSitesAdditive(t, sites), m)
    decreases |sites|
  {
    if |sites| > 0 {
      AddSiteSwap(t, m, sites[0]);
      AddSiteFirstToLast(AddSite(t, sites[0]), m, sites[1..]);
    }
  }

  /** Taking the same element out of two equal multisets leaves equal multisets. */
  lemma RemoveOne<T>(a: seq<T>, x: T, p: seq<T>, q: seq<T>)
    requires multiset(a) + multiset{x} == multiset(p + [x] + q)
    ensures multiset(a) == multiset(p + q)
  {
    calc {
      multiset(a);
      multiset(a) + multiset{x} - multiset{x};
      multiset(p + [x] + q) - multiset{x};
      { assert multiset(p + [x] + q) == multiset(p) + multiset{x} + multiset(q); }
      multiset(p) + multiset{x} + multiset(q) - multiset{x};
      multiset(p + q);
    }
  }

  /** The first element of a list occurs somewhere in any rearrangement of it,
      and what surrounds it there is a rearrangement of the rest. */
  lemma PickOut<T>(s1: seq<T>, s2: seq<T>) returns (p: seq<T>, q: seq<T>)
    requires |s1| > 0 && multiset(s1) == multiset(s2)
    ensures s2 == p + [s1[0]] + q
    ensures multiset(s1[1..]) == multiset(p + q)
  {
    var x := s1[0];
    assert x in multiset(s2);
    var j :| 0 <= j < |s2| && s2[j] == x;
    p, q := s2[..j], s2[j + 1..];
    assert s2 == p + [x] + q;
    assert s1 == [x] + s1[1..];
    assert multiset(s1) == multiset(s1[1..]) + multiset{x};
    RemoveOne(s1[1..], x, p, q);
  }

  /** A site anywhere in the list can be folded in last. */
  lemma MoveToLast(t: Table, p: seq<MethPos>, x: MethPos, q: seq<MethPos>)
    ensures FoldSitesAdditive(t, p + [x] + q) == AddSite(FoldSitesAdditive(t, p + q), x)
  {
    FoldSitesAdditiveAppend(t, p, [x] + q);
    assert p + [x] + q == p + ([x] + q);
    assert ([x] + q)[1..] == q;
    AddSiteFirstToLast(FoldSitesAdditive(t, p), x, q);
    FoldSitesAdditiveAppend(t, p, q);
  }

  /** The additive fold does not depend on candidate order: any rearrangement of the
      sites gives the same table. */
  lemma {:induction false} FoldSitesAdditivePermutation(t: Table, s1: seq<MethPos>, s2: seq<MethPos>)
    requires multiset(s1) == multiset(s2)
    ensures FoldSitesAdditive(t, s1) == FoldSitesAdditive(t, s2)
    decreases |s1|
  {
    if |s1| == 0 {
      assert |s2| == |multiset(s2)| == 0;
    } else {
      var p, q := PickOut(s1, s2);
      FoldSitesAdditivePermutation(t, s1[1..], p + q);
      AddSiteFirstToLast(t, s1[0], s1[1..]);
      MoveToLast(t, p, s1[0], q);
    }
  }

  // ---------------------------------------------------------------------------
  // The fold as written, in terms of the additive fold
  // ---------------------------------------------------------------------------

  /** The site with the counts of every tally entry whose bucket is not yet in
      `seen` emptied: the part of the site the as-written fold keeps. */
  function ZeroUnseen(seen: set<PosType>, m: MethPos): (z: MethPos)
    ensures z.position == m.position && z.methylation == m.methylation
    ensures z.methBases.Keys == m.methBases.Keys
    ensures forall k :: k in m.methBases ==>
              z.methBases[k] == if BucketOf(m, k) in seen then m.methBases[k] else map[]
  {
    WithMethBases(m, map k | k in m.methBases :: if BucketOf(m, k) in seen then m.methBases[k] else map[])
  }

  /** One as-written step is one additive step of the site with its first
      contributions emptied. */
  lemma FoldSiteIsAddZeroed(t: Table, m: MethPos)
    ensures FoldSite(t, m) == AddSite(t, ZeroUnseen(t.Keys, m))
  {
    var z := ZeroUnseen(t.Keys, m);
    var lhs := FoldSite(t, m);
    var rhs := AddSite(t, z);
    assert BucketSet(z, z.methBases.Keys) == BucketSet(m, m.methBases.Keys);
    assert lhs.Keys == rhs.Keys;
    forall pt ensures Bucket(lhs, pt) == Bucket(rhs, pt) {
      var sb := SiteBuckets(z);
      assert Bucket(rhs, pt) == MergeCounts(Bucket(t, pt), Bucket(sb, pt));
      if pt in t && pt in sb {
        assert BucketOf(m, (pt.direction, pt.cpgPosition)) == pt;
      } else if pt in t {
        MergeCountsEmpty(t[pt]);
      } else if pt in sb {
        assert BucketOf(m, (pt.direction, pt.cpgPosition)) == pt;
        MergeCountsEmpty(map[]);
      }
    }
    TablesExt(lhs, rhs);
  }

  /** The sites with every first contribution to a bucket emptied, given the
      buckets `seen` before the first site. */
  function DropFirstContributions(seen: set<PosType>, sites: seq<MethPos>): (r: seq<MethPos>)
    ensures |r| == |sites|
    decreases |sites|
  {
    if |sites| == 0 then []
    else [ZeroUnseen(seen, sites[0])] + DropFirstContributions(seen + SiteBuckets(sites[0]).Keys, sites[1..])
  }

  /** The as-written fold is exactly the additive fold of the sites with each
      bucket's first contribution discarded. */
  lemma {:induction false} FoldSitesDropsFirst(t: Table, sites: seq<MethPos>)
    ensures FoldSites(t, sites) == FoldSitesAdditive(t, DropFirstContributions(t.Keys, sites))
    decreases |sites|
  {
    if |sites| > 0 {
      var m := sites[0];
      FoldSiteIsAddZeroed(t, m);
      FoldSitesDropsFirst(FoldSite(t, m), sites[1..]);
      var d := DropFirstContributions(t.Keys, sites);
      assert d[0] == ZeroUnseen(t.Keys, m);
      assert d[1..] == DropFirstContributions(FoldSite(t, m).Keys, sites[1..]);
    }
  }

  /** A bucket that is new to the table and that at most one site reaches is, if
      present at the end, empty: the one contribution it could get is dropped. */
  lemma {:induction false} SingleContributorBucketEmpty(t: Table, sites: seq<MethPos>, pt: PosType, j: nat)
    requires pt !in t
    requires forall i :: 0 <= i < |sites| && i != j ==> pt !in SiteBuckets(sites[i])
    ensures pt in FoldSites(t, sites) ==> FoldSites(t, sites)[pt] == map[]
    decreases |sites|
  {
    if |sites| > 0 {
      var t' := FoldSite(t, sites[0]);
      if pt in t' {
        assert j == 0 && t'[pt] == map[];
        NoContributorKeepsBucket(t', sites[1..], pt);
      } else {
        SingleContributorBucketEmpty(t', sites[1..], pt, if j == 0 then |sites| else j - 1);
      }
    }
  }

  /** Sites that never reach bucket `pt` leave it as it is. */
  lemma {:induction false} NoContributorKeepsBucket(t: Table, sites: seq<MethPos>, pt: PosType)
    requires pt in t
    requires forall i :: 0 <= i < |sites| ==> pt !in SiteBuckets(sites[i])
    ensures pt in FoldSites(t, sites) && FoldSites(t, sites)[pt] == t[pt]
    decreases |sites|
  {
    if |sites| > 0 {
      NoContributorKeepsBucket(FoldSite(t, sites[0]), sites[1..], pt);
    }
  }

  // ---------------------------------------------------------------------------
  // The end-to-end test's expectation
  // ---------------------------------------------------------------------------

  /** The candidates of `test_count_bases_mid`, in the order the test builds them:
      21:7 at 0, 21:8 at 70, 21:8 at 0, 21:7 at 0. */
  const TestCandidates: seq<MethPos> := [
    NewMethPos(NewPosition("21", 7), 0),
    NewMethPos(NewPosition("21", 8), 70),
    NewMethPos(NewPosition("21", 8), 0),
    NewMethPos(NewPosition("21", 7), 0)
  ]

  /** The bucket the test expects to hold two G counts. */
  const TestBucket: PosType := PosType(Forward, true, 1)

  /** Whatever the alignments are, the as-written fold never puts a count in the
      methylated forward offset-1 bucket for the test's candidates: only one
      candidate is methylated, so its counts are the bucket's first contribution. */
  lemma TestBucketAsWrittenEmpty(store: Store)
    ensures AllFit(store, TestCandidates)
    ensures var table := FoldSites(map[], CountSites(store, TestCandidates));
            TestBucket in table ==> table[TestBucket] == map[]
  {
    var sites := CountSites(store, TestCandidates);
    forall i | 0 <= i < |sites| && i != 1 ensures TestBucket !in SiteBuckets(sites[i]) {
      assert sites[i].methylation == 0;
    }
    SingleContributorBucketEmpty(map[], sites, TestBucket, 1);
  }

  /** A site with a single tally entry reaches exactly its one bucket, with that
      entry's counts. */
  lemma OneEntrySite(m: MethPos, k: TallyKey)
    requires m.methBases.Keys == {k}
    ensures SiteBuckets(m).Keys == {BucketOf(m, k)}
    ensures SiteBuckets(m)[BucketOf(m, k)] == m.methBases[k]
  {
    assert (BucketOf(m, k).direction, BucketOf(m, k).cpgPosition) == k;
  }

  /** Two sites that each reach only the same bucket: the as-written fold keeps
      just the second site's counts. */
  lemma {:induction false} SecondOfTwoWins(a: MethPos, b: MethPos, k: TallyKey)
    requires a.methBases.Keys == {k} && b.methBases.Keys == {k}
    requires IsMethylated(a.methylation) == IsMethylated(b.methylation)
    ensures FoldSites(map[], [a, b]) == map[BucketOf(a, k) := b.methBases[k]]
  {
    var pt := BucketOf(a, k);
    assert BucketOf(b, k) == pt;
    OneEntrySite(a, k);
    OneEntrySite(b, k);
    var t1 := FoldSite(map[], a);
    assert t1 == map[pt := map[]];
    var t2 := FoldSite(t1, b);
    MergeCountsEmpty(b.methBases[k]);
    assert t2 == map[pt := b.methBases[k]];
    assert [a, b][1..] == [b] && [b][1..] == [];
    assert FoldSites(map[], [a, b]) == FoldSites(t1, [b]) == FoldSites(t2, []);
  }

  /** The as-written fold depends on candidate order: two one-entry sites reaching
      the same bucket keep only the counts of whichever comes second. */
  lemma AsWrittenOrderDependent()
    ensures var a := WithMethBases(NewMethPos(NewPosition("21", 7), 0), map[(Forward, 0) := map['C' := 1]]);
            var b := WithMethBases(NewMethPos(NewPosition("21", 8), 0), map[(Forward, 0) := map['T' := 2]]);
            FoldSites(map[], [a, b]) != FoldSites(map[], [b, a])
  {
    var a := WithMethBases(NewMethPos(NewPosition("21", 7), 0), map[(Forward, 0) := map['C' := 1]]);
    var b := WithMethBases(NewMethPos(NewPosition("21", 8), 0), map[(Forward, 0) := map['T' := 2]]);
    var k: TallyKey := (Forward, 0);
    SecondOfTwoWins(a, b, k);
    SecondOfTwoWins(b, a, k);
    var pt := BucketOf(a, k);
    assert FoldSites(map[], [a, b])[pt] != FoldSites(map[], [b, a])[pt] by {
      assert 'T' in FoldSites(map[], [a, b])[pt];
      assert 'T' !in FoldSites(map[], [b, a])[pt];
    }
  }

  // ---------------------------------------------------------------------------
  // The corrected counting
  // ---------------------------------------------------------------------------

  /** `count_bases_in_reads` with every site's counts folded in additively. It
      fails as the original does; on success every bucket holds what the reads show. */
  function CountBasesAdditive(store: Store, cands: seq<MethPos>): (r: Result<Table, CountError>)
    requires ReachedFit(store, cands)
    ensures r.Err? <==> !ChromsKnown(store, cands)
    ensures r.Err? ==> exists i :: 0 <= i < |cands| && ChromsKnown(store, cands[..i])
                                   && cands[i].position.chrom !in store.chroms
                                   && r.error == ChromosomeNotFound(cands[i].position.chrom)
    ensures r.Ok? ==> AllFit(store, cands)
    ensures r.Ok? && (forall i :: 0 <= i < |cands| ==> cands[i].methBases == map[]) ==>
              forall pt, b :: CountOr0(r.value, pt, b) == ObservedInBucket(store, cands, pt, b)
  {
    var n := KnownPrefix(store, cands);
    if n < |cands| then
      Err(ChromosomeNotFound(cands[n].position.chrom))
    else
      assert cands[..n] == cands;
      AdditiveTableObserved(store, cands);
      Ok(FoldSitesAdditive(map[], CountSites(store, cands)))
  }

  /** Every bucket of the additive table for fresh candidates. */
  lemma AdditiveTableObserved(store: Store, cands: seq<MethPos>)
    requires AllFit(store, cands)
    ensures (forall i :: 0 <= i < |cands| ==> cands[i].methBases == map[]) ==>
              forall pt, b :: CountOr0(FoldSitesAdditive(map[], CountSites(store, cands)), pt, b)
                              == ObservedInBucket(store, cands, pt, b)
  {
    if forall i :: 0 <= i < |cands| ==> cands[i].methBases == map[] {
      forall pt, b
        ensures CountOr0(FoldSitesAdditive(map[], CountSites(store, cands)), pt, b)
                == ObservedInBucket(store, cands, pt, b)
      {
        CountBasesAdditiveObserved(store, cands, pt, b);
      }
    }
  }

  /** What the reads show for bucket `pt`: over every candidate of the bucket's
      methylation class, the reads of the bucket's direction that show base `b` at
      the candidate's position plus the bucket's offset. */
  function ObservedInBucket(store: Store, cands: seq<MethPos>, pt: PosType, b: char): nat
    requires AllFit(store, cands)
    decreases |cands|
  {
    if |cands| == 0 then 0
    else
      assert AllFit(store, cands[1..]) by {
        assert forall i :: 0 <= i < |cands| - 1 ==> cands[1..][i] == cands[i + 1];
      }
      ObservedAtSite(store, cands[0], pt, b) + ObservedInBucket(store, cands[1..], pt, b)
  }

  /** What the reads of candidate `c` show for bucket `pt`: nothing unless the
      bucket has the candidate's methylation class and a CpG offset. */
  function ObservedAtSite(store: Store, c: MethPos, pt: PosType, b: char): nat {
    if IsMethylated(c.methylation) == pt.methylation && pt.cpgPosition <= 1
    then Observed(SiteReads(store, c), c.position.pos + pt.cpgPosition, pt.direction, b)
    else 0
  }

  /** With the additive fold, every bucket count equals what the reads show. */
  lemma {:induction false} CountBasesAdditiveObserved(store: Store, cands: seq<MethPos>, pt: PosType, b: char)
    requires AllFit(store, cands)
    requires forall i :: 0 <= i < |cands| ==> cands[i].methBases == map[]
    ensures CountOr0(FoldSitesAdditive(map[], CountSites(store, cands)), pt, b)
            == ObservedInBucket(store, cands, pt, b)
  {
    var sites := CountSites(store, cands);
    AdditiveCounts(map[], sites, pt, b);
    OfferedObserved(store, cands, pt, b);
  }

  /** What one counted candidate offers to bucket `pt`. */
  lemma SiteOffered(store: Store, c: MethPos, pt: PosType, b: char)
    requires SiteFits(store, c)
    requires c.methBases == map[]
    ensures CountOr0(SiteBuckets(CountSite(store, c)), pt, b) == ObservedAtSite(store, c, pt, b)
  {
    var records := SiteReads(store, c);
    assert CountSite(store, c) == InsertReads(c, records);
    assert CountOr0(SiteBuckets(InsertReads(c, records)), pt, b) == ObservedAtSite(store, c, pt, b) by {
      RecordsOffered(c, records, pt, b);
    }
  }

  /** What one candidate offers to bucket `pt` once `records` are inserted. */
  lemma RecordsOffered(c: MethPos, records: seq<AlignedRead>, pt: PosType, b: char)
    requires |records| == 0 || c.position.pos + 1 < U32_LIMIT
    requires c.methBases == map[]
    ensures CountOr0(SiteBuckets(InsertReads(c, records)), pt, b)
            == if IsMethylated(c.methylation) == pt.methylation && pt.cpgPosition <= 1
               then Observed(records, c.position.pos + pt.cpgPosition, pt.direction, b) else 0
  {
    var s := InsertReads(c, records);
    var n := CountAt(s.methBases, (pt.direction, pt.cpgPosition), b);
    assert n == if pt.cpgPosition <= 1
                then Observed(records, c.position.pos + pt.cpgPosition, pt.direction, b) else 0 by {
      InsertReadsCounts(c, records, pt.direction, pt.cpgPosition, b);
    }
    SiteBucketCount(s, pt, b);
  }

  /** A site's bucket holds the counts of the matching tally key when the
      methylation class agrees, and nothing otherwise. */
  lemma SiteBucketCount(m: MethPos, pt: PosType, b: char)
    ensures CountOr0(SiteBuckets(m), pt, b)
            == if IsMethylated(m.methylation) == pt.methylation
               then CountAt(m.methBases, (pt.direction, pt.cpgPosition), b) else 0
  {
    var k := (pt.direction, pt.cpgPosition);
    if IsMethylated(m.methylation) == pt.methylation && k in m.methBases {
      assert pt in SiteBuckets(m);
    } else {
      assert pt !in SiteBuckets(m);
    }
  }

  /** Counting the candidates after the first gives the sites after the first. */
  lemma CountSitesTail(store: Store, cands: seq<MethPos>)
    requires |cands| > 0 && AllFit(store, cands)
    ensures AllFit(store, cands[1..])
    ensures CountSites(store, cands)[1..] == CountSites(store, cands[1..])
  {
    var rest := cands[1..];
    assert forall i :: 0 <= i < |rest| ==> rest[i] == cands[i + 1];
    var r := CountSites(store, rest);
    assert forall i :: 0 <= i < |r| ==> CountSites(store, cands)[1..][i] == r[i];
  }

  /** The first counted candidate's offer, then the rest's. */
  lemma OfferedStep(store: Store, cands: seq<MethPos>, pt: PosType, b: char)
    requires |cands| > 0 && AllFit(store, cands)
    ensures AllFit(store, cands[1..])
    ensures Offered(CountSites(store, cands), pt, b)
            == CountOr0(SiteBuckets(CountSite(store, cands[0])), pt, b) + Offered(CountSites(store, cands[1..]), pt, b)
  {
    CountSitesTail(store, cands);
  }

  lemma {:induction false} OfferedObserved(store: Store, cands: seq<MethPos>, pt: PosType, b: char)
    requires AllFit(store, cands)
    requires forall i :: 0 <= i < |cands| ==> cands[i].methBases == map[]
    ensures Offered(CountSites(store, cands), pt, b) == ObservedInBucket(store, cands, pt, b)
    decreases |cands|
  {
    if |cands| > 0 {
      OfferedStep(store, cands, pt, b);
      OfferedObserved(store, cands[1..], pt, b);
      SiteOffered(store, cands[0], pt, b);
    }
  }

  /** The corrected counting gives the same table for any order of the candidates. */
  lemma CountBasesAdditivePermutation(store: Store, c1: seq<MethPos>, c2: seq<MethPos>)
    requires AllFit(store, c1) && AllFit(store, c2)
    requires multiset(c1) == multiset(c2)
    ensures FoldSitesAdditive(map[], CountSites(store, c1)) == FoldSitesAdditive(map[], CountSites(store, c2))
  {
    CountSitesMultiset(store, c1, c2);
    FoldSitesAdditivePermutation(map[], CountSites(store, c1), CountSites(store, c2));
  }

  /** The list without its element at position `j`. */
  function RemoveAt<T>(s: seq<T>, j: nat): (r: seq<T>)
    requires j < |s|
    ensures |r| == |s| - 1
  {
    s[..j] + s[j + 1..]
  }

  /** Removing position `j` takes exactly that element out of the multiset. */
  lemma RemoveAtMultiset<T>(s: seq<T>, j: nat)
    requires j < |s|
    ensures multiset(s) == multiset(RemoveAt(s, j)) + multiset{s[j]}
  {
    assert s == s[..j] + [s[j]] + s[j + 1..];
  }

  /** Removing position `j` from a list and from its image keeps one the image of
      the other, and takes exactly the image of the removed element away. */
  lemma MapRemoveAt<A, B>(f: A -> B, s: seq<A>, t: seq<B>, j: nat)
    requires |t| == |s| && forall i :: 0 <= i < |s| ==> t[i] == f(s[i])
    requires j < |s|
    ensures |RemoveAt(t, j)| == |RemoveAt(s, j)|
    ensures forall i :: 0 <= i < |s| - 1 ==> RemoveAt(t, j)[i] == f(RemoveAt(s, j)[i])
    ensures multiset(t) == multiset(RemoveAt(t, j)) + multiset{f(s[j])}
    ensures multiset(s) == multiset(RemoveAt(s, j)) + multiset{s[j]}
  {
    forall i | 0 <= i < |s| - 1 ensures RemoveAt(t, j)[i] == f(RemoveAt(s, j)[i]) {
      if i < j {
        assert RemoveAt(t, j)[i] == t[i] && RemoveAt(s, j)[i] == s[i];
      } else {
        assert RemoveAt(t, j)[i] == t[i + 1] && RemoveAt(s, j)[i] == s[i + 1];
      }
    }
    RemoveAtMultiset(t, j);
    RemoveAtMultiset(s, j);
  }

  /** Mapping a function over two rearrangements of one list gives two
      rearrangements of one list. */
  lemma {:induction false} MapMultiset<A, B>(f: A -> B, s1: seq<A>, s2: seq<A>, t1: seq<B>, t2: seq<B>)
    requires multiset(s1) == multiset(s2)
    requires |t1| == |s1| && forall i :: 0 <= i < |s1| ==> t1[i] == f(s1[i])
    requires |t2| == |s2| && forall i :: 0 <= i < |s2| ==> t2[i] == f(s2[i])
    ensures multiset(t1) == multiset(t2)
    decreases |s1|
  {
    if |s1| == 0 {
      assert |s2| == |multiset(s2)| == 0;
    } else {
      var n := |s1| - 1;
      var x := s1[n];
      assert x in multiset(s2);
      var j :| 0 <= j < |s2| && s2[j] == x;
      MapRemoveAt(f, s1, t1, n);
      MapRemoveAt(f, s2, t2, j);
      calc {
        multiset(RemoveAt(s1, n));
        multiset(s1) - multiset{x};
        multiset(s2) - multiset{x};
        multiset(RemoveAt(s2, j));
      }
      MapMultiset(f, RemoveAt(s1, n), RemoveAt(s2, j), RemoveAt(t1, n), RemoveAt(t2, j));
    }
  }

  /** Counting is site by site, so rearranging candidates rearranges the sites. */
  lemma CountSitesMultiset(store: Store, c1: seq<MethPos>, c2: seq<MethPos>)
    requires AllFit(store, c1) && AllFit(store, c2)
    requires multiset(c1) == multiset(c2)
    ensures multiset(CountSites(store, c1)) == multiset(CountSites(store, c2))
  {
    var f := (m: MethPos) => if SiteFits(store, m) then CountSite(store, m) else m;
    MapMultiset(f, c1, c2, CountSites(store, c1), CountSites(store, c2));
  }
}
