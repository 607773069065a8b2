/** The live counting path (src/find_bases.rs): parse the bedGraph into candidate
    sites, tally the bases the records show at each site, fold every site's tally into
    the eight-bucket table, and render that table as CSV lines.

    The alignment store is abstract: a set of known chromosome names and a fetch
    function from a chromosome and a half-open reference window to the records that
    overlap it. A read's CIGAR walk is given as a finished map from reference
    coordinate to read coordinate. */
module FindBases {
  import opened Wrappers
  import opened Text
  import opened Utils

  // ---------------------------------------------------------------------------
  // bedGraph parsing (process_bedgraph_data)
  // ---------------------------------------------------------------------------

  datatype ParseError = InvalidPosition | InvalidMethylation

  function Fields(line: string): (f: seq<string>)
    ensures |f| >= 1
  {
    Split(line, '\t')
  }

  predicate IsTrackLine(line: string) {
    StartsWith(line, "track")
  }

  /** The position field read as a `usize` and then cast `as u32`, which keeps the
      low 32 bits. */
  function ParsePosition(field: string): (r: Option<U32>)
    ensures r.Some? <==> ParseUnsigned(field, USIZE_LIMIT).Some?
    ensures r.Some? ==> r.value == ParseUnsigned(field, USIZE_LIMIT).value % U32_LIMIT
  {
    match ParseUnsigned(field, USIZE_LIMIT)
    case None => None
    case Some(v) => Some(v % U32_LIMIT)
  }

  /** The lines in file order, minus the "track" header lines. */
  function NonTrackLines(lines: seq<string>): (r: seq<string>)
    ensures |r| <= |lines|
    ensures forall l :: l in r <==> l in lines && !IsTrackLine(l)
  {
    if |lines| == 0 then []
    else if IsTrackLine(lines[0]) then NonTrackLines(lines[1..])
    else [lines[0]] + NonTrackLines(lines[1..])
  }

  /** A single line is dropped exactly when it is a "track" line. */
  lemma NonTrackLinesSingle(l: string)
    ensures NonTrackLines([l]) == if IsTrackLine(l) then [] else [l]
  {
  }

  /** Skipping header lines is line by line: the lines kept from a concatenation
      are the lines kept from each part, in the same order. */
  lemma {:induction false} NonTrackLinesAppend(a: seq<string>, b: seq<string>)
    ensures NonTrackLines(a + b) == NonTrackLines(a) + NonTrackLines(b)
    decreases |a|
  {
    if |a| == 0 {
      assert a + b == b;
    } else {
      assert (a + b)[0] == a[0];
      assert (a + b)[1..] == a[1..] + b;
      NonTrackLinesAppend(a[1..], b);
    }
  }

  /** Indexing a missing field panics; a failed `?` parse returns early. A
      non-header line avoids a panic when it has field 1, and field 3 too once
      field 1 has parsed. `parseMeth` stands for `parse::<f64>()` followed by
      `round() as i64`. */
  predicate LineNoPanic(line: string) {
    var f := Fields(line);
    |f| >= 2 && (ParsePosition(f[1]).None? || |f| >= 4)
  }

  /** A non-header line makes the whole file fail when a numeric field does not parse. */
  predicate LineFails(line: string, parseMeth: string -> Option<int>) {
    var f := Fields(line);
    |f| < 4 || ParsePosition(f[1]).None? || parseMeth(f[3]).None?
  }

  /** What a successfully read line means: one leading "chr" dropped from field 0,
      the position from field 1, the methylation from field 3, nothing counted yet. */
  predicate SiteOfLine(line: string, m: MethPos, parseMeth: string -> Option<int>) {
    var f := Fields(line);
    && |f| >= 4
    && m.position.chrom == StripPrefix(f[0], "chr")
    && ParsePosition(f[1]) == Some(m.position.pos)
    && parseMeth(f[3]) == Some(m.methylation)
    && m.methBases == map[]
  }

  /** The body of the loop in `process_bedgraph_data` for one non-header line. */
  function ParseLine(line: string, parseMeth: string -> Option<int>): (r: Result<MethPos, ParseError>)
    requires LineNoPanic(line)
    ensures r.Err? <==> LineFails(line, parseMeth)
    ensures r.Ok? ==> SiteOfLine(line, r.value, parseMeth)
  {
    var f := Fields(line);
    match ParsePosition(f[1])
    case None => Err(InvalidPosition)
    case Some(pos) =>
      match parseMeth(f[3])
      case None => Err(InvalidMethylation)
      case Some(methylation) =>
        Ok(NewMethPos(NewPosition(StripPrefix(f[0], "chr"), pos), methylation))
  }

  /** Every non-header line reached before the first parse error is free of panics. */
  predicate SitesNoPanic(ls: seq<string>, parseMeth: string -> Option<int>)
    decreases |ls|
  {
    if |ls| == 0 then true
    else LineNoPanic(ls[0]) && (ParseLine(ls[0], parseMeth).Err? || SitesNoPanic(ls[1..], parseMeth))
  }

  predicate BedgraphNoPanic(lines: seq<string>, parseMeth: string -> Option<int>) {
    SitesNoPanic(NonTrackLines(lines), parseMeth)
  }

  /** The loop of `process_bedgraph_data` over the non-header lines, stopping at
      the first line whose numbers do not parse. */
  function ParseSites(ls: seq<string>, parseMeth: string -> Option<int>)
    : (r: Result<seq<MethPos>, ParseError>)
    requires SitesNoPanic(ls, parseMeth)
    ensures r.Ok? ==> |r.value| == |ls|
    ensures r.Ok? ==> forall j :: 0 <= j < |r.value| ==> SiteOfLine(ls[j], r.value[j], parseMeth)
    ensures r.Err? <==> exists j :: 0 <= j < |ls| && LineFails(ls[j], parseMeth)
    decreases |ls|
  {
    if |ls| == 0 then Ok([])
    else
      match ParseLine(ls[0], parseMeth)
      case Err(e) => Err(e)
      case Ok(m) =>
        var rest := ParseSites(ls[1..], parseMeth);
        assert forall j :: 1 <= j < |ls| ==> ls[j] == ls[1..][j - 1];
        match rest
        case Err(e) => Err(e)
        case Ok(tail) => Ok([m] + tail)
  }

  /** `process_bedgraph_data`, on the file's lines: header lines are skipped. */
  function ProcessBedgraphData(lines: seq<string>, parseMeth: string -> Option<int>)
    : (r: Result<seq<MethPos>, ParseError>)
    requires BedgraphNoPanic(lines, parseMeth)
    ensures r.Ok? ==> |r.value| == |NonTrackLines(lines)|
    ensures r.Ok? ==> forall j :: 0 <= j < |r.value| ==>
                        SiteOfLine(NonTrackLines(lines)[j], r.value[j], parseMeth)
    ensures r.Err? <==> exists j :: 0 <= j < |NonTrackLines(lines)| &&
                                     LineFails(NonTrackLines(lines)[j], parseMeth)
  {
    var ls := NonTrackLines(lines);
    var r := ParseSites(ls, parseMeth);
    assert r.Err? <==> exists j :: 0 <= j < |ls| && LineFails(ls[j], parseMeth);
    assert ls == NonTrackLines(lines);
    r
  }

  // ---------------------------------------------------------------------------
  // Reads and the alignment store
  // ---------------------------------------------------------------------------

  /** An aligned read: its flags, its decoded bases, and the CIGAR walk's answer
      for every reference coordinate that falls on a match (`read_pos` without
      soft clips or deletions). Uncovered coordinates are absent from the map. */
  datatype Read = Read(paired: bool, reverse: bool, firstInTemplate: bool,
                       bases: string, refToRead: map<nat, nat>)
  {
    predicate WellFormed() {
      forall p :: p in refToRead ==> refToRead[p] < |bases|
    }
  }

  /** Reads whose coordinate map points inside their sequence, so decoding the
      base there is always defined. */
  type AlignedRead = r: Read | r.WellFormed() witness Read(false, false, false, [], map[])

  /** The indexed BAM file: the chromosome names of its header, and the records
      overlapping a half-open window `[start, end)` of a chromosome. */
  datatype Store = Store(chroms: set<string>, fetch: (string, int, int) -> seq<AlignedRead>)

  // ---------------------------------------------------------------------------
  // Strand classification and per-read counting
  // ---------------------------------------------------------------------------

  /** `read_reverse_orientation`: a paired read is reverse when its reverse flag
      equals its first-in-template flag; an unpaired read when its reverse flag is set. */
  function ReadReverseOrientation(read: Read): (b: bool)
    ensures read.paired ==> (b <==> read.reverse == read.firstInTemplate)
    ensures !read.paired ==> (b <==> read.reverse)
  {
    if read.paired then
      (read.reverse && read.firstInTemplate) || (!read.reverse && !read.firstInTemplate)
    else read.reverse
  }

  function ReadDirection(read: Read): Direction {
    if ReadReverseOrientation(read) then Reverse else Forward
  }

  /** How often base `b` was counted under key `k`; absent entries count 0. */
  function CountAt(t: Tally, k: TallyKey, b: char): nat {
    if k in t && b in t[k] then t[k][b] else 0
  }

  /** Whether inserting `read` at `offset` counts base `b` under key `k`: the read
      covers `pos + offset`, `k` is (read direction, offset) and `b` is the base
      the read shows there. */
  predicate Hit(read: AlignedRead, m: MethPos, offset: U32, k: TallyKey, b: char) {
    var refPos := m.position.pos + offset;
    && refPos in read.refToRead
    && k == (ReadDirection(read), offset)
    && b == read.bases[read.refToRead[refPos]]
  }

  /** `insert_bases`: if the read covers reference coordinate `pos + offset`, count
      the base it shows there under (read direction, offset); otherwise nothing
      changes. The u32 addition panics on overflow, hence the precondition. */
  function InsertBases(read: AlignedRead, m: MethPos, offset: U32): (m': MethPos)
    requires m.position.pos + offset < U32_LIMIT
    ensures m'.position == m.position && m'.methylation == m.methylation
    ensures m.position.pos + offset !in read.refToRead ==> m' == m
    ensures m'.methBases.Keys == m.methBases.Keys
              + (if m.position.pos + offset in read.refToRead then {(ReadDirection(read), offset)} else {})
    ensures forall k, b :: CountAt(m'.methBases, k, b)
                           == CountAt(m.methBases, k, b) + (if Hit(read, m, offset, k, b) then 1 else 0)
    ensures forall k :: k in m.methBases && k != (ReadDirection(read), offset) ==>
              m'.methBases[k] == m.methBases[k]
  {
    var refPos := m.position.pos + offset;
    if refPos in read.refToRead then
      var base := read.bases[read.refToRead[refPos]];
      var key := (ReadDirection(read), offset);
      var counts := if key in m.methBases then m.methBases[key] else map[];
      var n := if base in counts then counts[base] + 1 else 1;
      WithMethBases(m, m.methBases[key := counts[base := n]])
    else m
  }

  /** Every fetched read offered to `insert_bases` at offsets 0 and 1, in fetch order.
      The addition `pos + 1` runs once per record, so with no records it never runs. */
  function InsertReads(m: MethPos, records: seq<AlignedRead>): (m': MethPos)
    requires |records| == 0 || m.position.pos + 1 < U32_LIMIT
    ensures m'.position == m.position && m'.methylation == m.methylation
    ensures forall k :: k in m'.methBases ==> k in m.methBases || k.1 <= 1
    decreases |records|
  {
    if |records| == 0 then m
    else
      var last := records[|records| - 1];
      InsertBases(last, InsertBases(last, InsertReads(m, records[..|records| - 1]), 0), 1)
  }

  /** Reference count: how many of `records` have direction `d`, cover reference
      coordinate `refPos`, and show base `b` there. */
  function Observed(records: seq<AlignedRead>, refPos: nat, d: Direction, b: char): nat
    decreases |records|
  {
    if |records| == 0 then 0
    else
      var r := records[|records| - 1];
      Observed(records[..|records| - 1], refPos, d, b)
        + (if ReadDirection(r) == d && refPos in r.refToRead && r.bases[r.refToRead[refPos]] == b
           then 1 else 0)
  }

  /** After the records are inserted, each (direction, offset 0 or 1, base) count has
      grown by exactly the number of records of that direction that show that base at
      `pos + offset`; counts under any other offset are untouched. */
  lemma {:induction false} InsertReadsCounts(m: MethPos, records: seq<AlignedRead>,
                                             d: Direction, offset: U32, b: char)
    requires |records| == 0 || m.position.pos + 1 < U32_LIMIT
    ensures CountAt(InsertReads(m, records).methBases, (d, offset), b)
            == CountAt(m.methBases, (d, offset), b)
               + (if offset <= 1 then Observed(records, m.position.pos + offset, d, b) else 0)
    decreases |records|
  {
    if |records| > 0 {
      var prev := records[..|records| - 1];
      var last := records[|records| - 1];
      var m0 := InsertReads(m, prev);
      assert InsertReads(m, records) == InsertBases(last, InsertBases(last, m0, 0), 1);
      InsertReadsCounts(m, prev, d, offset, b);
      InsertPairCounts(last, m0, d, offset, b);
    }
  }

  /** One read inserted at offsets 0 and 1 adds one to the count of the base it
      shows at `pos + offset`, under its own direction, and nothing else. */
  lemma InsertPairCounts(read: AlignedRead, m: MethPos, d: Direction, offset: U32, b: char)
    requires m.position.pos + 1 < U32_LIMIT
    ensures CountAt(InsertBases(read, InsertBases(read, m, 0), 1).methBases, (d, offset), b)
            == CountAt(m.methBases, (d, offset), b)
               + (if && offset <= 1 && ReadDirection(read) == d
                     && m.position.pos + offset in read.refToRead
                     && read.bases[read.refToRead[m.position.pos + offset]] == b
                  then 1 else 0)
  {
    var m1 := InsertBases(read, m, 0);
    assert Hit(read, m, 0, (d, offset), b) <==>
      offset == 0 && ReadDirection(read) == d && m.position.pos in read.refToRead
      && read.bases[read.refToRead[m.position.pos]] == b;
    assert Hit(read, m1, 1, (d, offset), b) <==>
      offset == 1 && ReadDirection(read) == d && m.position.pos + 1 in read.refToRead
      && read.bases[read.refToRead[m.position.pos + 1]] == b;
  }

  /** Observations are additive over a split of the read list. */
  lemma {:induction false} ObservedAppend(a: seq<AlignedRead>, c: seq<AlignedRead>,
                                          refPos: nat, d: Direction, b: char)
    ensures Observed(a + c, refPos, d, b) == Observed(a, refPos, d, b) + Observed(c, refPos, d, b)
    decreases |c|
  {
    if |c| == 0 {
      assert a + c == a;
    } else {
      assert (a + c)[..|a + c| - 1] == a + c[..|c| - 1];
      assert (a + c)[|a + c| - 1] == c[|c| - 1];
      ObservedAppend(a, c[..|c| - 1], refPos, d, b);
    }
  }

  // ---------------------------------------------------------------------------
  // Per-site counting against the store
  // ---------------------------------------------------------------------------

  /** A candidate's records: those the store returns for the window `[pos, pos + 1)`. */
  function SiteReads(store: Store, m: MethPos): seq<AlignedRead> {
    store.fetch(m.position.chrom, m.position.pos, m.position.pos + 1)
  }

  /** Counting a candidate does not overflow: either the store returns no records
      for it, so `pos + 1` is never computed, or its coordinate leaves room for
      offset 1 inside `u32`. */
  predicate SiteFits(store: Store, m: MethPos) {
    |SiteReads(store, m)| == 0 || m.position.pos + 1 < U32_LIMIT
  }

  /** The candidate after all its records have been counted. */
  function CountSite(store: Store, m: MethPos): MethPos
    requires SiteFits(store, m)
  {
    InsertReads(m, SiteReads(store, m))
  }

  /** Counting any of the candidates does not overflow. */
  predicate AllFit(store: Store, cands: seq<MethPos>) {
    forall i :: 0 <= i < |cands| ==> SiteFits(store, cands[i])
  }

  /** Every candidate's chromosome is named in the store's header. */
  predicate ChromsKnown(store: Store, cands: seq<MethPos>) {
    forall i :: 0 <= i < |cands| ==> cands[i].position.chrom in store.chroms
  }

  /** The candidates after counting, in order. */
  function CountSites(store: Store, cands: seq<MethPos>): (r: seq<MethPos>)
    requires AllFit(store, cands)
    ensures |r| == |cands|
    ensures forall i :: 0 <= i < |r| ==> r[i] == CountSite(store, cands[i])
    decreases |cands|
  {
    if |cands| == 0 then []
    else CountSites(store, cands[..|cands| - 1]) + [CountSite(store, cands[|cands| - 1])]
  }

  // ---------------------------------------------------------------------------
  // Folding a site's tally into the global table
  // ---------------------------------------------------------------------------

  /** The global table: counts per bucket. */
  type Table = map<PosType, Counts>

  /** A site is methylated when its level is strictly above 20. */
  const METHYLATION_THRESHOLD: int := 20

  predicate IsMethylated(methylation: int) {
    methylation > METHYLATION_THRESHOLD
  }

  /** The bucket a tally entry of site `m` goes to. */
  function BucketOf(m: MethPos, k: TallyKey): PosType {
    PosType(k.0, IsMethylated(m.methylation), k.1)
  }

  /** The buckets that the tally keys in `keys` of site `m` go to. A bucket is in
      the set exactly when it carries the site's methylation flag and its
      (direction, offset) is one of the keys, so distinct keys never share a bucket. */
  function BucketSet(m: MethPos, keys: set<TallyKey>): (bs: set<PosType>)
    ensures forall pt: PosType :: pt in bs <==>
      pt.methylation == IsMethylated(m.methylation) && (pt.direction, pt.cpgPosition) in keys
  {
    var bs := set k | k in keys :: BucketOf(m, k);
    assert forall pt: PosType :: pt.methylation == IsMethylated(m.methylation) ==>
      pt == BucketOf(m, (pt.direction, pt.cpgPosition));
    bs
  }

  /** A site's tally re-keyed by bucket: nothing is merged or lost. */
  function SiteBuckets(m: MethPos): (sb: Table)
    ensures sb.Keys == BucketSet(m, m.methBases.Keys)
    ensures forall pt :: pt in sb ==> sb[pt] == m.methBases[(pt.direction, pt.cpgPosition)]
  {
    map pt | pt in BucketSet(m, m.methBases.Keys) :: m.methBases[(pt.direction, pt.cpgPosition)]
  }

  /** Base-wise sum of two count maps; a base missing on one side counts 0. */
  function MergeCounts(existing: Counts, value: Counts): (r: Counts)
    ensures r.Keys == existing.Keys + value.Keys
    ensures forall b :: Get(r, b) == Get(existing, b) + Get(value, b)
  {
    map b | b in existing.Keys + value.Keys :: Get(existing, b) + Get(value, b)
  }

  /** The inner loop `for (base, count) in value { *entry(base).or_insert(0) += count }`,
      visiting the bases in the order `order`. */
  function AddEntries(existing: Counts, value: Counts, order: seq<char>): Counts
    requires forall i :: 0 <= i < |order| ==> order[i] in value
    decreases |order|
  {
    if |order| == 0 then existing
    else
      var b := order[0];
      AddEntries(existing[b := Get(existing, b) + value[b]], value, order[1..])
  }

  predicate Distinct<T(==)>(s: seq<T>) {
    forall i, j :: 0 <= i < j < |s| ==> s[i] != s[j]
  }

  lemma {:induction false} AddEntriesPartial(existing: Counts, value: Counts, order: seq<char>)
    requires Distinct(order)
    requires forall i :: 0 <= i < |order| ==> order[i] in value
    ensures AddEntries(existing, value, order).Keys == existing.Keys + (set c | c in order)
    ensures forall c :: Get(AddEntries(existing, value, order), c)
                        == Get(existing, c) + (if c in order then value[c] else 0)
    decreases |order|
  {
    if |order| == 0 {
      assert (set c | c in order) == {};
    } else {
      var b := order[0];
      var rest := order[1..];
      var e' := existing[b := Get(existing, b) + value[b]];
      AddEntriesPartial(e', value, rest);
      assert b !in rest by {
        forall i | 0 <= i < |rest| ensures rest[i] != b {
          assert rest[i] == order[i + 1];
        }
      }
      assert forall c :: c in order <==> c == b || c in rest;
      assert (set c | c in order) == (set c | c in rest) + {b};
    }
  }

  /** Whatever order the map yields its bases in, the inner loop adds `value` into
      `existing` base by base. */
  lemma AddEntriesAnyOrder(existing: Counts, value: Counts, order: seq<char>)
    requires Distinct(order)
    requires forall b :: b in value <==> b in order
    ensures AddEntries(existing, value, order) == MergeCounts(existing, value)
  {
    AddEntriesPartial(existing, value, order);
    var r := AddEntries(existing, value, order);
    var mc := MergeCounts(existing, value);
    assert (set c | c in order) == value.Keys;
    forall c | c in r ensures r[c] == mc[c] {
      assert Get(r, c) == Get(mc, c);
    }
  }

  /** `position_counts.entry(pt).and_modify(add counts).or_insert_with(HashMap::new)`:
      an existing bucket receives the counts; a missing one is created EMPTY and the
      counts offered with it are discarded. */
  function FoldBucket(table: Table, pt: PosType, counts: Counts): (r: Table)
    ensures r.Keys == table.Keys + {pt}
    ensures pt in table ==> r[pt] == MergeCounts(table[pt], counts)
    ensures pt !in table ==> r[pt] == map[]
    ensures forall q :: q in table && q != pt ==> r[q] == table[q]
  {
    if pt in table then table[pt := MergeCounts(table[pt], counts)] else table[pt := map[]]
  }

  /** The loop over `meth_bases().iter()` when the map yields its keys in `order`. */
  function FoldSiteInOrder(table: Table, m: MethPos, order: seq<TallyKey>): Table
    requires forall i :: 0 <= i < |order| ==> order[i] in m.methBases
    decreases |order|
  {
    if |order| == 0 then table
    else
      var k := order[0];
      FoldSiteInOrder(FoldBucket(table, BucketOf(m, k), m.methBases[k]), m, order[1..])
  }

  /** The site's tally keys in `keys` folded in, stated without an iteration order. */
  function FoldSiteOn(table: Table, m: MethPos, keys: set<TallyKey>): (r: Table)
    requires keys <= m.methBases.Keys
    ensures r.Keys == table.Keys + BucketSet(m, keys)
  {
    var buckets := BucketSet(m, keys);
    map pt | pt in table.Keys + buckets ::
      if pt !in table then map[]
      else if pt in buckets then MergeCounts(table[pt], m.methBases[(pt.direction, pt.cpgPosition)])
      else table[pt]
  }

  /** One site folded into the table: a bucket already present receives the site's
      counts, a bucket the site reaches for the first time appears EMPTY, and every
      other bucket is unchanged. */
  function FoldSite(table: Table, m: MethPos): (r: Table)
    ensures r.Keys == table.Keys + SiteBuckets(m).Keys
    ensures forall pt :: pt in table && pt in SiteBuckets(m) ==>
              r[pt] == MergeCounts(table[pt], SiteBuckets(m)[pt])
    ensures forall pt :: pt in table && pt !in SiteBuckets(m) ==> r[pt] == table[pt]
    ensures forall pt :: pt !in table && pt in SiteBuckets(m) ==> r[pt] == map[]
  {
    FoldSiteOn(table, m, m.methBases.Keys)
  }

  /** Within one site the iteration order over `meth_bases` does not matter: distinct
      (direction, offset) keys land in distinct buckets, so every order folds the
      site in the same way. */
  lemma FoldSiteAnyOrder(table: Table, m: MethPos, order: seq<TallyKey>)
    requires Distinct(order)
    requires forall k :: k in m.methBases <==> k in order
    ensures FoldSiteInOrder(table, m, order) == FoldSite(table, m)
  {
    FoldSiteInOrderPartial(table, m, order);
    assert (set k | k in order) == m.methBases.Keys;
  }

  lemma {:induction false} FoldSiteInOrderPartial(table: Table, m: MethPos, order: seq<TallyKey>)
    requires Distinct(order)
    requires forall i :: 0 <= i < |order| ==> order[i] in m.methBases
    ensures FoldSiteInOrder(table, m, order) == FoldSiteOn(table, m, set k | k in order)
    decreases |order|
  {
    var keys := set k | k in order;
    if |order| == 0 {
      assert keys == {};
      assert BucketSet(m, keys) == {};
    } else {
      var k := order[0];
      var rest := order[1..];
      var keys' := set j | j in rest;
      assert k !in keys' by {
        forall i | 0 <= i < |rest| ensures rest[i] != k {
          assert rest[i] == order[i + 1];
        }
      }
      assert keys == keys' + {k};
      var t1 := FoldBucket(table, BucketOf(m, k), m.methBases[k]);
      FoldSiteInOrderPartial(t1, m, rest);
      FoldSiteOnStep(table, m, k, keys');
    }
  }

  /** Folding one key's bucket first and the remaining keys after it is the same as
      folding them all at once, because the key's bucket is not reached again. */
  lemma FoldSiteOnStep(table: Table, m: MethPos, k: TallyKey, keys: set<TallyKey>)
    requires k in m.methBases && keys <= m.methBases.Keys && k !in keys
    ensures FoldSiteOn(FoldBucket(table, BucketOf(m, k), m.methBases[k]), m, keys)
            == FoldSiteOn(table, m, keys + {k})
  {
    var pk := BucketOf(m, k);
    var t1 := FoldBucket(table, pk, m.methBases[k]);
    var lhs := FoldSiteOn(t1, m, keys);
    var rhs := FoldSiteOn(table, m, keys + {k});
    assert (pk.direction, pk.cpgPosition) == k;
    assert pk !in BucketSet(m, keys);
    assert pk in BucketSet(m, keys + {k});
    assert BucketSet(m, keys + {k}) == BucketSet(m, keys) + {pk};
    assert lhs.Keys == rhs.Keys;
    forall pt | pt in lhs.Keys
      ensures lhs[pt] == rhs[pt]
    {
      if pt == pk {
        assert lhs[pt] == t1[pt];
      } else if pt in BucketSet(m, keys) {
        assert pt in BucketSet(m, keys + {k});
      } else {
        assert pt !in BucketSet(m, keys + {k});
      }
    }
  }

  /** The sites folded in one after another, first to last. */
  function FoldSites(table: Table, sites: seq<MethPos>): (r: Table)
    decreases |sites|
  {
    if |sites| == 0 then table else FoldSites(FoldSite(table, sites[0]), sites[1..])
  }

  lemma {:induction false} FoldSitesSnoc(table: Table, sites: seq<MethPos>, m: MethPos)
    ensures FoldSites(table, sites + [m]) == FoldSite(FoldSites(table, sites), m)
    decreases |sites|
  {
    if |sites| == 0 {
      assert sites + [m] == [m];
    } else {
      assert (sites + [m])[1..] == sites[1..] + [m];
      FoldSitesSnoc(FoldSite(table, sites[0]), sites[1..], m);
    }
  }

  // ---------------------------------------------------------------------------
  // count_bases_in_reads
  // ---------------------------------------------------------------------------

  /** `tid` fails for a chromosome missing from the BAM header; the whole call fails. */
  datatype CountError = ChromosomeNotFound(chrom: string)

  /** The u32 addition `pos + offset` must not overflow for any candidate the loop
      reaches, i.e. every candidate up to the first unknown chromosome whose fetch
      returns records. */
  predicate ReachedFit(store: Store, cands: seq<MethPos>) {
    AllFit(store, cands[..KnownPrefix(store, cands)])
  }

  /** The length of the longest prefix whose chromosomes the store knows. */
  function KnownPrefix(store: Store, cands: seq<MethPos>): (n: nat)
    ensures n <= |cands| && ChromsKnown(store, cands[..n])
    ensures n < |cands| ==> cands[n].position.chrom !in store.chroms
    decreases |cands|
  {
    if |cands| == 0 || cands[0].position.chrom !in store.chroms then 0
    else
      var n := 1 + KnownPrefix(store, cands[1..]);
      assert forall j :: 1 <= j < n ==> cands[..n][j] == cands[1..][..n - 1][j - 1];
      n
  }

  /** Every bucket of the table has CpG offset 0 or 1. */
  predicate CpGOffsetsOnly(table: Table) {
    forall pt :: pt in table ==> pt.cpgPosition <= 1
  }

  /** Folding in a site whose tally only uses offsets 0 and 1 keeps the table to the
      eight CpG buckets. */
  lemma FoldSiteKeepsOffsets(table: Table, m: MethPos)
    requires CpGOffsetsOnly(table)
    requires forall k :: k in m.methBases ==> k.1 <= 1
    ensures CpGOffsetsOnly(FoldSite(table, m))
  {
  }

  /** Counting fresh candidates only ever creates the eight CpG buckets. */
  lemma {:induction false} CountedOffsets(store: Store, cands: seq<MethPos>)
    requires AllFit(store, cands)
    requires forall i :: 0 <= i < |cands| ==> cands[i].methBases == map[]
    ensures CpGOffsetsOnly(FoldSites(map[], CountSites(store, cands)))
    decreases |cands|
  {
    if |cands| > 0 {
      var init := cands[..|cands| - 1];
      var last := cands[|cands| - 1];
      assert AllFit(store, init) by {
        assert forall j :: 0 <= j < |init| ==> init[j] == cands[j];
      }
      CountedOffsets(store, init);
      assert CountSites(store, cands) == CountSites(store, init) + [CountSite(store, last)];
      FoldSitesSnoc(map[], CountSites(store, init), CountSite(store, last));
      FoldSiteKeepsOffsets(FoldSites(map[], CountSites(store, init)), CountSite(store, last));
    }
  }

  /** The inner loop of `count_bases_in_reads` over the fetched records. */
  method CountSiteRecords(m: MethPos, records: seq<AlignedRead>) returns (site: MethPos)
    requires |records| == 0 || m.position.pos + 1 < U32_LIMIT
    ensures site == InsertReads(m, records)
  {
    site := m;
    var j := 0;
    while j < |records|
      invariant 0 <= j <= |records|
      invariant site == InsertReads(m, records[..j])
    {
      assert records[..j + 1][..j] == records[..j];
      site := InsertBases(records[j], site, 0);
      site := InsertBases(records[j], site, 1);
      j := j + 1;
    }
    assert records[..j] == records;
  }

  /** One more candidate with a known chromosome extends the processed prefix. */
  lemma PrefixStep(store: Store, cands: seq<MethPos>, i: nat)
    requires i < |cands| && ReachedFit(store, cands)
    requires ChromsKnown(store, cands[..i]) && AllFit(store, cands[..i])
    requires cands[i].position.chrom in store.chroms
    ensures ChromsKnown(store, cands[..i + 1]) && AllFit(store, cands[..i + 1])
    ensures CountSites(store, cands[..i + 1]) == CountSites(store, cands[..i]) + [CountSite(store, cands[i])]
  {
    var prefix := cands[..i + 1];
    assert prefix[..i] == cands[..i];
    assert forall j :: 0 <= j < i ==> prefix[j] == cands[..i][j];
    var n := KnownPrefix(store, cands);
    assert cands[i] == cands[..n][i];
  }

  /** `count_bases_in_reads`: for each candidate in order, resolve the chromosome,
      fetch the reads over `[pos, pos + 1)`, count offsets 0 and 1 of every read,
      and fold the site into the table. */
  method CountBasesInReads(store: Store, cands: seq<MethPos>) returns (r: Result<Table, CountError>)
    requires ReachedFit(store, cands)
    ensures r.Err? <==> !ChromsKnown(store, cands)
    ensures r.Err? ==> exists i :: 0 <= i < |cands| && ChromsKnown(store, cands[..i])
                                   && cands[i].position.chrom !in store.chroms
                                   && r.error == ChromosomeNotFound(cands[i].position.chrom)
    ensures r.Ok? ==> AllFit(store, cands) && r.value == FoldSites(map[], CountSites(store, cands))
    ensures r.Ok? && (forall i :: 0 <= i < |cands| ==> cands[i].methBases == map[]) ==>
              CpGOffsetsOnly(r.value)
  {
    var table: Table := map[];
    var i := 0;
    while i < |cands|
      invariant 0 <= i <= |cands|
      invariant ChromsKnown(store, cands[..i])
      invariant AllFit(store, cands[..i])
      invariant table == FoldSites(map[], CountSites(store, cands[..i]))
    {
      var m := cands[i];
      if m.position.chrom !in store.chroms {
        assert ChromsKnown(store, cands[..i]) && cands[i].position.chrom !in store.chroms;
        return Err(ChromosomeNotFound(m.position.chrom));
      }
      PrefixStep(store, cands, i);
      var site := CountSiteRecords(m, SiteReads(store, m));
      assert site == CountSite(store, cands[i]);
      FoldSitesSnoc(map[], CountSites(store, cands[..i]), site);
      table := FoldSite(table, site);
      i := i + 1;
    }
    assert cands[..i] == cands;
    if forall j :: 0 <= j < |cands| ==> cands[j].methBases == map[] {
      CountedOffsets(store, cands);
    }
    return Ok(table);
  }

  // ---------------------------------------------------------------------------
  // write_assigned_bases: the eight CSV lines
  // ---------------------------------------------------------------------------

  /** The bases reported per line, in column order. */
  const ReportBases: seq<char> := ['A', 'C', 'G', 'T', 'N']

  /** A bucket's count of base `b`; a missing bucket or base records as 0. */
  function CountOr0(table: Table, pt: PosType, b: char): nat {
    if pt in table && b in table[pt] then table[pt][b] else 0
  }

  function BoolStr(b: bool): string {
    if b then "true" else "false"
  }

  /** The reference base of the CpG offset: "C" for 0 and "G" for 1. The source's
      fallback arm panics, but only offsets 0 and 1 are rendered. */
  function OrigBase(cpg: U32): string
    requires cpg <= 1
  {
    if cpg == 0 then "C" else "G"
  }

  /** A bucket's five counts in column order A, C, G, T, N. */
  function ReportCounts(table: Table, pt: PosType): (c: seq<nat>)
    ensures |c| == |ReportBases| && forall j :: 0 <= j < |c| ==> c[j] == CountOr0(table, pt, ReportBases[j])
  {
    [CountOr0(table, pt, 'A'), CountOr0(table, pt, 'C'), CountOr0(table, pt, 'G'),
     CountOr0(table, pt, 'T'), CountOr0(table, pt, 'N')]
  }

  /** The comma-separated fields of one report line. */
  function ReportFields(table: Table, pt: PosType): seq<string>
    requires pt.cpgPosition <= 1
  {
    var c := ReportCounts(table, pt);
    [BoolStr(pt.methylation), pt.direction.AsStr(), OrigBase(pt.cpgPosition),
     NatToString(c[0]), NatToString(c[1]), NatToString(c[2]), NatToString(c[3]), NatToString(c[4])]
  }

  /** One report line: `meth,direction,C|G,A,C,G,T,N`. */
  function RenderLine(table: Table, pt: PosType): string
    requires pt.cpgPosition <= 1
  {
    Join(ReportFields(table, pt), ',')
  }

  /** The innermost loop: offsets 0 and 1 of one direction and methylation class. */
  function OffsetLoop(d: Direction, meth: bool): seq<PosType> {
    [PosType(d, meth, 0), PosType(d, meth, 1)]
  }

  /** The middle loop: methylated first, then unmethylated. */
  function MethylationLoop(d: Direction): seq<PosType> {
    OffsetLoop(d, true) + OffsetLoop(d, false)
  }

  /** The buckets in the order the three nested loops over direction, methylation
      and offset visit them: the order of the eight listed buckets. */
  function LoopOrder(): (pts: seq<PosType>)
    ensures pts == AllPosTypes
  {
    MethylationLoop(Forward) + MethylationLoop(Reverse)
  }

  /** `write_assigned_bases`: one line per bucket, in loop order. */
  function WriteAssignedBases(table: Table): (lines: seq<string>)
    ensures |lines| == |AllPosTypes|
    ensures forall i :: 0 <= i < |AllPosTypes| ==> lines[i] == RenderLine(table, AllPosTypes[i])
  {
    var pts := LoopOrder();
    seq(|pts|, i requires 0 <= i < |pts| => RenderLine(table, pts[i]))
  }

  function ParseBool(s: string): Option<bool> {
    if s == "true" then Some(true) else if s == "false" then Some(false) else None
  }

  function ParseDirection(s: string): Option<Direction> {
    if s == "forward" then Some(Forward) else if s == "reverse" then Some(Reverse) else None
  }

  function ParseOrigBase(s: string): Option<U32> {
    if s == "C" then Some(0) else if s == "G" then Some(1) else None
  }

  /** A reader for report lines: the bucket a line names and its five counts. */
  function ReadReportLine(line: string): Option<(PosType, seq<nat>)> {
    var f := Split(line, ',');
    if |f| != 8 then None
    else
      match (ParseBool(f[0]), ParseDirection(f[1]), ParseOrigBase(f[2]))
      case (Some(meth), Some(dir), Some(cpg)) =>
        (match (ParseDecimal(f[3]), ParseDecimal(f[4]), ParseDecimal(f[5]), ParseDecimal(f[6]), ParseDecimal(f[7]))
         case (Some(a), Some(c), Some(g), Some(t), Some(n)) => Some((PosType(dir, meth, cpg), [a, c, g, t, n]))
         case _ => None)
      case _ => None
  }

  /** No field of a report line contains the separator, so the line splits back
      into exactly its fields. */
  lemma RenderLineSplits(table: Table, pt: PosType)
    requires pt.cpgPosition <= 1
    ensures Split(RenderLine(table, pt), ',') == ReportFields(table, pt)
  {
    var parts := ReportFields(table, pt);
    forall j | 0 <= j < |parts| ensures ',' !in parts[j] {
      if j >= 3 {
        assert AllDigits(parts[j]);
      }
    }
    SplitJoin(parts, ',');
  }

  /** The report can be read back: line `i` names the `i`-th bucket and carries its
      A, C, G, T, N counts, with 0 for a bucket or base the table lacks. */
  lemma ReportRoundTrip(table: Table, i: nat)
    requires i < 8
    ensures ReadReportLine(WriteAssignedBases(table)[i])
            == Some((AllPosTypes[i], ReportCounts(table, AllPosTypes[i])))
  {
    var pt := AllPosTypes[i];
    RenderLineSplits(table, pt);
    var c := ReportCounts(table, pt);
    ParseNatToString(c[0]);
    ParseNatToString(c[1]);
    ParseNatToString(c[2]);
    ParseNatToString(c[3]);
    ParseNatToString(c[4]);
  }
}
