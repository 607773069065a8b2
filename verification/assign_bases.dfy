/** The superseded draft of the assignment step (src/assign_bases.rs). It reads a
    per-position bases file into four baseline maps, one per strand and CpG
    offset, then walks a bedGraph and adds each listed site's base counts into one
    of eight per-chromosome tables, chosen by strand, offset and methylation.

    Its conventions are its own: forward baselines are looked up by the bedGraph's
    END field and reverse ones by its START field, positions are `usize`, and the
    threshold compares a float. Only the error kinds and the "track" header test
    are shared with the live path. */
module AssignBases {
  import opened Wrappers
  import opened Text
  import opened Utils
  import opened FindBases

  // ---------------------------------------------------------------------------
  // read_bases_file
  // ---------------------------------------------------------------------------

  /** The four baseline maps: forward or reverse strand, CpG offset 0 or 1. */
  datatype Route = F0 | F1 | R0 | R1 {
    predicate IsForward() {
      this == F0 || this == F1
    }
  }

  /** The tag in field 2 of a bases line that selects a map; other tags select none. */
  function RouteOf(tag: string): (r: Option<Route>)
    ensures r == Some(F0) <==> tag == "f_0"
    ensures r == Some(F1) <==> tag == "f_1"
    ensures r == Some(R0) <==> tag == "r_0"
    ensures r == Some(R1) <==> tag == "r_1"
  {
    if tag == "f_0" then Some(F0)
    else if tag == "f_1" then Some(F1)
    else if tag == "r_0" then Some(R0)
    else if tag == "r_1" then Some(R1)
    else None
  }

  /** A baseline key: chromosome as written (no prefix stripped) and position. */
  type BaseKey = (string, nat)

  /** A baseline map: key to the line's fields from index 3 on. */
  type Baseline = map<BaseKey, seq<string>>

  datatype Baselines = Baselines(f0: Baseline, f1: Baseline, r0: Baseline, r1: Baseline) {
    function At(rt: Route): Baseline {
      match rt
      case F0 => f0
      case F1 => f1
      case R0 => r0
      case R1 => r1
    }

    /** The maps with the one for `rt` replaced; the other three are kept. */
    function With(rt: Route, b: Baseline): (r: Baselines)
      ensures r.At(rt) == b
      ensures forall q :: q != rt ==> r.At(q) == At(q)
    {
      match rt
      case F0 => this.(f0 := b)
      case F1 => this.(f1 := b)
      case R0 => this.(r0 := b)
      case R1 => this.(r1 := b)
    }
  }

  const NoBaselines := Baselines(map[], map[], map[], map[])

  predicate IsComment(line: string) {
    StartsWith(line, "#")
  }

  /** Field 1 of a bases line is indexed unconditionally and field 2 once the
      position has parsed; either panics when missing. */
  predicate BasesLineNoPanic(line: string) {
    var f := Split(line, '\t');
    IsComment(line) || (|f| >= 2 && (ParseUnsigned(f[1], USIZE_LIMIT).None? || |f| >= 3))
  }

  /** A bases line whose position field is not a `usize`. */
  predicate BasesLineFails(line: string) {
    var f := Split(line, '\t');
    !IsComment(line) && |f| >= 2 && ParseUnsigned(f[1], USIZE_LIMIT).None?
  }

  /** The file avoids a panic when every line reached before the first position
      error has the fields the code indexes. */
  predicate BasesNoPanic(lines: seq<string>)
    decreases |lines|
  {
    |lines| == 0 || (BasesLineNoPanic(lines[0]) && (BasesLineFails(lines[0]) || BasesNoPanic(lines[1..])))
  }

  /** The entry a well-formed bases line stores in map `rt` under `key`, if any. */
  function LineRow(line: string, rt: Route, key: BaseKey): Option<seq<string>> {
    var f := Split(line, '\t');
    if IsComment(line) || |f| < 3 then None
    else
      match ParseUnsigned(f[1], USIZE_LIMIT)
      case None => None
      case Some(pos) =>
        if RouteOf(f[2]) == Some(rt) && (f[0], pos) == key then Some(f[3..]) else None
  }

  /** One pass of the loop of `read_bases_file`: a comment line is skipped, a bad
      position is an error, and a line with a known tag inserts its fields from
      index 3 on, replacing any earlier entry under the same key. */
  function BasesStep(acc: Baselines, line: string): (r: Result<Baselines, ParseError>)
    requires BasesLineNoPanic(line)
    ensures r.Err? <==> BasesLineFails(line)
  {
    if IsComment(line) then Ok(acc)
    else
      var f := Split(line, '\t');
      match ParseUnsigned(f[1], USIZE_LIMIT)
      case None => Err(InvalidPosition)
      case Some(pos) =>
        match RouteOf(f[2])
        case None => Ok(acc)
        case Some(rt) => Ok(acc.With(rt, acc.At(rt)[(f[0], pos) := f[3..]]))
  }

  function Lookup(b: Baseline, key: BaseKey): Option<seq<string>> {
    if key in b then Some(b[key]) else None
  }

  /** After one line, a lookup finds that line's row if it has one for the key,
      and the earlier entry otherwise. */
  lemma BasesStepRow(acc: Baselines, line: string, rt: Route, key: BaseKey)
    requires BasesLineNoPanic(line) && BasesStep(acc, line).Ok?
    ensures Lookup(BasesStep(acc, line).value.At(rt), key)
            == match LineRow(line, rt, key)
               case Some(v) => Some(v)
               case None => Lookup(acc.At(rt), key)
  {
  }

  /** The loop of `read_bases_file` from the maps `acc` on, stopping at the first
      bad position. */
  function ReadBasesFrom(acc: Baselines, lines: seq<string>): (r: Result<Baselines, ParseError>)
    requires BasesNoPanic(lines)
    ensures r.Err? <==> exists j :: 0 <= j < |lines| && BasesLineFails(lines[j])
    decreases |lines|
  {
    if |lines| == 0 then Ok(acc)
    else
      match BasesStep(acc, lines[0])
      case Err(e) => Err(e)
      case Ok(acc') =>
        var r := ReadBasesFrom(acc', lines[1..]);
        assert forall j :: 1 <= j < |lines| ==> lines[j] == lines[1..][j - 1];
        r
  }

  /** `read_bases_file` on the file's lines. */
  function ReadBasesFile(lines: seq<string>): (r: Result<Baselines, ParseError>)
    requires BasesNoPanic(lines)
    ensures r.Err? <==> exists j :: 0 <= j < |lines| && BasesLineFails(lines[j])
  {
    ReadBasesFrom(NoBaselines, lines)
  }

  /** Reference: the row of the LAST line that routes `key` to map `rt`. */
  function LastRow(lines: seq<string>, rt: Route, key: BaseKey): Option<seq<string>>
    decreases |lines|
  {
    if |lines| == 0 then None
    else
      match LastRow(lines[1..], rt, key)
      case Some(v) => Some(v)
      case None => LineRow(lines[0], rt, key)
  }

  lemma {:induction false} ReadBasesFromLastWins(acc: Baselines, lines: seq<string>, rt: Route, key: BaseKey)
    requires BasesNoPanic(lines) && ReadBasesFrom(acc, lines).Ok?
    ensures Lookup(ReadBasesFrom(acc, lines).value.At(rt), key)
            == match LastRow(lines, rt, key)
               case Some(v) => Some(v)
               case None => Lookup(acc.At(rt), key)
    decreases |lines|
  {
    if |lines| > 0 {
      var acc' := BasesStep(acc, lines[0]).value;
      ReadBasesFromLastWins(acc', lines[1..], rt, key);
      BasesStepRow(acc, lines[0], rt, key);
    }
  }

  /** Every stored entry comes from a line with that tag and key, and when several
      lines share them the last one wins. */
  lemma ReadBasesFileLastWins(lines: seq<string>, rt: Route, key: BaseKey)
    requires BasesNoPanic(lines) && ReadBasesFile(lines).Ok?
    ensures Lookup(ReadBasesFile(lines).value.At(rt), key) == LastRow(lines, rt, key)
  {
    ReadBasesFromLastWins(NoBaselines, lines, rt, key);
  }

  // ---------------------------------------------------------------------------
  // update_base_counts
  // ---------------------------------------------------------------------------

  /** Per-chromosome base counts, one table per draft bucket. */
  type ChromCounts = map<string, Counts>

  /** The base each count column stands for, in column order. */
  const BasesChars: seq<char> := ['A', 'C', 'G', 'T', 'N']

  function Min(a: nat, b: nat): nat {
    if a < b then a else b
  }

  /** `zip` stops at the shorter side: the columns read are the first
      `min(5, |fields|)`. */
  function Zipped(fields: seq<string>): nat {
    Min(|BasesChars|, |fields|)
  }

  /** `parse::<usize>().expect(..)` panics on a column that is not a count. */
  predicate CountsParse(fields: seq<string>) {
    forall i :: 0 <= i < Zipped(fields) ==> ParseUnsigned(fields[i], USIZE_LIMIT).Some?
  }

  /** The column of base `b`, if `b` is one of the five. */
  function ColumnOf(b: char): (r: Option<nat>)
    ensures r.Some? ==> r.value < |BasesChars| && BasesChars[r.value] == b
    ensures r.None? ==> b !in BasesChars
  {
    if b == 'A' then Some(0)
    else if b == 'C' then Some(1)
    else if b == 'G' then Some(2)
    else if b == 'T' then Some(3)
    else if b == 'N' then Some(4)
    else None
  }

  /** Reference: what the first `n` columns add to base `b`: its column's count
      when that column is among them, otherwise nothing. */
  function ColumnsCount(fields: seq<string>, n: nat, b: char): nat
    requires n <= Zipped(fields) && CountsParse(fields)
  {
    match ColumnOf(b)
    case None => 0
    case Some(i) => if i < n then ParseUnsigned(fields[i], USIZE_LIMIT).value else 0
  }

  /** What the fields add to base `b` once the zip has run to its end. */
  function FieldCount(fields: seq<string>, b: char): nat
    requires CountsParse(fields)
  {
    ColumnsCount(fields, Zipped(fields), b)
  }

  /** The zip loop over the first `n` columns. */
  function AddColumns(entry: Counts, fields: seq<string>, n: nat): (r: Counts)
    requires n <= Zipped(fields) && CountsParse(fields)
    ensures forall b :: b in r <==> b in entry || b in BasesChars[..n]
    ensures forall b :: Get(r, b) == Get(entry, b) + ColumnsCount(fields, n, b)
    decreases n
  {
    if n == 0 then entry
    else
      var e := AddColumns(entry, fields, n - 1);
      var b := BasesChars[n - 1];
      ColumnsCountStep(fields, n);
      e[b := Get(e, b) + ParseUnsigned(fields[n - 1], USIZE_LIMIT).value]
  }

  /** Column `n - 1` adds to its own base only. */
  lemma ColumnsCountStep(fields: seq<string>, n: nat)
    requires 0 < n <= Zipped(fields) && CountsParse(fields)
    ensures BasesChars[..n] == BasesChars[..n - 1] + [BasesChars[n - 1]]
    ensures ColumnsCount(fields, n, BasesChars[n - 1])
            == ColumnsCount(fields, n - 1, BasesChars[n - 1]) + ParseUnsigned(fields[n - 1], USIZE_LIMIT).value
    ensures forall c :: c != BasesChars[n - 1] ==> ColumnsCount(fields, n, c) == ColumnsCount(fields, n - 1, c)
  {
    assert ColumnOf(BasesChars[n - 1]) == Some(n - 1);
  }

  /** `update_base_counts`: the chromosome's entry is created if absent, even when
      there are no fields, and each zipped column's count is added to its base.
      Other chromosomes are untouched. */
  function UpdateBaseCounts(target: ChromCounts, chrom: string, fields: seq<string>): (r: ChromCounts)
    requires CountsParse(fields)
    ensures r.Keys == target.Keys + {chrom}
    ensures forall c :: c in target && c != chrom ==> r[c] == target[c]
    ensures var before := if chrom in target then target[chrom] else map[];
            && (forall b :: b in r[chrom] <==> b in before || b in BasesChars[..Zipped(fields)])
            && forall b :: Get(r[chrom], b) == Get(before, b) + FieldCount(fields, b)
  {
    var entry := if chrom in target then target[chrom] else map[];
    target[chrom := AddColumns(entry, fields, Zipped(fields))]
  }

  // ---------------------------------------------------------------------------
  // process_bedgraph_data (draft)
  // ---------------------------------------------------------------------------

  /** An `f64` as `parse::<f64>()` can produce it. */
  datatype F64 = Finite(value: real) | PosInf | NegInf | NaN

  /** `methylation > 20.0`: strict; false for NaN. */
  predicate AboveThreshold(v: F64) {
    match v
    case Finite(x) => x > 20.0
    case PosInf => true
    case _ => false
  }

  /** The eight output tables: one per baseline map and methylation class. */
  datatype DraftBucket = DraftBucket(route: Route, methylated: bool)

  type DraftTable = map<DraftBucket, ChromCounts>

  const NoDraft: DraftTable := map[
    DraftBucket(F0, true) := map[], DraftBucket(F0, false) := map[],
    DraftBucket(F1, true) := map[], DraftBucket(F1, false) := map[],
    DraftBucket(R0, true) := map[], DraftBucket(R0, false) := map[],
    DraftBucket(R1, true) := map[], DraftBucket(R1, false) := map[]
  ]

  /** A parsed bedGraph line: chromosome with one "chr" stripped, both bounds, and
      whether the methylation is above the threshold. */
  datatype DraftSite = DraftSite(chrom: string, start: nat, end: nat, methylated: bool)

  /** The baseline key of a site for map `rt`: forward maps use the END field,
      reverse maps the START field. */
  function SiteKey(s: DraftSite, rt: Route): (k: BaseKey)
    ensures rt.IsForward() ==> k == (s.chrom, s.end)
    ensures !rt.IsForward() ==> k == (s.chrom, s.start)
  {
    if rt.IsForward() then (s.chrom, s.end) else (s.chrom, s.start)
  }

  /** The baseline row site `s` adds into bucket `db`, if any: the bucket's class
      must match the site's and the bucket's map must hold the site's key. */
  function Offer(b: Baselines, s: DraftSite, db: DraftBucket): Option<seq<string>> {
    if db.methylated == s.methylated && SiteKey(s, db.route) in b.At(db.route)
    then Some(b.At(db.route)[SiteKey(s, db.route)])
    else None
  }

  /** Every row the site adds has count columns that parse. */
  ghost predicate OffersParse(b: Baselines, s: DraftSite) {
    forall db :: Offer(b, s, db).Some? ==> CountsParse(Offer(b, s, db).value)
  }

  /** One of the four `if contains_key` blocks. */
  function RouteStep(t: DraftTable, b: Baselines, s: DraftSite, rt: Route): DraftTable
    requires OffersParse(b, s)
  {
    var key := SiteKey(s, rt);
    if key in b.At(rt) then
      var db := DraftBucket(rt, s.methylated);
      assert Offer(b, s, db).Some?;
      var old_ := if db in t then t[db] else map[];
      t[db := UpdateBaseCounts(old_, s.chrom, b.At(rt)[key])]
    else t
  }

  /** A table's counts for bucket `db`, chromosome `c` and base `x`; 0 if absent. */
  function CountIn(t: DraftTable, db: DraftBucket, c: string, x: char): nat {
    if db in t && c in t[db] then Get(t[db][c], x) else 0
  }

  /** What an offer adds to chromosome `c`, base `x`. */
  function OfferCount(b: Baselines, s: DraftSite, db: DraftBucket, c: string, x: char): nat
    requires OffersParse(b, s)
  {
    match Offer(b, s, db)
    case None => 0
    case Some(row) => if c == s.chrom then FieldCount(row, x) else 0
  }

  /** The four blocks in source order. Each bucket changes only through its own
      block, so every bucket gains exactly its offer. */
  function SiteStep(t: DraftTable, b: Baselines, s: DraftSite): (r: DraftTable)
    requires OffersParse(b, s)
    ensures r.Keys >= t.Keys
    ensures forall db, c, x :: CountIn(r, db, c, x) == CountIn(t, db, c, x) + OfferCount(b, s, db, c, x)
  {
    var t1 := RouteStep(t, b, s, F0);
    var t2 := RouteStep(t1, b, s, F1);
    var t3 := RouteStep(t2, b, s, R0);
    var t4 := RouteStep(t3, b, s, R1);
    RouteStepCounts(t, b, s, F0);
    RouteStepCounts(t1, b, s, F1);
    RouteStepCounts(t2, b, s, R0);
    RouteStepCounts(t3, b, s, R1);
    t4
  }

  lemma RouteStepCounts(t: DraftTable, b: Baselines, s: DraftSite, rt: Route)
    requires OffersParse(b, s)
    ensures RouteStep(t, b, s, rt).Keys >= t.Keys
    ensures forall db, c, x :: CountIn(RouteStep(t, b, s, rt), db, c, x)
              == CountIn(t, db, c, x) + (if db.route == rt then OfferCount(b, s, db, c, x) else 0)
  {
    forall db, c, x
      ensures CountIn(RouteStep(t, b, s, rt), db, c, x)
              == CountIn(t, db, c, x) + (if db.route == rt then OfferCount(b, s, db, c, x) else 0)
    {
      if db.route == rt && db.methylated == s.methylated && SiteKey(s, rt) in b.At(rt) {
        assert db == DraftBucket(rt, s.methylated);
      }
    }
  }

  /** The site a non-header bedGraph line describes, or the first parse error in
      field order: start, end, methylation. */
  function DraftSiteOf(line: string, parseMeth: string -> Option<F64>): Result<DraftSite, ParseError>
    requires |Split(line, '\t')| >= 4
  {
    var f := Split(line, '\t');
    match (ParseUnsigned(f[1], USIZE_LIMIT), ParseUnsigned(f[2], USIZE_LIMIT))
    case (Some(start), Some(end)) =>
      (match parseMeth(f[3])
       case Some(v) => Ok(DraftSite(StripPrefix(f[0], "chr"), start, end, AboveThreshold(v)))
       case None => Err(InvalidMethylation))
    case _ => Err(InvalidPosition)
  }

  /** Fields 1, 2 and 3 are indexed one after the other, each only once the one
      before has parsed, and a reached `update_base_counts` panics on a bad count.
      The run avoids a panic when every line reached before the first parse error
      passes these. */
  ghost predicate DraftNoPanic(lines: seq<string>, parseMeth: string -> Option<F64>, b: Baselines)
    decreases |lines|
  {
    if |lines| == 0 then true
    else if IsTrackLine(lines[0]) then DraftNoPanic(lines[1..], parseMeth, b)
    else
      var f := Split(lines[0], '\t');
      && |f| >= 2
      && (ParseUnsigned(f[1], USIZE_LIMIT).None?
          || (&& |f| >= 3
              && (ParseUnsigned(f[2], USIZE_LIMIT).None?
                  || (&& |f| >= 4
                      && (parseMeth(f[3]).None?
                          || (&& OffersParse(b, DraftSiteOf(lines[0], parseMeth).value)
                              && DraftNoPanic(lines[1..], parseMeth, b)))))))
  }

  /** A non-header bedGraph line makes the run fail when one of its numbers does not
      parse. */
  predicate DraftLineFails(line: string, parseMeth: string -> Option<F64>) {
    var f := Split(line, '\t');
    && !IsTrackLine(line)
    && |f| >= 2
    && (|f| < 4 || DraftSiteOf(line, parseMeth).Err?)
  }

  /** Reference: what the lines add to bucket `db`, chromosome `c`, base `x`. */
  function DraftTotal(lines: seq<string>, parseMeth: string -> Option<F64>, b: Baselines,
                      db: DraftBucket, c: string, x: char): nat
    requires DraftNoPanic(lines, parseMeth, b)
    decreases |lines|
  {
    if |lines| == 0 then 0
    else if IsTrackLine(lines[0]) then DraftTotal(lines[1..], parseMeth, b, db, c, x)
    else if |Split(lines[0], '\t')| < 4 || DraftSiteOf(lines[0], parseMeth).Err? then 0
    else
      OfferCount(b, DraftSiteOf(lines[0], parseMeth).value, db, c, x)
        + DraftTotal(lines[1..], parseMeth, b, db, c, x)
  }

  /** The loop of the draft `process_bedgraph_data` from table `t` on. */
  function ProcessDraftFrom(t: DraftTable, lines: seq<string>, parseMeth: string -> Option<F64>,
                            b: Baselines): (r: Result<DraftTable, ParseError>)
    requires DraftNoPanic(lines, parseMeth, b)
    ensures r.Err? <==> exists j :: 0 <= j < |lines| && DraftLineFails(lines[j], parseMeth)
    ensures r.Ok? ==> r.value.Keys >= t.Keys
    ensures r.Ok? ==> forall db, c, x :: CountIn(r.value, db, c, x)
                        == CountIn(t, db, c, x) + DraftTotal(lines, parseMeth, b, db, c, x)
    decreases |lines|
  {
    if |lines| == 0 then Ok(t)
    else
      assert forall j :: 1 <= j < |lines| ==> lines[j] == lines[1..][j - 1];
      if IsTrackLine(lines[0]) then ProcessDraftFrom(t, lines[1..], parseMeth, b)
      else if |Split(lines[0], '\t')| < 4 then
        assert DraftLineFails(lines[0], parseMeth);
        Err(InvalidPosition)
      else
        match DraftSiteOf(lines[0], parseMeth)
        case Err(e) => assert DraftLineFails(lines[0], parseMeth); Err(e)
        case Ok(s) => ProcessDraftFrom(SiteStep(t, b, s), lines[1..], parseMeth, b)
  }

  /** The draft `process_bedgraph_data`: all eight tables start empty; every count
      a site's baselines offer lands in its table, so the result is a sum over the
      lines. */
  function ProcessDraft(lines: seq<string>, parseMeth: string -> Option<F64>, b: Baselines)
    : (r: Result<DraftTable, ParseError>)
    requires DraftNoPanic(lines, parseMeth, b)
    ensures r.Err? <==> exists j :: 0 <= j < |lines| && DraftLineFails(lines[j], parseMeth)
    ensures r.Ok? ==> r.value.Keys == NoDraft.Keys
    ensures r.Ok? ==> forall db, c, x :: CountIn(r.value, db, c, x) == DraftTotal(lines, parseMeth, b, db, c, x)
  {
    match ProcessDraftFrom(NoDraft, lines, parseMeth, b)
    case Err(e) => Err(e)
    case Ok(t) => AllDraftBuckets(t); Ok(t)
  }

  /** There are only eight draft buckets. */
  lemma AllDraftBuckets(t: DraftTable)
    requires t.Keys >= NoDraft.Keys
    ensures t.Keys == NoDraft.Keys
  {
    forall db | db in t ensures db in NoDraft {
      match db.route
      case F0 =>
      case F1 =>
      case R0 =>
      case R1 =>
    }
  }
}
