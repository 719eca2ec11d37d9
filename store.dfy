// The persistence the services use: three tables (ScrapeResult,
// AnalysisResult, RepurposeResult), each written by `create` and read by
// `findMany({ orderBy: { <timestamp>: "desc" }, take })`. The database
// assigns every new row an id and a timestamp; here both come from one
// clock that moves forward on every write, so later rows carry later
// timestamps.

module Store {
  /** A persisted row: the generated id, the generated timestamp
      (scrapedAt, analyzedAt or createdAt) and the data the service wrote. */
  datatype Row<T> = Row(id: nat, stamp: nat, data: T)

  datatype ScrapeResult = ScrapeResult(url: string, title: string, description: string, bodyText: string)

  datatype AnalysisResult = AnalysisResult(
    url: string,
    headlineScore: int, valueScore: int, ctaScore: int, trustScore: int,
    overallScore: int,
    feedback: string)

  datatype RepurposeResult = RepurposeResult(
    url: string, title: string,
    twitterThread: string, linkedinPost: string, newsletter: string)

  /** The data the services wrote, in insertion order. */
  function Data<T>(rows: seq<Row<T>>): seq<T> {
    seq(|rows|, i requires 0 <= i < |rows| => rows[i].data)
  }

  lemma DataAppend<T>(rows: seq<Row<T>>, row: Row<T>)
    ensures Data(rows + [row]) == Data(rows) + [row.data]
  {
    assert forall i :: 0 <= i < |rows| ==> (rows + [row])[i] == rows[i];
  }

  /** Rows in insertion order have strictly increasing timestamps, and every
      id and timestamp was issued before `clock`. */
  ghost predicate Chronological<T>(rows: seq<Row<T>>, clock: nat) {
    (forall i, j :: 0 <= i < j < |rows| ==> rows[i].stamp < rows[j].stamp) &&
    (forall i :: 0 <= i < |rows| ==> rows[i].stamp < clock && rows[i].id < clock) &&
    (forall i, j :: 0 <= i < j < |rows| ==> rows[i].id != rows[j].id)
  }

  /** The rows ordered by timestamp, newest first. */
  function Newest<T>(rows: seq<Row<T>>): seq<Row<T>> {
    seq(|rows|, i requires 0 <= i < |rows| => rows[|rows| - 1 - i])
  }

  function Abs(n: int): nat {
    if n < 0 then -n else n
  }

  function Min(a: nat, b: nat): nat {
    if a < b then a else b
  }

  /** `findMany({ orderBy: { stamp: "desc" }, take })`: a positive `take`
      keeps that many rows from the start of the ordered list, a negative
      one that many from its end, in the same order. */
  function FindMany<T>(rows: seq<Row<T>>, take: int): (r: seq<Row<T>>)
    ensures |r| == Min(Abs(take), |rows|)
    ensures forall k :: 0 <= k < |r| ==> r[k] in rows
  {
    var desc := Newest(rows);
    var n := Min(Abs(take), |rows|);
    if take >= 0 then desc[..n] else desc[|rows| - n..]
  }

  /** Whatever `take` is, the rows come out strictly newest first. */
  lemma FindManyNewestFirst<T>(rows: seq<Row<T>>, clock: nat, take: int)
    requires Chronological(rows, clock)
    ensures var r := FindMany(rows, take);
      forall i, j :: 0 <= i < j < |r| ==> r[i].stamp > r[j].stamp
  {
    var r := FindMany(rows, take);
    var n := Min(Abs(take), |rows|);
    var off := if take >= 0 then 0 else |rows| - n;
    forall i, j | 0 <= i < j < |r|
      ensures r[i].stamp > r[j].stamp
    {
      assert r[i] == rows[|rows| - 1 - (off + i)];
      assert r[j] == rows[|rows| - 1 - (off + j)];
    }
  }

  /** Where each returned row sits in the table. */
  lemma FindManyIndex<T>(rows: seq<Row<T>>, take: int)
    ensures var r := FindMany(rows, take);
      (take >= 0 ==> forall k :: 0 <= k < |r| ==> r[k] == rows[|rows| - 1 - k]) &&
      (take < 0 ==> forall k :: 0 <= k < |r| ==> r[k] == rows[|r| - 1 - k])
  {
  }

  /** With a non-negative `take` the answer is the newest rows: it holds
      exactly the last |r| rows written, and every row left out is older
      than every row returned. */
  lemma FindManyKeepsNewest<T>(rows: seq<Row<T>>, clock: nat, take: int)
    requires Chronological(rows, clock) && take >= 0
    ensures var r := FindMany(rows, take);
      (forall i :: |rows| - |r| <= i < |rows| ==> rows[i] in r) &&
      (forall k :: 0 <= k < |r| ==> r[k] in rows[|rows| - |r|..]) &&
      (forall i, k :: 0 <= i < |rows| - |r| && 0 <= k < |r| ==> rows[i].stamp < r[k].stamp)
  {
    var r := FindMany(rows, take);
    var n := |r|;
    FindManyIndex(rows, take);
    forall i | |rows| - n <= i < |rows|
      ensures rows[i] in r
    {
      assert r[|rows| - 1 - i] == rows[i];
    }
    var tail := rows[|rows| - n..];
    forall k | 0 <= k < n
      ensures r[k] in tail
    {
      assert r[k] == tail[n - 1 - k];
    }
    forall i, k | 0 <= i < |rows| - n && 0 <= k < n
      ensures rows[i].stamp < r[k].stamp
    {
      assert r[k] == rows[|rows| - 1 - k];
    }
  }

  /** With a negative `take` the answer is the oldest rows: it holds exactly
      the first |r| rows written, and every row left out is newer than
      every row returned. */
  lemma FindManyKeepsOldest<T>(rows: seq<Row<T>>, clock: nat, take: int)
    requires Chronological(rows, clock) && take < 0
    ensures var r := FindMany(rows, take);
      (forall i :: 0 <= i < |r| ==> rows[i] in r) &&
      (forall k :: 0 <= k < |r| ==> r[k] in rows[..|r|]) &&
      (forall i, k :: |r| <= i < |rows| && 0 <= k < |r| ==> rows[i].stamp > r[k].stamp)
  {
    var r := FindMany(rows, take);
    var n := |r|;
    FindManyIndex(rows, take);
    forall i | 0 <= i < n
      ensures rows[i] in r
    {
      assert r[n - 1 - i] == rows[i];
    }
    var head := rows[..n];
    forall k | 0 <= k < n
      ensures r[k] in head
    {
      assert r[k] == head[n - 1 - k];
    }
    forall i, k | n <= i < |rows| && 0 <= k < n
      ensures rows[i].stamp > r[k].stamp
    {
      assert r[k] == rows[n - 1 - k];
    }
  }

  lemma AppendKeepsChronological<T>(rows: seq<Row<T>>, clock: nat, row: Row<T>)
    requires Chronological(rows, clock)
    requires row.stamp == clock && row.id == clock
    ensures Chronological(rows + [row], clock + 1)
  {
  }

  /** The database: the three tables and the clock that stamps new rows. */
  class Database {
    var scrapes: seq<Row<ScrapeResult>>
    var analyses: seq<Row<AnalysisResult>>
    var repurposes: seq<Row<RepurposeResult>>
    var clock: nat

    ghost predicate Valid()
      reads this
    {
      Chronological(scrapes, clock) && Chronological(analyses, clock) && Chronological(repurposes, clock)
    }

    constructor ()
      ensures Valid()
      ensures scrapes == [] && analyses == [] && repurposes == []
    {
      scrapes, analyses, repurposes := [], [], [];
      clock := 0;
    }

    /** `prisma.scrapeResult.create({ data })` */
    method CreateScrape(data: ScrapeResult) returns (row: Row<ScrapeResult>)
      requires Valid()
      modifies this
      ensures Valid()
      ensures row.data == data && scrapes == old(scrapes) + [row]
      ensures forall r :: r in old(scrapes) ==> r.id != row.id && r.stamp < row.stamp
      ensures analyses == old(analyses) && repurposes == old(repurposes)
    {
      row := Row(clock, clock, data);
      AppendKeepsChronological(scrapes, clock, row);
      scrapes := scrapes + [row];
      clock := clock + 1;
    }

    /** `prisma.analysisResult.create({ data })` */
    method CreateAnalysis(data: AnalysisResult) returns (row: Row<AnalysisResult>)
      requires Valid()
      modifies this
      ensures Valid()
      ensures row.data == data && analyses == old(analyses) + [row]
      ensures forall r :: r in old(analyses) ==> r.id != row.id && r.stamp < row.stamp
      ensures scrapes == old(scrapes) && repurposes == old(repurposes)
    {
      row := Row(clock, clock, data);
      AppendKeepsChronological(analyses, clock, row);
      analyses := analyses + [row];
      clock := clock + 1;
    }

    /** `prisma.repurposeResult.create({ data })` */
    method CreateRepurpose(data: RepurposeResult) returns (row: Row<RepurposeResult>)
      requires Valid()
      modifies this
      ensures Valid()
      ensures row.data == data && repurposes == old(repurposes) + [row]
      ensures forall r :: r in old(repurposes) ==> r.id != row.id && r.stamp < row.stamp
      ensures scrapes == old(scrapes) && analyses == old(analyses)
    {
      row := Row(clock, clock, data);
      AppendKeepsChronological(repurposes, clock, row);
      repurposes := repurposes + [row];
      clock := clock + 1;
    }

    /** `prisma.scrapeResult.findMany({ orderBy: { scrapedAt: "desc" }, take })` */
    method FindScrapes(take: int) returns (rows: seq<Row<ScrapeResult>>)
      requires Valid()
      ensures rows == FindMany(scrapes, take)
      ensures forall i, j :: 0 <= i < j < |rows| ==> rows[i].stamp > rows[j].stamp
    {
      rows := FindMany(scrapes, take);
      FindManyNewestFirst(scrapes, clock, take);
    }

    /** `prisma.analysisResult.findMany({ orderBy: { analyzedAt: "desc" }, take })` */
    method FindAnalyses(take: int) returns (rows: seq<Row<AnalysisResult>>)
      requires Valid()
      ensures rows == FindMany(analyses, take)
      ensures forall i, j :: 0 <= i < j < |rows| ==> rows[i].stamp > rows[j].stamp
    {
      rows := FindMany(analyses, take);
      FindManyNewestFirst(analyses, clock, take);
    }

    /** `prisma.repurposeResult.findMany({ orderBy: { createdAt: "desc" }, take })` */
    method FindRepurposes(take: int) returns (rows: seq<Row<RepurposeResult>>)
      requires Valid()
      ensures rows == FindMany(repurposes, take)
      ensures forall i, j :: 0 <= i < j < |rows| ==> rows[i].stamp > rows[j].stamp
    {
      rows := FindMany(repurposes, take);
      FindManyNewestFirst(repurposes, clock, take);
    }
  }
}
