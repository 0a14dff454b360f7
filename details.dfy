/** `fetch_details`: batching the ids, one details request per batch, and
    the derived engagement metrics of every returned item. */
module Details {
  import opened Wrappers
  import opened Seqs
  import opened Text
  import opened Duration
  import opened Records

  /** The details service accepts at most this many ids per request. */
  const BATCH_SIZE: nat := 50

  /** The ε of `likes / (likes + 1e-6)`. */
  const LIKE_EPSILON: real := 0.000001

  /** `(now - publish).days or 1`: a zero day count becomes 1; any other
      count, a negative one included, is kept. */
  function ElapsedDays(days: int): (e: int)
    ensures e != 0
    ensures days >= 0 ==> e >= 1
    ensures days != 0 ==> e == days
  {
    if days == 0 then 1 else days
  }

  /** `likes / (likes + 1e-6)`, in exact arithmetic; defined for every
      integer, since `likes + 1e-6` is never 0. */
  function LikeRatio(likes: int): real
  {
    likes as real / (likes as real + LIKE_EPSILON)
  }

  /** Comparing a quotient with a constant, for a positive divisor. */
  lemma QuotientPositive(l: real, d: real, c: real)
    requires d > 0.0
    ensures l / d >= c <==> l >= c * d
    ensures l / d > c <==> l > c * d
  {
    var r := l / d;
    assert r * d == l;
    if r >= c {
      assert r * d >= c * d;
    }
    if r > c {
      assert r * d > c * d;
    }
  }

  /** Comparing a quotient with a constant, for a negative divisor. */
  lemma QuotientNegative(l: real, d: real, c: real)
    requires d < 0.0
    ensures l / d >= c <==> l <= c * d
  {
    var r := l / d;
    assert r * d == l;
    if r >= c {
      assert r * d <= c * d;
    }
  }

  /** For non-negative counts the ratio lies in [0, 1) and is 0 exactly
      when there are no likes. */
  lemma LikeRatioRange(likes: int)
    requires likes >= 0
    ensures 0.0 <= LikeRatio(likes) < 1.0
    ensures LikeRatio(likes) == 0.0 <==> likes == 0
  {
    var l := likes as real;
    var d := l + LIKE_EPSILON;
    QuotientPositive(l, d, 0.0);
    QuotientPositive(l, d, 1.0);
  }

  /** The ratio approaches 1: with at least one like it is within ε of it. */
  lemma LikeRatioNearOne(likes: int)
    requires likes >= 1
    ensures 1.0 - LIKE_EPSILON < LikeRatio(likes) < 1.0
  {
    var l := likes as real;
    var d := l + LIKE_EPSILON;
    QuotientPositive(l, d, 1.0 - LIKE_EPSILON);
    QuotientPositive(l, d, 1.0);
  }

  /** With integer counts, the 0.9 threshold only separates "no likes" from
      "some likes": a negative count even gives a ratio above 1. */
  lemma LikeRatioThreshold(likes: int)
    ensures LikeRatio(likes) >= 0.9 <==> likes != 0
  {
    var l := likes as real;
    var d := l + LIKE_EPSILON;
    if likes >= 0 {
      QuotientPositive(l, d, 0.9);
    } else {
      QuotientNegative(l, d, 0.9);
    }
  }

  /** The row `fetch_details` builds from one item: missing counts are 0,
      missing description and channel are empty. */
  function RecordOf(item: VideoItem): VideoRecord
  {
    var views := item.viewCount.GetOr(0);
    var likes := item.likeCount.GetOr(0);
    var elapsed := ElapsedDays(item.daysSincePublished);
    VideoRecord(
      item.id, item.title, item.description.GetOr(""), item.publishDt, item.channelTitle.GetOr(""),
      views, likes, item.commentCount.GetOr(0), DurationSeconds(item.duration),
      elapsed, views as real / elapsed as real, LikeRatio(likes))
  }

  /** The invariant every detail row keeps: a non-zero day count, the
      per-day rate and the ratio derived from the row's own counts. */
  predicate Derived(r: VideoRecord)
  {
    && r.elapsedDays != 0
    && r.viewsPerDay == r.views as real / r.elapsedDays as real
    && r.likeRatio == LikeRatio(r.likes)
  }

  /** The batches: `[ids[i:i + 50] for i in range(0, len(ids), 50)]`. */
  function Batches(ids: seq<string>): seq<seq<string>>
  {
    Chunks(ids, BATCH_SIZE)
  }

  /** Each batch holds 1 to 50 ids, the batches concatenate back to `ids`,
      and there are ceil(|ids| / 50) of them. */
  lemma {:induction false} BatchesProperties(ids: seq<string>)
    ensures forall i :: 0 <= i < |Batches(ids)| ==> 0 < |Batches(ids)[i]| <= BATCH_SIZE
    ensures Flatten(Batches(ids)) == ids
    ensures |Batches(ids)| == (|ids| + BATCH_SIZE - 1) / BATCH_SIZE
    decreases |ids|
  {
    ChunksProperties(ids, BATCH_SIZE);
    if |ids| > BATCH_SIZE {
      BatchesProperties(ids[BATCH_SIZE..]);
    }
  }

  /** The rows built from a list of items, in order. */
  function RecordsOf(items: seq<VideoItem>): (rows: seq<VideoRecord>)
    ensures |rows| == |items|
    ensures forall i :: 0 <= i < |items| ==> rows[i] == RecordOf(items[i])
  {
    if |items| == 0 then [] else RecordsOf(items[..|items| - 1]) + [RecordOf(items[|items| - 1])]
  }

  /** The rows for the responses to the given batches, batch after batch;
      each batch is requested as its ids joined by commas. */
  function BatchRows(batches: seq<seq<string>>, service: string -> seq<VideoItem>): seq<VideoRecord>
  {
    if |batches| == 0 then []
    else BatchRows(batches[..|batches| - 1], service) + RecordsOf(service(Join(batches[|batches| - 1], ",")))
  }

  /** Every row of the detail responses keeps the invariant. */
  lemma {:induction false} BatchRowsDerived(batches: seq<seq<string>>, service: string -> seq<VideoItem>)
    ensures forall i :: 0 <= i < |BatchRows(batches, service)| ==> Derived(BatchRows(batches, service)[i])
  {
    if |batches| > 0 {
      BatchRowsDerived(batches[..|batches| - 1], service);
    }
  }

  /** What `fetch_details` returns: the table of all detail rows, or
      nothing when there are none (pandas then has no `likes` column to
      divide, and the call fails). */
  function DetailTable(ids: seq<string>, service: string -> seq<VideoItem>): Option<seq<VideoRecord>>
  {
    var rows := BatchRows(Batches(ids), service);
    if rows == [] then None else Some(rows)
  }

  /** `fetch_details(yt, ids)`, with the details service as `service`. */
  method FetchDetails(ids: seq<string>, service: string -> seq<VideoItem>) returns (table: Option<seq<VideoRecord>>)
    ensures table == DetailTable(ids, service)
    ensures table.Some? ==> table.value != [] && forall i :: 0 <= i < |table.value| ==> Derived(table.value[i])
  {
    var batches := Batches(ids);
    var rows: seq<VideoRecord> := [];
    for b := 0 to |batches|
      invariant rows == BatchRows(batches[..b], service)
    {
      var items := service(Join(batches[b], ","));
      for j := 0 to |items|
        invariant rows == BatchRows(batches[..b], service) + RecordsOf(items[..j])
      {
        assert items[..j + 1][..j] == items[..j];
        rows := rows + [RecordOf(items[j])];
      }
      assert items[..|items|] == items;
      assert batches[..b + 1][..b] == batches[..b];
    }
    assert batches[..|batches|] == batches;
    BatchRowsDerived(batches, service);
    if rows == [] {
      table := None;
    } else {
      table := Some(rows);
    }
  }
}
