/** The popularity filter applied to the detail table before enrichment. */
module Popularity {
  import opened Seqs
  import opened Records
  import opened Details

  const MIN_VIEWS: int := 100_000
  const LIKE_RATIO_THRESHOLD: real := 0.9

  /** `(views >= MIN_VIEWS) & (like_ratio >= LIKE_RATIO_THRESHOLD)` for one row. */
  predicate Popular(r: VideoRecord)
  {
    r.views >= MIN_VIEWS && r.likeRatio >= LIKE_RATIO_THRESHOLD
  }

  /** The rows that pass, in table order (`reset_index(drop=True)` only renumbers). */
  function PopularityFilter(rows: seq<VideoRecord>): seq<VideoRecord>
  {
    Filter(rows, Popular)
  }

  /** The filter keeps exactly the passing rows, keeps their order (it
      distributes over concatenation), and is idempotent. */
  lemma PopularityFilterKeeps(rows: seq<VideoRecord>, more: seq<VideoRecord>)
    ensures forall r :: r in PopularityFilter(rows) <==> r in rows && Popular(r)
    ensures forall i :: 0 <= i < |PopularityFilter(rows)| ==> Popular(PopularityFilter(rows)[i])
    ensures PopularityFilter(rows + more) == PopularityFilter(rows) + PopularityFilter(more)
    ensures PopularityFilter(PopularityFilter(rows)) == PopularityFilter(rows)
  {
    forall r ensures r in PopularityFilter(rows) <==> r in rows && Popular(r) {
      FilterMembers(rows, Popular, r);
    }
    FilterSound(rows, Popular);
    FilterAppend(rows, more, Popular);
    FilterIdempotent(rows, Popular);
  }

  /** On a row that keeps the derived-metric invariant, the ratio test only
      asks for a non-zero like count: a row passes exactly when it has at
      least 100 000 views and any likes at all. */
  lemma PopularIffLiked(r: VideoRecord)
    requires Derived(r)
    ensures Popular(r) <==> r.views >= MIN_VIEWS && r.likes != 0
  {
    LikeRatioThreshold(r.likes);
  }

  /** A row just under the view threshold is dropped whatever its likes. */
  lemma BelowMinViewsDropped(r: VideoRecord)
    requires r.views == 99_999
    ensures PopularityFilter([r]) == []
  {
  }
}
