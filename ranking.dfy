/** `virality_score`: the heuristic used to rank the enriched rows. */
module Ranking {
  import opened Records

  /** `views / 1_000 + likes + views_per_day * 0.1`, in exact arithmetic. */
  function ViralityScore(views: int, likes: int, viewsPerDay: real): real
  {
    views as real / 1000.0 + likes as real + viewsPerDay * 0.1
  }

  /** The score of a detail row. */
  function RowScore(r: VideoRecord): real
  {
    ViralityScore(r.views, r.likes, r.viewsPerDay)
  }

  /** The score never decreases when any of its inputs grows, and grows
      strictly with the like count. */
  lemma ScoreMonotone(v1: int, l1: int, p1: real, v2: int, l2: int, p2: real)
    requires v1 <= v2 && l1 <= l2 && p1 <= p2
    ensures ViralityScore(v1, l1, p1) <= ViralityScore(v2, l2, p2)
    ensures l1 < l2 ==> ViralityScore(v1, l1, p1) < ViralityScore(v2, l2, p2)
  {
  }
}
