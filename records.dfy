/** The values that flow through the pipeline: provider items, the detail
    table's rows and the finished result rows. */
module Records {
  import opened Wrappers

  /** One item of the video-details response, as far as it is read:
      `statistics` counts are absent when the provider omits them;
      `publishDt` is the ISO text of the publish instant (as
      `datetime.isoformat()` renders it) and `daysSincePublished` is
      `(now - publish).days`, both computed outside the model. */
  datatype VideoItem = VideoItem(
    id: string,
    title: string,
    description: Option<string>,
    publishDt: string,
    channelTitle: Option<string>,
    viewCount: Option<int>,
    likeCount: Option<int>,
    commentCount: Option<int>,
    duration: string,
    daysSincePublished: int)

  /** One row of the detail table. */
  datatype VideoRecord = VideoRecord(
    videoId: string,
    title: string,
    description: string,
    publishDt: string,
    channel: string,
    views: int,
    likes: int,
    comments: int,
    durationSec: nat,
    elapsedDays: int,
    viewsPerDay: real,
    likeRatio: real)

  /** One row of the finished table: a detail row with the columns the
      enrichment stage attaches. */
  datatype ResultRow = ResultRow(
    video: VideoRecord,
    captions: string,
    topic: string,
    catchyFactors: string,
    viralityScore: real)

  const WATCH_URL_PREFIX := "https://www.youtube.com/watch?v="

  /** `f"https://www.youtube.com/watch?v={video_id}"`: the fixed prefix
      followed by the id, which can be read back from the URL. */
  function WatchUrl(videoId: string): (url: string)
    ensures |url| == |WATCH_URL_PREFIX| + |videoId|
    ensures url[..|WATCH_URL_PREFIX|] == WATCH_URL_PREFIX && url[|WATCH_URL_PREFIX|..] == videoId
  {
    WATCH_URL_PREFIX + videoId
  }
}
