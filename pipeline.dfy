/** `process_video` and `run_pipeline`: search, details, filter, then one
    caption and one analysis per surviving row, attached with the score. */
module Pipeline {
  import opened Wrappers
  import opened Seqs
  import opened Text
  import opened Records
  import opened ShortsSearch
  import opened Details
  import opened Popularity
  import opened Extraction
  import opened TextAnalysis
  import opened Ranking

  const FRAME_SAMPLES: int := 3

  /** The outcomes of every outside service the pipeline consults: the
      search pages for the query, the details response for a comma-joined
      id list, a video's transcript segments, its caption-track ids, a
      track's body, the length of the clip behind a watch URL, the vision
      model's answer for a frame and the text model's answer for a prompt. */
  datatype Services = Services(
    searchPages: seq<Page>,
    details: string -> seq<VideoItem>,
    transcript: string -> Option<seq<string>>,
    captionTracks: string -> Option<seq<string>>,
    downloadTrack: string -> Option<string>,
    clipDuration: string -> Option<real>,
    vision: Frame -> string,
    textModel: string -> string)

  /** What `process_video` returns for one video. */
  datatype Enrichment = Enrichment(captions: string, topic: string, hooks: string)

  function TranscriptOf(s: Services, vid: string): Option<string>
  {
    TryCaptions(s.transcript(vid))
  }

  function ApiCaptionOf(s: Services, vid: string): Option<string>
  {
    TryApiCaptions(s.captionTracks(vid), s.downloadTrack)
  }

  function FramesOf(s: Services, vid: string): seq<Frame>
  {
    SampleFrames(WatchUrl(vid), s.clipDuration(WatchUrl(vid)), FRAME_SAMPLES)
  }

  /** The caption `process_video` settles on for `vid`. */
  function CaptionOf(s: Services, vid: string): string
  {
    ChooseCaption(TranscriptOf(s, vid), ApiCaptionOf(s, vid), FramesOf(s, vid), s.vision)
  }

  /** `process_video(client, yt, vid)`: the caption and its analysis. */
  function EnrichmentOf(s: Services, vid: string): Enrichment
  {
    var caption := CaptionOf(s, vid);
    var a := AnalyzeText(s.textModel(Prompt(caption)));
    Enrichment(caption, a.topic, a.hooks)
  }

  /** The caption is the first non-empty one of transcript, caption track
      and frame text (frame text only when frames were sampled), else `""`;
      and the analysis is that of the model's answer about that caption. */
  lemma EnrichmentOfChain(s: Services, vid: string)
    ensures EnrichmentOf(s, vid).captions ==
      FirstNonEmpty([TranscriptOf(s, vid), ApiCaptionOf(s, vid), OcrSource(FramesOf(s, vid), s.vision)])
    ensures var e := EnrichmentOf(s, vid);
      Analysis(e.topic, e.hooks) == AnalyzeText(s.textModel(Prompt(e.captions)))
  {
    ChooseCaptionFirstNonEmpty(TranscriptOf(s, vid), ApiCaptionOf(s, vid), FramesOf(s, vid), s.vision);
  }

  /** `process_video(client, yt, vid)`: the caption, then the text model's
      analysis of it. */
  method ProcessVideo(s: Services, vid: string) returns (e: Enrichment, trace: Trace)
    ensures e == EnrichmentOf(s, vid)
    ensures trace.captionTracksListed <==> !Truthy(TranscriptOf(s, vid))
    ensures trace.framesSampled <==> !Truthy(Or(TranscriptOf(s, vid), ApiCaptionOf(s, vid)))
    ensures trace.visionRequests == if trace.framesSampled then FramesOf(s, vid) else []
  {
    var caption;
    caption, trace := FindCaption(TranscriptOf(s, vid), ApiCaptionOf(s, vid), FramesOf(s, vid), s.vision);
    var analysis := AnalyzeText(s.textModel(Prompt(caption)));
    e := Enrichment(caption, analysis.topic, analysis.hooks);
  }

  /** The rows that reach enrichment: the detail table of the ids found,
      filtered; nothing when the details produced no table. */
  function FilteredRows(s: Services, query: string, maxResults: int): Option<seq<VideoRecord>>
  {
    match DetailTable(ShortsFound(s.searchPages, maxResults), s.details)
    case None => None
    case Some(table) => Some(PopularityFilter(table))
  }

  /** A filtered row with its caption, topic, hooks and score attached. */
  function ResultOf(s: Services, r: VideoRecord): ResultRow
  {
    var e := EnrichmentOf(s, r.videoId);
    ResultRow(r, e.captions, e.topic, e.hooks, RowScore(r))
  }

  /** What `run_pipeline` returns. */
  function PipelineResult(s: Services, query: string, maxResults: int): Option<seq<ResultRow>>
  {
    match FilteredRows(s, query, maxResults)
    case None => None
    case Some(rows) => Some(seq(|rows|, i requires 0 <= i < |rows| => ResultOf(s, rows[i])))
  }

  /** The finished table has one row per filtered row, in the same order;
      every row passed the filter, keeps the derived-metric invariant, and
      carries its own video's caption and score. */
  lemma PipelineResultRows(s: Services, query: string, maxResults: int)
    ensures PipelineResult(s, query, maxResults).Some? <==> FilteredRows(s, query, maxResults).Some?
    ensures PipelineResult(s, query, maxResults).Some? ==>
      var rows, filtered := PipelineResult(s, query, maxResults).value, FilteredRows(s, query, maxResults).value;
      && |rows| == |filtered|
      && forall i :: 0 <= i < |rows| ==>
        && rows[i].video == filtered[i]
        && Popular(rows[i].video) && Derived(rows[i].video)
        && rows[i].viralityScore == RowScore(rows[i].video)
        && rows[i].captions == CaptionOf(s, rows[i].video.videoId)
  {
    var ids := ShortsFound(s.searchPages, maxResults);
    if DetailTable(ids, s.details).Some? {
      var table := DetailTable(ids, s.details).value;
      BatchRowsDerived(Batches(ids), s.details);
      PopularityFilterKeeps(table, []);
      forall r | r in PopularityFilter(table) ensures Derived(r) {
        var idx :| 0 <= idx < |table| && table[idx] == r;
      }
    }
  }

  /** Attaching the three collected columns and the score to the filtered
      rows gives each row its own enrichment. */
  lemma AttachedColumns(s: Services, df: seq<VideoRecord>, captions: seq<string>, topics: seq<string>, hooks: seq<string>)
    requires |captions| == |df| && |topics| == |df| && |hooks| == |df|
    requires forall i :: 0 <= i < |df| ==>
      EnrichmentOf(s, df[i].videoId) == Enrichment(captions[i], topics[i], hooks[i])
    ensures seq(|df|, i requires 0 <= i < |df| =>
        ResultRow(df[i], captions[i], topics[i], hooks[i], RowScore(df[i])))
      == seq(|df|, i requires 0 <= i < |df| => ResultOf(s, df[i]))
  {
  }

  /** The loop of `run_pipeline`: one `process_video` per row, its results
      appended to three lists kept in step with the rows. */
  method EnrichRows(s: Services, df: seq<VideoRecord>) returns (captions: seq<string>, topics: seq<string>, hooks: seq<string>)
    ensures |captions| == |df| && |topics| == |df| && |hooks| == |df|
    ensures forall i :: 0 <= i < |df| ==>
      EnrichmentOf(s, df[i].videoId) == Enrichment(captions[i], topics[i], hooks[i])
  {
    captions, topics, hooks := [], [], [];
    for k := 0 to |df|
      invariant |captions| == k && |topics| == k && |hooks| == k
      invariant forall i :: 0 <= i < k ==>
        EnrichmentOf(s, df[i].videoId) == Enrichment(captions[i], topics[i], hooks[i])
    {
      var pdata, _ := ProcessVideo(s, df[k].videoId);
      EnrichedStep(s, df, captions, topics, hooks, pdata);
      captions := captions + [pdata.captions];
      topics := topics + [pdata.topic];
      hooks := hooks + [pdata.hooks];
    }
  }

  /** One more row enriched keeps the columns in step with the rows. */
  lemma EnrichedStep(s: Services, df: seq<VideoRecord>, captions: seq<string>, topics: seq<string>, hooks: seq<string>, e: Enrichment)
    requires |captions| < |df| && |topics| == |captions| && |hooks| == |captions|
    requires forall i :: 0 <= i < |captions| ==>
      EnrichmentOf(s, df[i].videoId) == Enrichment(captions[i], topics[i], hooks[i])
    requires e == EnrichmentOf(s, df[|captions|].videoId)
    ensures forall i :: 0 <= i < |captions| + 1 ==>
      EnrichmentOf(s, df[i].videoId) == Enrichment((captions + [e.captions])[i], (topics + [e.topic])[i], (hooks + [e.hooks])[i])
  {
  }

  /** `run_pipeline(..., query, days_back, max_results)`: the search, the
      details, the filter, then the enrichment loop, its three columns
      attached to the filtered rows together with the score. */
  method RunPipeline(s: Services, query: string, maxResults: int) returns (result: Option<seq<ResultRow>>)
    ensures result == PipelineResult(s, query, maxResults)
  {
    var vids, _ := SearchShorts(s.searchPages, query, maxResults);
    var details := FetchDetails(vids, s.details);
    if details.None? {
      assert FilteredRows(s, query, maxResults).None?;
      return None;
    }
    var df := PopularityFilter(details.value);
    assert FilteredRows(s, query, maxResults) == Some(df);
    var captions, topics, hooks := EnrichRows(s, df);
    AttachedColumns(s, df, captions, topics, hooks);
    result := Some(seq(|df|, i requires 0 <= i < |df| =>
      ResultRow(df[i], captions[i], topics[i], hooks[i], RowScore(df[i]))));
  }
}
