/** Where a video's text comes from: the transcript, then the caption
    track, then text read off sampled frames, then nothing. Every source is
    given as its outcome: `None` stands for the failure the source code
    catches. */
module Extraction {
  import opened Wrappers
  import opened Text

  /** Python truthiness of an optional string: present and not empty. */
  predicate Truthy(o: Option<string>)
  {
    o.Some? && o.value != ""
  }

  /** Python's `a or b` on optional strings. */
  function Or(a: Option<string>, b: Option<string>): Option<string>
  {
    if Truthy(a) then a else b
  }

  /** `try_captions`: the transcript's segment texts joined by newlines, or
      `None` when fetching it failed. */
  function TryCaptions(transcript: Option<seq<string>>): (r: Option<string>)
    ensures r.None? <==> transcript.None?
    ensures transcript.Some? ==> r.value == Join(transcript.value, "\n")
  {
    match transcript
    case None => None
    case Some(segments) => Some(Join(segments, "\n"))
  }

  /** A fetched transcript yields no usable text exactly when it has no
      segments or one empty segment, so the next source is consulted. */
  lemma TryCaptionsFallsThrough(segments: seq<string>)
    ensures !Truthy(TryCaptions(Some(segments))) <==> segments == [] || segments == [""]
  {
    JoinEmpty(segments, "\n");
  }

  /** `try_api_captions`: `tracks` are the caption-track ids the listing
      returned (`None` when the listing failed), `download` the body of a
      track (`None` when the download failed). Only the first track is
      downloaded. */
  function TryApiCaptions(tracks: Option<seq<string>>, download: string -> Option<string>): (r: Option<string>)
    ensures (tracks.None? || tracks.value == []) ==> r.None?
    ensures tracks.Some? && tracks.value != [] ==> r == download(tracks.value[0])
  {
    if tracks.None? || tracks.value == [] then None else download(tracks.value[0])
  }

  /** The time at which frame `i` of `n` is taken from a clip of length `dur`. */
  function Position(dur: real, n: nat, i: int): real
  {
    dur * ((i + 1) as real) / ((n + 1) as real)
  }

  /** `[dur * (i + 1) / (n + 1) for i in range(n)]` (empty for `n <= 0`). */
  function FramePositions(dur: real, n: int): (ts: seq<real>)
    ensures |ts| == if n <= 0 then 0 else n
  {
    if n <= 0 then [] else seq(n, i requires 0 <= i < n => Position(dur, n, i))
  }

  lemma ScaleBelow(dur: real, q: real)
    requires dur > 0.0 && 0.0 < q < 1.0
    ensures 0.0 < dur * q < dur
  {
  }

  lemma PositionInside(dur: real, n: nat, i: int)
    requires dur > 0.0 && 0 <= i < n
    ensures 0.0 < Position(dur, n, i) < dur
  {
    var q := ((i + 1) as real) / ((n + 1) as real);
    assert Position(dur, n, i) == dur * q;
    ScaleBelow(dur, q);
  }

  lemma PositionStep(dur: real, n: nat, i: int)
    ensures Position(dur, n, i + 1) - Position(dur, n, i) == dur / ((n + 1) as real)
  {
    var d := (n + 1) as real;
    assert Position(dur, n, i + 1) == (dur * ((i + 1) as real) + dur) / d;
  }

  lemma PositionIncreasing(dur: real, n: nat, i: int, j: int)
    requires dur > 0.0 && i < j
    ensures Position(dur, n, i) < Position(dur, n, j)
  {
    var d := (n + 1) as real;
    var qi, qj := ((i + 1) as real) / d, ((j + 1) as real) / d;
    assert qi < qj;
    assert Position(dur, n, i) == dur * qi;
    assert Position(dur, n, j) == dur * qj;
    assert Position(dur, n, j) - Position(dur, n, i) == dur * (qj - qi);
  }

  /** For a clip of positive length, the positions lie strictly inside it,
      strictly increase, and are `dur / (n + 1)` apart, so they split the
      clip into `n + 1` equal parts. */
  lemma FramePositionsSpread(dur: real, n: int)
    requires dur > 0.0
    ensures var ts := FramePositions(dur, n);
      && (forall i :: 0 <= i < |ts| ==> 0.0 < ts[i] < dur)
      && (forall i :: 0 <= i < |ts| - 1 ==> ts[i + 1] - ts[i] == dur / ((n + 1) as real))
      && (forall i, j :: 0 <= i < j < |ts| ==> ts[i] < ts[j])
  {
    var ts := FramePositions(dur, n);
    if n > 0 {
      forall i | 0 <= i < n ensures 0.0 < ts[i] < dur {
        PositionInside(dur, n, i);
      }
      forall i | 0 <= i < n - 1 ensures ts[i + 1] - ts[i] == dur / ((n + 1) as real) {
        PositionStep(dur, n, i);
      }
      forall i, j | 0 <= i < j < n ensures ts[i] < ts[j] {
        PositionIncreasing(dur, n, i, j);
      }
    }
  }

  /** A sampled frame: the clip it comes from and the time it is taken at. */
  datatype Frame = Frame(videoUrl: string, time: real)

  /** `sample_frames(url, n)`: `clipDuration` is the downloaded clip's
      length, `None` when there is no progressive stream or the download or
      decoding failed, in which case no frames are returned. */
  function SampleFrames(videoUrl: string, clipDuration: Option<real>, n: int): seq<Frame>
  {
    match clipDuration
    case None => []
    case Some(dur) =>
      var ts := FramePositions(dur, n);
      seq(|ts|, i requires 0 <= i < |ts| => Frame(videoUrl, ts[i]))
  }

  /** Without a clip there are no frames; with one, there are `n` (none for
      `n <= 0`), all from the requested clip, taken strictly inside it and in
      increasing time order. */
  lemma SampleFramesSpread(videoUrl: string, clipDuration: Option<real>, n: int)
    ensures clipDuration.None? ==> SampleFrames(videoUrl, clipDuration, n) == []
    ensures clipDuration.Some? ==> |SampleFrames(videoUrl, clipDuration, n)| == (if n <= 0 then 0 else n)
    ensures clipDuration.Some? && clipDuration.value > 0.0 ==>
      var frames := SampleFrames(videoUrl, clipDuration, n);
      && (forall i :: 0 <= i < |frames| ==> frames[i].videoUrl == videoUrl && 0.0 < frames[i].time < clipDuration.value)
      && (forall i, j :: 0 <= i < j < |frames| ==> frames[i].time < frames[j].time)
  {
    if clipDuration.Some? && clipDuration.value > 0.0 {
      FramePositionsSpread(clipDuration.value, n);
    }
  }

  /** The stripped answers of the vision model for `frames`, in order. */
  function FrameTexts(frames: seq<Frame>, vision: Frame -> string): (texts: seq<string>)
    ensures |texts| == |frames|
    ensures forall i :: 0 <= i < |frames| ==> texts[i] == Strip(vision(frames[i]))
  {
    if frames == [] then []
    else FrameTexts(frames[..|frames| - 1], vision) + [Strip(vision(frames[|frames| - 1]))]
  }

  /** What `ocr_frames` returns: the stripped answers joined by newlines. */
  function OcrText(frames: seq<Frame>, vision: Frame -> string): string
  {
    Join(FrameTexts(frames, vision), "\n")
  }

  /** The text read off frames is empty exactly when there are no frames, or
      one frame whose answer is only whitespace. */
  lemma OcrTextEmpty(frames: seq<Frame>, vision: Frame -> string)
    ensures OcrText(frames, vision) == "" <==>
      frames == [] || (|frames| == 1 && Strip(vision(frames[0])) == "")
  {
    JoinEmpty(FrameTexts(frames, vision), "\n");
  }

  /** `ocr_frames(client, frames)`: one vision request per frame, in order;
      `vision` gives the model's answer for a frame. */
  method OcrFrames(frames: seq<Frame>, vision: Frame -> string) returns (text: string)
    ensures text == OcrText(frames, vision)
  {
    var texts: seq<string> := [];
    for k := 0 to |frames|
      invariant texts == FrameTexts(frames[..k], vision)
    {
      assert frames[..k + 1][..k] == frames[..k];
      texts := texts + [Strip(vision(frames[k]))];
    }
    assert frames[..|frames|] == frames;
    text := Join(texts, "\n");
  }

  /** How `process_video` settles on a caption: the transcript or the caption
      track if either is non-empty, else the frame text when frames were
      sampled and it is non-empty, else `""`. */
  function ChooseCaption(transcript: Option<string>, api: Option<string>, frames: seq<Frame>, vision: Frame -> string): string
  {
    var caption := Or(transcript, api);
    if Truthy(caption) then caption.value
    else if frames != [] && OcrText(frames, vision) != "" then OcrText(frames, vision)
    else ""
  }

  /** Which of the later, costlier sources `process_video` consulted, and the
      frames it sent to the vision model. */
  datatype Trace = Trace(captionTracksListed: bool, framesSampled: bool, visionRequests: seq<Frame>)

  /** The caption chain of `process_video`, with each source's outcome
      given: the caption track counts as listed only after an empty
      transcript, frames as sampled only after both captions are empty, and
      the vision model is asked only about frames that were sampled. */
  method FindCaption(transcript: Option<string>, api: Option<string>, frames: seq<Frame>, vision: Frame -> string)
    returns (caption: string, trace: Trace)
    ensures caption == ChooseCaption(transcript, api, frames, vision)
    ensures trace.captionTracksListed <==> !Truthy(transcript)
    ensures trace.framesSampled <==> !Truthy(Or(transcript, api))
    ensures trace.visionRequests == if trace.framesSampled then frames else []
  {
    var listed, sampled, requests := false, false, [];
    var found := transcript;
    if !Truthy(found) {
      listed := true;
      found := api;
    }
    if !Truthy(found) {
      sampled := true;
      if frames != [] {
        var text := OcrFrames(frames, vision);
        requests := frames;
        found := Some(text);
      }
    }
    caption := if Truthy(found) then found.value else "";
    trace := Trace(listed, sampled, requests);
  }

  /** The first non-empty text among `candidates`, or `""` if there is none. */
  function FirstNonEmpty(candidates: seq<Option<string>>): (r: string)
    ensures r == "" <==> forall i :: 0 <= i < |candidates| ==> !Truthy(candidates[i])
    ensures r != "" ==> exists i ::
      && 0 <= i < |candidates| && candidates[i] == Some(r)
      && forall j :: 0 <= j < i ==> !Truthy(candidates[j])
  {
    if candidates == [] then ""
    else if Truthy(candidates[0]) then candidates[0].value
    else
      var r := FirstNonEmpty(candidates[1..]);
      assert forall i :: 1 <= i < |candidates| ==> candidates[i] == candidates[1..][i - 1];
      r
  }

  /** The frame text as a caption source: absent when no frames were sampled. */
  function OcrSource(frames: seq<Frame>, vision: Frame -> string): Option<string>
  {
    if frames == [] then None else Some(OcrText(frames, vision))
  }

  /** The chain picks the first non-empty source in the order transcript,
      caption track, frame text. */
  lemma ChooseCaptionFirstNonEmpty(transcript: Option<string>, api: Option<string>, frames: seq<Frame>, vision: Frame -> string)
    ensures ChooseCaption(transcript, api, frames, vision) ==
      FirstNonEmpty([transcript, api, OcrSource(frames, vision)])
  {
    var ocr := OcrSource(frames, vision);
    var cands := [transcript, api, ocr];
    assert cands[1..] == [api, ocr];
    assert cands[1..][1..] == [ocr];
    assert cands[1..][1..][1..] == [];
    assert FirstNonEmpty([ocr]) == if Truthy(ocr) then ocr.value else "";
    assert FirstNonEmpty([api, ocr]) == if Truthy(api) then api.value else FirstNonEmpty([ocr]);
  }

  /** A non-empty transcript decides the caption whatever the later sources
      are; the frames matter only when both captions sources are empty. */
  lemma ChooseCaptionShortCircuits(transcript: Option<string>, api: Option<string>, api2: Option<string>,
                                   frames: seq<Frame>, frames2: seq<Frame>, vision: Frame -> string)
    ensures Truthy(transcript) ==>
      ChooseCaption(transcript, api, frames, vision) == transcript.value
      && ChooseCaption(transcript, api2, frames2, vision) == transcript.value
    ensures !Truthy(transcript) && Truthy(api) ==>
      ChooseCaption(transcript, api, frames, vision) == api.value
      && ChooseCaption(transcript, api, frames2, vision) == api.value
  {
  }

  /** With every source empty, the caption is `""`. */
  lemma ChooseCaptionNothing(transcript: Option<string>, api: Option<string>, vision: Frame -> string)
    requires !Truthy(transcript) && !Truthy(api)
    ensures ChooseCaption(transcript, api, [], vision) == ""
  {
  }
}
