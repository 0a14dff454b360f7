# trendwatch pipeline and lookup layer, modelled in Dafny

trendwatch finds trending YouTube Shorts and ranks them. First it pages through the
search service for video ids. Then it fetches the details of those ids in batches of
50 and derives per-day views and a like ratio. Rows with too few views or likes are
dropped. For each surviving video it finds a caption, taking the first non-empty of:

- the transcript;
- the first caption track;
- text a vision model reads off three frames sampled from the clip.

A text model is then asked for a topic and the "hooks" (what makes the video catchy),
and those are read out of `<topic>` and `<hooks>` tags in its answer. The finished rows
carry the caption, topic, hooks and a virality score. A small server then answers
`search` on that table (a case-insensitive title/description match, at most 20 hits)
and `fetch` (the first row with an id, or not found), behind a bearer-token check.

Every outside service is given to the model as its outcome, not called:

- the search pages, in order;
- the details response for each comma-joined batch of ids;
- a video's transcript segments, or `None` when fetching fails;
- its caption-track ids and each track's body;
- the length of the clip behind a watch URL;
- the vision model's answer for a frame;
- the text model's answer for a prompt.

These are the fields of `Pipeline.Services`. Where the source works by updating
variables in a loop, the model does too: `ShortsSearch.SearchShorts`,
`Details.FetchDetails`, `Extraction.OcrFrames`, `Pipeline.EnrichRows` and
`Pipeline.RunPipeline`. `Extraction.FindCaption` and `Pipeline.ProcessVideo` have no
loop. They are methods because they call the services one after another and record
which calls were made. Each method is proved against a function that specifies it,
and the properties are proved about those functions. Everything else is functions
and lemmas.

Files, one module each:

- `wrappers.dfy`: `Option`.
- `seqs.dfy`: filter, take, chunks, flatten.
- `text.dfy`: ASCII `strip`, join and split, `find`, ASCII lower-casing.
- `html.dfy`: the five character references of `html.escape`, with their round trip.
- `duration.dfy`: `iso8601_duration_to_seconds`.
- `records.dfy`: the row types and the watch URL.
- `search.dfy`: `search_shorts`.
- `details.dfy`: `fetch_details`.
- `popularity.dfy`: the filter.
- `extraction.dfy`: the caption sources, frame sampling and OCR.
- `analysis.dfy`: the prompt and the tag parse of `analyze_text`.
- `ranking.dfy`: `virality_score`.
- `pipeline.dfy`: `process_video` and `run_pipeline`.
- `server.dfy`: `auth_header`, `search` and `fetch`.

## Model

| member | source | states |
|---|---|---|
| Duration.DurationOfCanonical | app/pipeline.py:132-136 | A duration `PT[hH][mM][sS]` with any subset of the parts, each a non-empty run of digits (leading zeros allowed), followed by text that does not start with a digit, lasts `3600h + 60m + s`, each part read with `int`. Absent parts count as 0. |
| Duration.DurationOfNumbers | app/pipeline.py:132-136 | The same for parts given as numbers written in decimal. |
| Duration.LeadingZeroExample | app/pipeline.py:132-136 | `PT05S` gives 5. |
| Duration.TrailingTextIgnored | app/pipeline.py:132-136 | The match is anchored only at the start. Appending text that does not start with a digit to the matched prefix leaves the result unchanged. |
| Duration.DurationWithoutPT | app/pipeline.py:132-134 | Text that does not start with `PT` gives 0. |
| Duration.OutOfOrderExample | app/pipeline.py:132-136 | Out-of-order parts stop the match: `PT1M2H` gives 60. |
| Duration.TrailingTextExample | app/pipeline.py:132-136 | `PT5Sxyz` gives 5. |
| Duration.MatchGroupGreedy | app/pipeline.py:132 | An optional group `(\d+)U` takes the digits and the unit letter whenever the text starts with them. |
| Duration.MatchGroupConsumes | app/pipeline.py:132 | A group consumes nothing and counts 0, or consumes digits plus its unit letter and counts their value. |
| Duration.DecimalValue | app/pipeline.py:135 | Reading the decimal notation of `n` back with `int` gives `n`. |
| ShortsSearch.SearchShorts | app/pipeline.py:70-94 | The loop returns `ShortsFound` and makes one request per page read. Each request carries the previous page's token and `min(50, missing)` as its size. |
| ShortsSearch.PagesReadStops | app/pipeline.py:75-93 | No page is read when `max_items <= 0`. Every page read before the last had a token and left the quota unfilled. No page is requested after one without a token or after the quota is filled. |
| ShortsSearch.ShortsFoundPrefix | app/pipeline.py:94 | At most `max_items` ids, forming a prefix of all pages' ids in page order. |
| ShortsSearch.ItemsOfAppend | app/pipeline.py:90 | The ids of two runs of pages are the ids of the first run followed by those of the second. |
| Details.BatchesProperties | app/pipeline.py:99 | Each batch holds 1 to 50 ids. The batches concatenate back to the ids. There are `ceil(n/50)` batches. |
| Details.ElapsedDays | app/pipeline.py:108 | `days or 1` is never 0, is at least 1 for a publish time not in the future, and keeps every non-zero count, negative counts included. |
| Details.LikeRatioRange | app/pipeline.py:125 | For `likes >= 0` the ratio lies in [0, 1), and it is 0 exactly when there are no likes. |
| Details.LikeRatioNearOne | app/pipeline.py:125 | With at least one like the ratio lies within 1e-6 of 1. |
| Details.LikeRatioThreshold | app/pipeline.py:125 | For an integer like count, `ratio >= 0.9` holds exactly when `likes != 0`. |
| Details.RecordsOf | app/pipeline.py:101-123 | One row per item, in item order, each built by `RecordOf`. Missing counts become 0; missing description and channel become `""`. |
| Details.BatchRowsDerived | app/pipeline.py:105-122 | Every detail row has a non-zero day count, `views_per_day = views / elapsed_days`, and the like ratio of its own like count. |
| Details.FetchDetails | app/pipeline.py:97-126 | The nested loops build exactly the detail table of the batches' responses. The result is absent when there are no rows. Every row keeps the derived-metric invariant. |
| Popularity.PopularityFilterKeeps | app/pipeline.py:254 | Keeps exactly the rows with `views >= 100000` and `like_ratio >= 0.9`. Keeps their order (it distributes over concatenation). Is idempotent. |
| Popularity.PopularIffLiked | app/pipeline.py:32-33 | On a detail row, passing the filter means at least 100000 views and a non-zero like count. |
| Popularity.BelowMinViewsDropped | app/pipeline.py:254 | A row with 99999 views is dropped. |
| Ranking.ScoreMonotone | app/pipeline.py:234-235 | The score does not decrease when views, likes or views per day grow. It grows strictly with likes. |
| Records.WatchUrl | app/pipeline.py:225 | The watch URL is the fixed prefix followed by the id, and the id can be read back from it. |
| Extraction.TryCaptions | app/pipeline.py:139-144 | A failed transcript fetch gives `None`. Otherwise the segment texts are joined by newlines. |
| Extraction.TryCaptionsFallsThrough | app/pipeline.py:142 | A fetched transcript is falsy, so the next source is asked, exactly when it has no segments or one empty segment. |
| Text.SplitJoin | app/pipeline.py:142 | Splitting at the separator undoes the newline join when no piece contains a newline. |
| Extraction.TryApiCaptions | app/pipeline.py:147-156 | A failed or empty track listing gives `None`. Otherwise the result is the download of the first track. |
| Extraction.FramePositionsSpread | app/pipeline.py:169 | The positions `dur*(i+1)/(n+1)` lie strictly inside the clip, increase strictly, and are `dur/(n+1)` apart. |
| Extraction.SampleFramesSpread | app/pipeline.py:159-175 | No clip gives no frames. A clip gives `n` frames of the requested URL, strictly inside a clip of positive length, in increasing time order. |
| Extraction.FrameTexts | app/pipeline.py:196 | One stripped vision answer per frame, in frame order. |
| Extraction.OcrFrames | app/pipeline.py:178-197 | The loop returns the stripped answers for the frames, in order, joined by newlines. |
| Extraction.OcrTextEmpty | app/pipeline.py:197 | The frame text is empty exactly when there are no frames, or one frame whose answer is all whitespace. |
| Extraction.FindCaption | app/pipeline.py:223-229 | Returns the caption `ChooseCaption` gives. Caption tracks are listed only after a falsy transcript. Frames are sampled only after both captions are falsy. The vision model is asked only about sampled frames. |
| Extraction.FirstNonEmpty | app/pipeline.py:223-229 | The result is `""` exactly when no candidate is truthy. Otherwise it is the first truthy candidate. |
| Extraction.ChooseCaptionFirstNonEmpty | app/pipeline.py:223-229 | The caption is the first non-empty of transcript, caption track and frame text (the last only when frames were sampled), else `""`. |
| Extraction.ChooseCaptionShortCircuits | app/pipeline.py:223 | A non-empty transcript decides the caption whatever the later sources are. A non-empty caption track decides it whatever the frames are. |
| Extraction.ChooseCaptionNothing | app/pipeline.py:228-229 | With both captions empty and no frames the caption is `""`. |
| TextAnalysis.Prompt | app/pipeline.py:201-206 | The prompt is the fixed instructions followed by the text, and the text can be read back from it. |
| TextAnalysis.TagSpanLeftmostShortest | app/pipeline.py:214-215 | The span found is the one `re.search` reports for `<name>(.*?)</name>` with DOTALL: leftmost start, then shortest body. None is found only when there is no match. |
| TextAnalysis.ExtractTagWellFormed | app/pipeline.py:214-218 | In `pre <name>content</name> post`, when no opening tag starts inside `pre` and no closing tag starts inside `content`, the tag's value is `content` stripped and then unescaped, whatever `post` holds. |
| TextAnalysis.ExtractTagPlain | app/pipeline.py:214-218 | The same holds whenever `pre` and `content` contain no `<`. |
| TextAnalysis.AnalyzeTwoTags | app/pipeline.py:201-219 | The answer the prompt asks for, `<topic>t</topic>`, a separator, then `<hooks>h</hooks>`, with no `<` in `t`, the separator or `h`: the topic is `t` and the hooks are `h`, each stripped and unescaped. |
| TextAnalysis.ExtractTagMissing | app/pipeline.py:217-218 | Without an opening tag the value is `""`. |
| TextAnalysis.ExtractTagAlone | app/pipeline.py:214-219 | An answer made of one tag gives that tag's content, and `""` for a tag with a different first letter. |
| TextAnalysis.TopicOnlyExample | app/pipeline.py:214-219 | `<topic>cooking</topic>` alone gives topic `cooking` and empty hooks. |
| Text.StripSlice | app/pipeline.py:217 | `strip()` returns the slice between a whitespace prefix and a whitespace suffix, and the result neither starts nor ends with whitespace. |
| Text.StripIdempotent | app/pipeline.py:196 | Stripping twice is stripping once. |
| Html.UnescapeEscape | app/pipeline.py:217 | `html.unescape` undoes `html.escape` on every string. |
| Html.UnescapePlain | app/pipeline.py:217 | Text without `&` is left unchanged by unescaping. |
| Pipeline.EnrichmentOfChain | app/pipeline.py:222-231 | `process_video`'s caption is the first non-empty source, and its topic and hooks are those of the model's answer about that caption. |
| Pipeline.ProcessVideo | app/pipeline.py:222-231 | Returns the video's enrichment. Caption tracks are listed only after a falsy transcript. Frames of the video's watch URL are sampled only after both captions are falsy, and only those frames go to the vision model. |
| Pipeline.EnrichRows | app/pipeline.py:257-268 | The three lists have one entry per filtered row, in row order, each entry from that row's own `process_video`. |
| Pipeline.AttachedColumns | app/pipeline.py:270-273 | Attaching the collected columns and the score gives every row its own enrichment. |
| Pipeline.RunPipeline | app/pipeline.py:238-277 | Search, details, filter, then enrichment and score. The result is the table `PipelineResult` describes, or nothing when the details produced no table. |
| Pipeline.PipelineResultRows | app/pipeline.py:250-273 | One result row per filtered row, in the same order. Each row passed the filter, keeps the derived-metric invariant, and carries its own caption and score. |
| Server.AuthHeader | app/server.py:72-73 | A request is rejected exactly when a token is configured and the header is not `Bearer <token>`. |
| Server.AuthHeaderExactlyOne | app/server.py:72-73 | With no token everything passes. With a token, a missing header is rejected and only one header value passes. |
| Server.SearchFirstMatches | app/server.py:78-88 | The hits are those of the first matching rows in table order: 20 of them, or all when fewer match. Each hit carries its row's id and the watch URL for that id. |
| Server.SearchFindsAll | app/server.py:79-80 | When at most 20 rows match, every matching row has its hit. |
| Server.SearchStableUnderAppend | app/server.py:80 | Once 20 rows match, rows added after them do not change the hits. |
| Server.SearchIgnoresQueryCase | app/server.py:79 | Searching for the lower-cased query gives the same hits. |
| Server.FirstWithId | app/server.py:93-96 | Finds no position exactly when no row has the id. Otherwise it finds the first row with the id. |
| Server.FetchFirstRow | app/server.py:91-110 | Not found exactly when no row has the id. Otherwise the document of the first such row: id and URL from the request; title from the row; text = description + separator + captions; metadata = the row's publish date, views, likes, score, topic and hooks. |
| Server.DocumentTextSplits | app/server.py:100 | The description and the captions can always be cut back out of the text. The first separator sits right after the description exactly when the description, followed by the separator minus its last character, does not contain the separator. |

## Left out

- Network clients are outside the model: the YouTube Data API, the transcript API, pytube/pytubefix download, moviepy decoding and the OpenAI calls. They appear only as the outcomes in `Pipeline.Services`.
- PNG and base64 encoding of frames, the model names and the message layout of the chat requests are out of scope, because only the answers matter to the logic.
- Exceptions are modelled only where the source catches them:
  - a failed transcript fetch is `None`;
  - a failed caption-track listing or download is `None`;
  - a clip that cannot be opened gives no frames.
- Extraction.TryApiCaptions: the source catches only `HttpError`, and any other failure would propagate. The model folds every failure into `None`.
- `ocr_frames` and `analyze_text` are unguarded in the source. An exception there would abort the pipeline, and the model has no such outcome.
- `datetime` parsing and the wall clock are not modelled. `(now - publish).days` is an integer input of each detail item, and the publish time is kept as text.
- `publishedAfter` and the fixed search parameters of the search request are not modelled. The request records the query, the token and the size only.
- Floating point is not modelled. The like ratio, views per day and score are exact `real`s, so IEEE rounding is absent.
- `html.unescape` covers only the five references that `html.escape` emits. Other references and numeric forms are kept as they are.
- `textwrap.shorten(_, 140)` is a function parameter of `Server.Search` and is not interpreted.
- The `search` query is matched literally. pandas treats it as a regular expression, so a query containing regex syntax behaves differently.
- `strip()` and case-insensitive comparison are ASCII only; Unicode whitespace and case folding are not modelled.
- ShortsSearch.SearchShorts: the search service's pages are a finite list, so the loop also stops when the list runs out. A service that keeps returning tokens with empty pages would make the original loop run forever, and the model cannot express that.
- Details.FetchDetails: with no rows, pandas fails with a `KeyError` on the missing `likes` column. The model returns `None`, and `run_pipeline` then returns `None`.
- Console output, progress bars, `argparse`/`cli`, the MCP launch, `load_keys`, CSV and parquet I/O, and `save_parquet` are I/O with no logic to check.
- In the server, the module-level data loading and `_generate_sample_df` are not modelled. The table is a parameter.
- Middleware and `async` plumbing and `StaticFiles` are not modelled. Only the authorization decision is kept.
- In `fetch`, pandas `int(...)`/`float(...)` conversions are identities on the modelled types.
- `\d` in `iso8601_duration_to_seconds` and `int()` accept every Unicode decimal digit, such as the Arabic-Indic digits; the model accepts ASCII digits only. For example `PT\u0665S` lasts 5 seconds in the source and 0 in the model.
