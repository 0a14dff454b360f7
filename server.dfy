/** The lookup layer served over the finished table: the bearer-token check,
    `search` and `fetch`. The table is read-only here. */
module Server {
  import opened Wrappers
  import opened Seqs
  import opened Text
  import opened Records

  /** `search` returns at most this many hits (`head(20)`). */
  const SEARCH_LIMIT: int := 20

  const BEARER_PREFIX := "Bearer "

  /** What the middleware does with a request. */
  datatype Gate = Unauthorized | PassOn

  /** `auth_header`: with a configured token, a request passes only with
      the header `Authorization: Bearer <token>` exactly; with no token
      configured every request passes. `authorization` is the header's
      value, absent when the request has none. */
  function AuthHeader(apiToken: string, authorization: Option<string>): (g: Gate)
    ensures g == Unauthorized <==> apiToken != "" && authorization != Some(BEARER_PREFIX + apiToken)
  {
    if apiToken != "" && authorization != Some(BEARER_PREFIX + apiToken) then Unauthorized else PassOn
  }

  /** With a token configured exactly one header value opens the gate, and
      a missing header never does; with none configured the gate is open. */
  lemma AuthHeaderExactlyOne(apiToken: string, h1: Option<string>, h2: Option<string>)
    ensures apiToken == "" ==> AuthHeader(apiToken, h1) == PassOn
    ensures apiToken != "" ==> AuthHeader(apiToken, None) == Unauthorized
    ensures apiToken != "" && AuthHeader(apiToken, h1) == PassOn && AuthHeader(apiToken, h2) == PassOn ==> h1 == h2
    ensures AuthHeader(apiToken, Some(BEARER_PREFIX + apiToken)) == PassOn
  {
  }

  /** One search hit. */
  datatype Hit = Hit(id: string, title: string, text: string, url: string)

  /** The mask of `search`: the title or the description contains the query,
      ignoring ASCII case (the query is taken literally). */
  predicate Matches(r: ResultRow, query: string)
  {
    ContainsIgnoreCase(r.video.title, query) || ContainsIgnoreCase(r.video.description, query)
  }

  /** The hit for a row; `shorten` stands for `textwrap.shorten(_, 140)`. */
  function HitOf(r: ResultRow, shorten: string -> string): Hit
  {
    Hit(r.video.videoId, r.video.title, shorten(r.video.description), WatchUrl(r.video.videoId))
  }

  /** The matching rows, in table order. */
  function MatchingRows(table: seq<ResultRow>, query: string): seq<ResultRow>
  {
    Filter(table, (r: ResultRow) => Matches(r, query))
  }

  /** `search(query)`: the hits for the first 20 matching rows. */
  function Search(table: seq<ResultRow>, query: string, shorten: string -> string): seq<Hit>
  {
    var sub := Take(MatchingRows(table, query), SEARCH_LIMIT);
    seq(|sub|, i requires 0 <= i < |sub| => HitOf(sub[i], shorten))
  }

  /** The hits are those of the first matching rows, in table order, at most
      20 of them and fewer only when fewer rows match; each carries its row's
      id and the watch URL built from that id. */
  lemma SearchFirstMatches(table: seq<ResultRow>, query: string, shorten: string -> string)
    ensures var hits, rows := Search(table, query, shorten), MatchingRows(table, query);
      && |hits| == (if |rows| < SEARCH_LIMIT then |rows| else SEARCH_LIMIT)
      && forall i :: 0 <= i < |hits| ==>
        && Matches(rows[i], query) && rows[i] in table
        && hits[i] == HitOf(rows[i], shorten)
        && hits[i].url == WATCH_URL_PREFIX + hits[i].id
  {
    var p := (r: ResultRow) => Matches(r, query);
    FilterSound(table, p);
    forall r | r in MatchingRows(table, query) ensures r in table {
      FilterMembers(table, p, r);
    }
  }

  /** When fewer than 20 rows match, every matching row has its hit. */
  lemma SearchFindsAll(table: seq<ResultRow>, query: string, shorten: string -> string, r: ResultRow)
    requires |MatchingRows(table, query)| <= SEARCH_LIMIT
    requires r in table && Matches(r, query)
    ensures HitOf(r, shorten) in Search(table, query, shorten)
  {
    var p := (r: ResultRow) => Matches(r, query);
    FilterMembers(table, p, r);
    var rows := MatchingRows(table, query);
    var j :| 0 <= j < |rows| && rows[j] == r;
    assert Search(table, query, shorten)[j] == HitOf(r, shorten);
  }

  /** Once 20 rows match, rows added after them do not change the hits. */
  lemma SearchStableUnderAppend(table: seq<ResultRow>, more: seq<ResultRow>, query: string, shorten: string -> string)
    requires |MatchingRows(table, query)| >= SEARCH_LIMIT
    ensures Search(table + more, query, shorten) == Search(table, query, shorten)
  {
    var p := (r: ResultRow) => Matches(r, query);
    FilterAppend(table, more, p);
    var a := MatchingRows(table, query);
    assert MatchingRows(table + more, query) == a + MatchingRows(more, query);
    assert Take(a + MatchingRows(more, query), SEARCH_LIMIT) == Take(a, SEARCH_LIMIT);
  }

  lemma {:induction false} LowerIdempotent(s: string)
    ensures Lower(Lower(s)) == Lower(s)
  {
    forall i | 0 <= i < |s| ensures Lower(Lower(s))[i] == Lower(s)[i] {
      var c := s[i];
      assert Lower(s)[i] == LowerChar(c);
      if 'A' <= c <= 'Z' {
        assert !('A' <= LowerChar(c) <= 'Z');
      }
    }
  }

  /** The query's letter case does not matter: searching for its lower-case
      form gives the same hits. */
  lemma SearchIgnoresQueryCase(table: seq<ResultRow>, query: string, shorten: string -> string)
    ensures Search(table, Lower(query), shorten) == Search(table, query, shorten)
  {
    LowerIdempotent(query);
    FilterSamePredicate(table, (r: ResultRow) => Matches(r, Lower(query)), (r: ResultRow) => Matches(r, query));
  }

  /** The `metadata` part of a fetched document. */
  datatype Metadata = Metadata(publishDt: string, views: int, likes: int, viralityScore: real, topic: string, catchy: string)

  /** A fetched document. */
  datatype Document = Document(id: string, title: string, text: string, url: string, metadata: Metadata)

  /** `fetch` either answers with a document or with 404 Not Found. */
  datatype FetchResult = NotFound | Found(doc: Document)

  const CAPTIONS_SEPARATOR := "\n\nCaptions:\n"

  /** The position of the first row with the given id. */
  function FirstWithId(table: seq<ResultRow>, id: string): (r: Option<nat>)
    ensures r.None? <==> forall i :: 0 <= i < |table| ==> table[i].video.videoId != id
    ensures r.Some? ==>
      && r.value < |table| && table[r.value].video.videoId == id
      && forall i :: 0 <= i < r.value ==> table[i].video.videoId != id
  {
    if |table| == 0 then None
    else if table[0].video.videoId == id then Some(0)
    else
      match FirstWithId(table[1..], id)
      case None => None
      case Some(k) => Some(k + 1)
  }

  /** The document for row `r`, requested as `id`. */
  function DocumentOf(r: ResultRow, id: string): Document
  {
    Document(id, r.video.title, r.video.description + CAPTIONS_SEPARATOR + r.captions, WatchUrl(id),
      Metadata(r.video.publishDt, r.video.views, r.video.likes, r.viralityScore, r.topic, r.catchyFactors))
  }

  /** `fetch(id)`. */
  function Fetch(table: seq<ResultRow>, id: string): FetchResult
  {
    match FirstWithId(table, id)
    case None => NotFound
    case Some(i) => Found(DocumentOf(table[i], id))
  }

  /** Not found exactly when no row has the id; otherwise the document of
      the first such row, whose text holds the description and the captions
      around a fixed separator, whose id and URL come from the request, and
      whose metadata are the row's date, counts, score, topic and hooks. */
  lemma FetchFirstRow(table: seq<ResultRow>, id: string)
    ensures Fetch(table, id) == NotFound <==> forall i :: 0 <= i < |table| ==> table[i].video.videoId != id
    ensures Fetch(table, id).Found? ==> exists i ::
      && 0 <= i < |table| && table[i].video.videoId == id
      && (forall j :: 0 <= j < i ==> table[j].video.videoId != id)
      && var d := Fetch(table, id).doc;
      && d.id == id && d.url == WATCH_URL_PREFIX + id
      && d.title == table[i].video.title
      && d.text == table[i].video.description + CAPTIONS_SEPARATOR + table[i].captions
      && d.metadata == Metadata(table[i].video.publishDt, table[i].video.views, table[i].video.likes,
           table[i].viralityScore, table[i].topic, table[i].catchyFactors)
  {
    if FirstWithId(table, id).Some? {
      var i := FirstWithId(table, id).value;
      assert table[i].video.videoId == id;
    }
  }

  /** The description and the captions can always be cut back out of the
      text, and the first separator in the text is the one right after the
      description exactly when the description, followed by the separator
      without its last character, does not contain the separator. */
  lemma DocumentTextSplits(r: ResultRow, id: string)
    ensures var t, d := DocumentOf(r, id).text, r.video.description;
      && (Find(t, CAPTIONS_SEPARATOR, 0) == Some(|d|)
          <==> !Contains(d + CAPTIONS_SEPARATOR[..|CAPTIONS_SEPARATOR| - 1], CAPTIONS_SEPARATOR))
      && t[..|d|] == d && t[|d| + |CAPTIONS_SEPARATOR|..] == r.captions
  {
    var t, d := DocumentOf(r, id).text, r.video.description;
    FirstAfterIff(t, d, CAPTIONS_SEPARATOR, r.captions);
    assert t[..|d|] == d;
    assert t[|d| + |CAPTIONS_SEPARATOR|..] == r.captions;
  }
}
