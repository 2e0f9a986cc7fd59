/**
 * The marker-and-slice extractors of the resolve pipeline: each finds a fixed
 * marker with `find` or `rfind` and slices up to the next quote. Every one
 * has a default for a missing marker, and none validates what it cuts out.
 */
module Extract {
  import opened Wrappers
  import opened PyStr

  const TwitterPlayer := "twitter:player"
  const TwitterTitle := "twitter:title"
  const StreamUrlBegin := "https://api-v2.soundcloud.com/media/soundcloud:tracks:"
  const StreamUrlEnd := "/stream/hls"
  const BaseUrlThumbnail := "i1.sndcdn.com/a"
  const StreamIdBegin := "media/soundcloud:tracks:"
  const StreamIdEnd := "/stream"
  const ClientIdMarker := "client_id="
  const Https := "https://"
  const DefaultFilename := "soundloader_download"

  /** An occurrence of `pat` at `k` puts `pat[i - k]` at every index `i` it covers. */
  lemma OccursAtChar(s: string, pat: string, k: int, i: int)
    requires OccursAt(s, pat, k) && k <= i < k + |pat|
    ensures s[i] == pat[i - k]
  {
    assert s[k..k + |pat|][i - k] == s[i];
  }

  /**
   * `s[start:s.find('"', start)]`: the text from `start` up to the next
   * quote. It never holds a quote: when no quote follows, `find` gives -1 and
   * the slice stops one character short of the end.
   */
  function QuoteBounded(s: string, start: int): (r: string)
    ensures '"' !in r
  {
    var e := Find(s, "\"", start);
    var a := SliceIndex(start, |s|);
    var b := SliceIndex(e, |s|);
    assert forall k :: a <= k < b ==> s[k] != '"' by {
      forall k | a <= k < b ensures s[k] != '"' {
        OneCharOccurs(s, '"', k);
      }
    }
    Slice(s, start, e)
  }

  /** With a quote after `start`, the slice is exactly the text up to the first one. */
  lemma QuoteBoundedBetween(s: string, start: nat, e: int)
    requires FirstAt(s, "\"", start, e)
    ensures QuoteBounded(s, start) == s[start..e]
  {
    FindIsFirst(s, "\"", start, e);
  }

  /**
   * The lookup shared by the player URL and the file name: the first
   * `marker`, then the first `key` from a point `from` at or past it, then
   * the text from nine characters past `key` up to the next quote.
   */
  lemma ContentBetween(html: string, marker: string, key: string, p: nat, from: nat, q: nat, e: nat)
    requires FirstAt(html, marker, 0, p)
    requires FirstAt(html, key, from, q)
    requires FirstAt(html, "\"", q + 9, e)
    ensures Contains(html, marker) && Find(html, marker, 0) == p
    ensures Find(html, key, from) == q
    ensures QuoteBounded(html, q + 9) == html[q + 9..e]
  {
    FindIsFirst(html, marker, 0, p);
    assert OccursAt(html, marker, p);
    FindIsFirst(html, key, from, q);
    QuoteBoundedBetween(html, q + 9, e);
  }

  /** `extract_player_url`. */
  function ExtractPlayerUrl(html: string): (r: string)
    ensures !Contains(html, TwitterPlayer) ==> r == ""
    ensures '"' !in r
  {
    if Contains(html, TwitterPlayer) then
      var searchIndex := Find(html, TwitterPlayer, 0) + |TwitterPlayer|;
      var startIndex := Find(html, "content", searchIndex) + 9;
      QuoteBounded(html, startIndex)
    else
      ""
  }

  /**
   * The player URL is the text from nine characters past the first `content`
   * after the first `twitter:player` (just past `content="` in a well-formed
   * tag) up to the next quote.
   */
  lemma PlayerUrlIsContent(html: string, p: nat, q: nat, e: nat)
    requires FirstAt(html, TwitterPlayer, 0, p)
    requires FirstAt(html, "content", p + |TwitterPlayer|, q)
    requires FirstAt(html, "\"", q + 9, e)
    ensures ExtractPlayerUrl(html) == html[q + 9..e]
  {
    ContentBetween(html, TwitterPlayer, "content", p, p + |TwitterPlayer|, q, e);
  }

  /** The `filename` part of `extract_info`: the `content` of `twitter:title`. */
  function TitleFilename(html: string): (r: string)
    ensures !Contains(html, TwitterTitle) ==> r == DefaultFilename
    ensures '"' !in r
  {
    if Contains(html, TwitterTitle) then
      var searchIndex := Find(html, TwitterTitle, 0);
      var startIndex := Find(html, "content", searchIndex) + 9;
      QuoteBounded(html, startIndex)
    else
      DefaultFilename
  }

  /**
   * The file name is the text from nine characters past the first `content`
   * at or after the first `twitter:title` (just past `content="` in a
   * well-formed tag) up to the next quote.
   */
  lemma TitleIsContent(html: string, p: nat, q: nat, e: nat)
    requires FirstAt(html, TwitterTitle, 0, p)
    requires FirstAt(html, "content", p, q)
    requires FirstAt(html, "\"", q + 9, e)
    ensures TitleFilename(html) == html[q + 9..e]
  {
    ContentBetween(html, TwitterTitle, "content", p, p, q, e);
  }

  /** The thumbnail part of `extract_info`: `https://` and the text from the base path to the next quote. */
  function ThumbnailUrl(html: string): (r: string)
    ensures r == "" <==> !Contains(html, BaseUrlThumbnail)
    ensures '"' !in r
  {
    if Contains(html, BaseUrlThumbnail) then
      var startIndex := Find(html, BaseUrlThumbnail, 0);
      Https + QuoteBounded(html, startIndex)
    else
      ""
  }

  /** The base path holds no quote, so the next quote after it comes after its end. */
  lemma QuoteAfterBase(html: string, p: nat)
    requires OccursAt(html, BaseUrlThumbnail, p)
    ensures Find(html, "\"", p) == -1 || Find(html, "\"", p) >= p + |BaseUrlThumbnail|
  {
    forall k | p <= k < p + |BaseUrlThumbnail|
      ensures !OccursAt(html, "\"", k)
    {
      OccursAtChar(html, BaseUrlThumbnail, p, k);
      OneCharOccurs(html, '"', k);
    }
  }

  /** A slice that reaches past `i + n` begins with `s[i..i + n]`. */
  lemma SlicePrefix(s: string, i: nat, j: nat, n: nat)
    requires i + n <= j <= |s|
    ensures StartsWith(s[i..j], s[i..i + n])
  {
    assert s[i..j][..n] == s[i..i + n];
  }

  /** Putting the same text in front keeps a prefix a prefix. */
  lemma StartsWithPrepend(a: string, t: string, b: string)
    requires StartsWith(t, b)
    ensures StartsWith(a + t, a + b)
  {
    assert (a + t)[..|a + b|] == a + t[..|b|];
  }

  /**
   * A thumbnail URL starts with `https://i1.sndcdn.com/a` whenever the base
   * path is not the very end of the page.
   */
  lemma ThumbnailHasBase(html: string, p: nat)
    requires FirstAt(html, BaseUrlThumbnail, 0, p)
    requires p + |BaseUrlThumbnail| < |html|
    ensures StartsWith(ThumbnailUrl(html), Https + BaseUrlThumbnail)
  {
    FindIsFirst(html, BaseUrlThumbnail, 0, p);
    QuoteAfterBase(html, p);
    var e := Find(html, "\"", p);
    var b := if e != -1 then e else |html| - 1;
    assert QuoteBounded(html, p) == html[p..b];
    SlicePrefix(html, p, b, |BaseUrlThumbnail|);
    assert html[p..p + |BaseUrlThumbnail|] == BaseUrlThumbnail;
    StartsWithPrepend(Https, html[p..b], BaseUrlThumbnail);
  }

  /**
   * Without a quote after the base path, `find` gives -1 and the thumbnail
   * URL loses the page's last character.
   */
  lemma ThumbnailWithoutQuoteIsCut(html: string, p: nat)
    requires FirstAt(html, BaseUrlThumbnail, 0, p)
    requires forall k :: p <= k < |html| ==> html[k] != '"'
    ensures ThumbnailUrl(html) == Https + html[p..|html| - 1]
  {
    FindIsFirst(html, BaseUrlThumbnail, 0, p);
    forall k | p <= k ensures !OccursAt(html, "\"", k) {
      OneCharOccurs(html, '"', k);
    }
  }

  /** The `meta` region of `extract_info`: from the first `<h1` up to the next `<meta`. */
  function MetaRegion(html: string): (r: string)
    ensures |r| <= |html|
    ensures !(Contains(html, "<h1") && Contains(html, "<meta")) ==> r == ""
  {
    if Contains(html, "<h1") && Contains(html, "<meta") then
      var start := Find(html, "<h1", 0);
      var end := Find(html, "<meta", start);
      Slice(html, start, end)
    else
      ""
  }

  /** With a `<meta` after the first `<h1`, the region is exactly the text between them. */
  lemma MetaRegionBetween(html: string, h: nat, m: nat)
    requires FirstAt(html, "<h1", 0, h)
    requires FirstAt(html, "<meta", h, m)
    ensures MetaRegion(html) == html[h..m]
  {
    FindIsFirst(html, "<h1", 0, h);
    FindIsFirst(html, "<meta", h, m);
  }

  /** `meta[start:meta.find("</a", start)]` with `start = meta.find(">", search)`. */
  function AnchorText(meta: string, search: int): string {
    var start := Find(meta, ">", search);
    Slice(meta, start, Find(meta, "</a", start))
  }

  /** What `extract_info` returns. */
  datatype TrackInfo = TrackInfo(filename: string, thumbnailUrl: string, title: string, artist: string)

  /** `extract_info`. */
  function ExtractInfo(html: string): (r: TrackInfo)
    ensures !Contains(html, TwitterTitle) ==> r.filename == DefaultFilename
    ensures '"' !in r.filename
    ensures r.thumbnailUrl == "" <==> !Contains(html, BaseUrlThumbnail)
    ensures !Contains(MetaRegion(html), "<a") ==> r.title == r.filename && r.artist == ""
  {
    var filename := TitleFilename(html);
    var tUrl := ThumbnailUrl(html);
    var meta := MetaRegion(html);
    if Contains(meta, "<a") then
      TrackInfo(filename, tUrl, AnchorText(meta, Find(meta, "<a", 0)), AnchorText(meta, RFind(meta, "<a")))
    else
      TrackInfo(filename, tUrl, filename, "")
  }

  /**
   * The text of an anchor whose `>` is at `g` and whose `</a` is at `h`
   * starts at the `>` itself.
   */
  lemma AnchorTextBetween(meta: string, a: nat, g: nat, h: nat)
    requires FirstAt(meta, ">", a, g) && FirstAt(meta, "</a", g, h)
    ensures AnchorText(meta, a) == meta[g..h]
    ensures StartsWith(AnchorText(meta, a), ">")
  {
    FindIsFirst(meta, ">", a, g);
    FindIsFirst(meta, "</a", g, h);
    OccursAtChar(meta, ">", g, g);
    OccursAtChar(meta, "</a", h, h);
    assert meta[g..h][..1] == [meta[g]];
  }

  /** With an anchor in the region, title and artist are the texts of its first and last anchors. */
  lemma InfoFromAnchors(html: string)
    ensures var meta := MetaRegion(html);
            Contains(meta, "<a") ==>
              && ExtractInfo(html).title == AnchorText(meta, Find(meta, "<a", 0))
              && ExtractInfo(html).artist == AnchorText(meta, RFind(meta, "<a"))
  {
  }

  /** The title is the text of the region's first anchor. */
  lemma TitleAnchor(html: string, a: nat)
    requires FirstAt(MetaRegion(html), "<a", 0, a)
    ensures ExtractInfo(html).title == AnchorText(MetaRegion(html), a)
  {
    FindIsFirst(MetaRegion(html), "<a", 0, a);
    InfoFromAnchors(html);
  }

  /** The artist is the text of the region's last anchor. */
  lemma ArtistAnchor(html: string, a: nat)
    requires LastAt(MetaRegion(html), "<a", a)
    ensures ExtractInfo(html).artist == AnchorText(MetaRegion(html), a)
  {
    RFindIsLast(MetaRegion(html), "<a", a);
    InfoFromAnchors(html);
  }

  /** With a single anchor in the region, the artist is the title's text. */
  lemma OneAnchor(html: string, a: nat)
    requires FirstAt(MetaRegion(html), "<a", 0, a) && LastAt(MetaRegion(html), "<a", a)
    ensures ExtractInfo(html).artist == ExtractInfo(html).title
  {
    TitleAnchor(html, a);
    ArtistAnchor(html, a);
  }

  /**
   * The title is the text of the first anchor of the region, and it begins
   * with the anchor's closing `>` itself.
   */
  lemma TitleIsFirstAnchor(html: string, a: nat, g: nat, h: nat)
    requires FirstAt(MetaRegion(html), "<a", 0, a)
    requires FirstAt(MetaRegion(html), ">", a, g)
    requires FirstAt(MetaRegion(html), "</a", g, h)
    ensures ExtractInfo(html).title == MetaRegion(html)[g..h]
    ensures StartsWith(ExtractInfo(html).title, ">")
  {
    TitleAnchor(html, a);
    AnchorTextBetween(MetaRegion(html), a, g, h);
  }

  /**
   * The artist is the text of the last anchor of the region, and it begins
   * with that anchor's closing `>`.
   */
  lemma ArtistIsLastAnchor(html: string, a: nat, g: nat, h: nat)
    requires LastAt(MetaRegion(html), "<a", a)
    requires FirstAt(MetaRegion(html), ">", a, g)
    requires FirstAt(MetaRegion(html), "</a", g, h)
    ensures ExtractInfo(html).artist == MetaRegion(html)[g..h]
    ensures StartsWith(ExtractInfo(html).artist, ">")
  {
    ArtistAnchor(html, a);
    AnchorTextBetween(MetaRegion(html), a, g, h);
  }

  /** The `client_id=` slice of `get_client_id_from`. */
  function ClientIdFrom(jsText: string): (r: string)
    ensures !Contains(jsText, ClientIdMarker) ==> r == ""
    ensures '"' !in r
  {
    if Contains(jsText, ClientIdMarker) then
      var start := Find(jsText, ClientIdMarker, 0) + 10;
      QuoteBounded(jsText, start)
    else
      ""
  }

  /** The client id is exactly the text between the first `client_id=` and the next quote. */
  lemma ClientIdIsQuoted(jsText: string, p: nat, e: nat)
    requires FirstAt(jsText, ClientIdMarker, 0, p)
    requires FirstAt(jsText, "\"", p + |ClientIdMarker|, e)
    ensures ClientIdFrom(jsText) == jsText[p + |ClientIdMarker|..e]
  {
    FindIsFirst(jsText, ClientIdMarker, 0, p);
    QuoteBoundedBetween(jsText, p + |ClientIdMarker|, e);
  }

  /** The slice of `fetch_playlist_url`: from the first `https://` to the next quote, if there is one. */
  function PlaylistUrlIn(jsonText: string): (r: Option<string>)
    ensures r.None? <==> !Contains(jsonText, Https)
    ensures r.Some? ==> '"' !in r.value
  {
    if Contains(jsonText, Https) then
      var start := Find(jsonText, Https, 0);
      Some(QuoteBounded(jsonText, start))
    else
      None
  }

  /** With a quote after the first `https://`, the playlist URL is that URL, up to the quote. */
  lemma PlaylistUrlIsQuoted(jsonText: string, p: nat, e: nat)
    requires FirstAt(jsonText, Https, 0, p)
    requires FirstAt(jsonText, "\"", p, e)
    ensures PlaylistUrlIn(jsonText) == Some(jsonText[p..e])
    ensures StartsWith(jsonText[p..e], Https)
  {
    FindIsFirst(jsonText, Https, 0, p);
    QuoteBoundedBetween(jsonText, p, e);
    if e < p + |Https| {
      OccursAtChar(jsonText, Https, p, e);
      OneCharOccurs(jsonText, '"', e);
      assert false;
    }
    assert jsonText[p..e][..|Https|] == jsonText[p..p + |Https|];
  }

  /** The stream id of `start_load_audio`: between the last stream-id marker and the last `/stream`. */
  function StreamId(html: string): (r: Option<string>)
    ensures r.None? <==> !(Contains(html, StreamIdBegin) && Contains(html, StreamIdEnd))
  {
    if Contains(html, StreamIdBegin) && Contains(html, StreamIdEnd) then
      var start := RFind(html, StreamIdBegin) + |StreamIdBegin|;
      var end := RFind(html, StreamIdEnd);
      Some(Slice(html, start, end))
    else
      None
  }

  /** When the last `/stream` follows the last marker, the id is the text between them. */
  lemma StreamIdBetween(html: string, b: nat, e: nat)
    requires LastAt(html, StreamIdBegin, b) && LastAt(html, StreamIdEnd, e)
    requires b + |StreamIdBegin| <= e
    ensures StreamId(html) == Some(html[b + |StreamIdBegin|..e])
  {
    RFindIsLast(html, StreamIdBegin, b);
    RFindIsLast(html, StreamIdEnd, e);
  }

  /** When the last `/stream` comes before the end of the last marker, the id is empty. */
  lemma StreamIdEmpty(html: string, b: nat, e: nat)
    requires LastAt(html, StreamIdBegin, b) && LastAt(html, StreamIdEnd, e)
    requires e < b + |StreamIdBegin|
    ensures StreamId(html) == Some("")
  {
    RFindIsLast(html, StreamIdBegin, b);
    RFindIsLast(html, StreamIdEnd, e);
  }

  /** `STREAM_URL_BEGIN + id + STREAM_URL_END`. */
  function StreamUrl(id: string): (r: string)
    ensures StartsWith(r, StreamUrlBegin) && EndsWith(r, StreamUrlEnd)
    ensures |r| == |StreamUrlBegin| + |id| + |StreamUrlEnd|
    ensures r[|StreamUrlBegin|..|StreamUrlBegin| + |id|] == id
  {
    StreamUrlBegin + id + StreamUrlEnd
  }

  /** `stream_url + "?client_id=" + client_id`. */
  function FullStreamUrl(streamUrl: string, clientId: string): (r: string)
    ensures StartsWith(r, streamUrl + "?client_id=") && EndsWith(r, clientId)
  {
    streamUrl + "?client_id=" + clientId
  }

  /** The `vi_webp` and `.webp` rewrites of the `.webp` branch. */
  function WebpAsJpg(url: string): string {
    Replace(Replace(url, "vi_webp", "vi"), ".webp", ".jpg")
  }

  /** No occurrence of `pat` can straddle into `b` when `b` starts with a character `pat` has only at its start. */
  lemma NoStraddleAtMarker(a: string, b: string, pat: string)
    requires b != [] && forall d :: 1 <= d < |pat| ==> pat[d] != b[0]
    ensures NoStraddle(a, b, pat)
  {
    forall k | 0 <= k < |a| < k + |pat| ensures !OccursAt(a + b, pat, k) {
      assert (a + b)[|a|] == b[0];
      if OccursAt(a + b, pat, k) {
        OccursAtChar(a + b, pat, k, |a|);
      }
    }
  }

  /**
   * The `.webp` rewrite turns a URL ending in `.webp` into one ending in
   * `.jpg`: the final `.webp` becomes `.jpg` and the rest is rewritten on its own.
   */
  lemma WebpBecomesJpg(prefix: string)
    ensures WebpAsJpg(prefix + ".webp") == WebpAsJpg(prefix) + ".jpg"
    ensures EndsWith(WebpAsJpg(prefix + ".webp"), ".jpg")
  {
    NoStraddleAtMarker(prefix, ".webp", "vi_webp");
    ReplaceConcat(prefix, ".webp", "vi_webp", "vi");
    var once := Replace(prefix, "vi_webp", "vi");
    NoStraddleAtMarker(once, ".webp", ".webp");
    ReplaceConcat(once, ".webp", ".webp", ".jpg");
    assert ".webp"[..5] == ".webp" && ".webp"[5..] == "";
    assert Replace(".webp", ".webp", ".jpg") == ".jpg";
  }

  /** A URL ends in at most one of the three extensions the thumbnail branch tests. */
  lemma ExtensionsExclusive(url: string)
    ensures !(EndsWith(url, ".jpg") && EndsWith(url, ".webp"))
    ensures !(EndsWith(url, ".jpg") && EndsWith(url, ".png"))
    ensures !(EndsWith(url, ".webp") && EndsWith(url, ".png"))
  {
    if EndsWith(url, ".webp") {
      assert url[|url| - 1] == ".webp"[4];
    }
  }

  /** A thumbnail URL and the file name it is saved under. */
  datatype Thumbnail = Thumbnail(fileName: string, url: string)

  /**
   * The thumbnail branch of `start_load_audio`: the file name follows the URL's
   * extension and a `.webp` URL is rewritten to ask for a JPEG. An empty URL
   * makes `thumbnail_url[thumbnail_url.rfind('.')]` raise `IndexError`: `None`.
   */
  function DeriveThumbnail(trackFilename: string, url: string): (r: Option<Thumbnail>)
    ensures r.None? <==> url == ""
    ensures EndsWith(url, ".jpg") ==> r == Some(Thumbnail(trackFilename + ".jpg", url))
    ensures EndsWith(url, ".webp") ==>
              && r.Some? && r.value.fileName == trackFilename + ".jpg"
              && r.value.url == WebpAsJpg(url) && EndsWith(r.value.url, ".jpg")
    ensures EndsWith(url, ".png") ==> r == Some(Thumbnail(trackFilename + ".png", url))
    ensures url != "" && !EndsWith(url, ".jpg") && !EndsWith(url, ".webp") && !EndsWith(url, ".png") ==>
              r == Some(Thumbnail(trackFilename + (if Contains(url, ".") then "." else [url[|url| - 1]]), url))
  {
    ExtensionsExclusive(url);
    if EndsWith(url, ".jpg") then
      Some(Thumbnail(trackFilename + ".jpg", url))
    else if EndsWith(url, ".webp") then
      var prefix := url[..|url| - 5];
      assert url == prefix + ".webp";
      WebpBecomesJpg(prefix);
      Some(Thumbnail(trackFilename + ".jpg", WebpAsJpg(url)))
    else if EndsWith(url, ".png") then
      Some(Thumbnail(trackFilename + ".png", url))
    else if url == "" then
      None
    else
      var dot := RFind(url, ".");
      assert dot != -1 ==> url[dot] == '.' by {
        if dot != -1 { OneCharOccurs(url, '.', dot); }
      }
      Some(Thumbnail(trackFilename + [At(url, dot)], url))
  }
}
