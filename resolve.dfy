/**
 * The module globals of the app and the handlers that overwrite them one
 * after another: `start_load_audio` (with `fetch_playlist_url`) and the
 * playlist half of `download_audio`. Every fetched text (the track page, the
 * fixed asset script the client id is read from, the stream JSON, the
 * playlist file) is a parameter.
 */
module Resolve {
  import opened Wrappers
  import opened PyStr
  import opened Sanitize
  import opened Playlist
  import opened Extract
  import opened LoadInput

  /** The values of the eleven module globals. */
  datatype Globals = Globals(
    playerUrl: string,
    clientId: string,
    streamUrl: string,
    fullStreamUrl: string,
    playlistUrl: string,
    chunkUrls: seq<string>,
    trackFilename: string,
    thumbnailFilename: string,
    thumbnailUrl: string,
    trackTitle: string,
    trackArtist: string)

  /** The values the globals start with: every string empty, `chunk_urls = [""]`. */
  const InitialGlobals := Globals("", "", "", "", "", [""], "", "", "", "", "")

  /** How a click on the load button ends. */
  datatype LoadOutcome =
    | Cleared              // the button read `Clear`: the field is emptied, nothing else
    | NotLoadable          // the field fails the `https://` and three-`/` test
    | ThumbnailIndexError  // `thumbnail_url[thumbnail_url.rfind('.')]` raised on an empty URL
    | Resolved             // the whole pipeline ran

  datatype LoadResult = LoadResult(outcome: LoadOutcome, globals: Globals)

  /** What `fetch_playlist_url` leaves in `playlist_url`: the URL in the JSON text, else the old value. */
  function PlaylistUrlAfter(previous: string, jsonText: string): (r: string)
    ensures !Contains(jsonText, Https) ==> r == previous
    ensures Contains(jsonText, Https) ==> '"' !in r
  {
    PlaylistUrlIn(jsonText).GetOr(previous)
  }

  /** The globals after the page half of `start_load_audio` has read `html`. */
  function ReadPage(g: Globals, html: string): (r: Globals)
    ensures r.chunkUrls == g.chunkUrls && r.clientId == g.clientId && r.fullStreamUrl == g.fullStreamUrl
    ensures r.playlistUrl == g.playlistUrl && r.thumbnailFilename == g.thumbnailFilename
  {
    var info := ExtractInfo(html);
    var id := StreamId(html);
    g.(playerUrl := ExtractPlayerUrl(html),
       streamUrl := if id.Some? then StreamUrl(id.value) else g.streamUrl,
       trackFilename := SanitizeFilename(info.filename),
       thumbnailUrl := info.thumbnailUrl,
       trackTitle := info.title,
       trackArtist := info.artist)
  }

  /**
   * The outcome and the globals after a click on the load button reading
   * `buttonText`, with `input` in the URL field, `html` what fetching it
   * produced (`""` on any request error), `jsText` the fixed asset script
   * `get_client_id_from` fetches (`""` when its request fails) and `jsonText`
   * the answer to the stream request.
   */
  function LoadAudio(g: Globals, buttonText: string, input: string, html: string, jsText: string, jsonText: string): (r: LoadResult)
    ensures r.globals.chunkUrls == g.chunkUrls
    ensures r.outcome == Resolved || r.outcome == ThumbnailIndexError || r.globals == g
  {
    if buttonText == "Clear" then LoadResult(Cleared, g)
    else if !IsLoadable(input) then LoadResult(NotLoadable, g)
    else
      var page := ReadPage(g, html);
      var thumbnail := DeriveThumbnail(page.trackFilename, page.thumbnailUrl);
      if thumbnail.None? then LoadResult(ThumbnailIndexError, page)
      else
        var clientId := ClientIdFrom(jsText);
        LoadResult(Resolved, page.(
          thumbnailFilename := thumbnail.value.fileName,
          thumbnailUrl := thumbnail.value.url,
          clientId := clientId,
          fullStreamUrl := FullStreamUrl(page.streamUrl, clientId),
          playlistUrl := PlaylistUrlAfter(g.playlistUrl, jsonText)))
  }

  /** The button text and the URL field decide whether the pipeline runs; when it does not, nothing changes. */
  lemma LoadGate(g: Globals, buttonText: string, input: string, html: string, jsText: string, jsonText: string)
    ensures var r := LoadAudio(g, buttonText, input, html, jsText, jsonText);
            && (r.outcome == Cleared <==> buttonText == "Clear")
            && (r.outcome == NotLoadable <==> buttonText != "Clear" && !IsLoadable(input))
            && (r.outcome in {Cleared, NotLoadable} ==> r.globals == g)
            && (r.outcome in {ThumbnailIndexError, Resolved} <==> buttonText != "Clear" && LoadButtonLabel(input) == Load)
  {
  }

  /** Past the gate, the page fixes the player URL, the sanitised track name, the title and the artist. */
  lemma LoadReadsPage(g: Globals, buttonText: string, input: string, html: string, jsText: string, jsonText: string)
    requires buttonText != "Clear" && IsLoadable(input)
    ensures var r := LoadAudio(g, buttonText, input, html, jsText, jsonText).globals;
            && r.playerUrl == ExtractPlayerUrl(html)
            && r.trackFilename == SanitizeFilename(ExtractInfo(html).filename)
            && (forall c :: c in r.trackFilename ==> IsClean(c))
            && r.trackTitle == ExtractInfo(html).title
            && r.trackArtist == ExtractInfo(html).artist
            && r.chunkUrls == g.chunkUrls
  {
    SanitizedIsClean(ExtractInfo(html).filename);
  }

  /**
   * When the last stream-id marker ends before the last `/stream`, the
   * stream URL is the API prefix, the id between them, and `/stream/hls`.
   */
  lemma LoadStreamUrl(g: Globals, buttonText: string, input: string, html: string, jsText: string, jsonText: string,
                      b: nat, e: nat)
    requires buttonText != "Clear" && IsLoadable(input)
    requires LastAt(html, StreamIdBegin, b) && LastAt(html, StreamIdEnd, e)
    requires b + |StreamIdBegin| <= e
    ensures LoadAudio(g, buttonText, input, html, jsText, jsonText).globals.streamUrl
              == StreamUrlBegin + html[b + |StreamIdBegin|..e] + StreamUrlEnd
  {
    StreamIdBetween(html, b, e);
  }

  /** Without a stream-id marker or without `/stream`, the old stream URL stays. */
  lemma LoadKeepsStreamUrl(g: Globals, buttonText: string, input: string, html: string, jsText: string, jsonText: string)
    requires !(Contains(html, StreamIdBegin) && Contains(html, StreamIdEnd))
    ensures LoadAudio(g, buttonText, input, html, jsText, jsonText).globals.streamUrl == g.streamUrl
  {
  }

  /** A page without the thumbnail base path gives an empty URL, which stops the pipeline after the page half. */
  lemma LoadThumbnailError(g: Globals, buttonText: string, input: string, html: string, jsText: string, jsonText: string)
    requires buttonText != "Clear" && IsLoadable(input)
    ensures var r := LoadAudio(g, buttonText, input, html, jsText, jsonText);
            && (r.outcome == ThumbnailIndexError <==> !Contains(html, BaseUrlThumbnail))
            && (r.outcome == ThumbnailIndexError ==>
                  && r.globals == ReadPage(g, html)
                  && r.globals.thumbnailFilename == g.thumbnailFilename
                  && r.globals.clientId == g.clientId
                  && r.globals.fullStreamUrl == g.fullStreamUrl
                  && r.globals.playlistUrl == g.playlistUrl)
  {
  }

  /**
   * A load that gets past the gate on a page with a thumbnail resolves: it
   * builds the full stream URL from the stream URL and the client id of the
   * asset script, and keeps the old playlist URL when the JSON text holds no
   * `https://`.
   */
  lemma LoadResolvesStream(g: Globals, buttonText: string, input: string, html: string, jsText: string, jsonText: string)
    requires buttonText != "Clear" && IsLoadable(input) && Contains(html, BaseUrlThumbnail)
    ensures LoadAudio(g, buttonText, input, html, jsText, jsonText).outcome == Resolved
    ensures var r := LoadAudio(g, buttonText, input, html, jsText, jsonText).globals;
            && r.clientId == ClientIdFrom(jsText)
            && r.fullStreamUrl == r.streamUrl + "?client_id=" + r.clientId
            && (!Contains(jsonText, Https) ==> r.playlistUrl == g.playlistUrl)
            && (Contains(jsonText, Https) ==> '"' !in r.playlistUrl)
  {
  }

  /**
   * The thumbnail file name follows the URL's extension: a `.jpg` or `.png`
   * URL (with or without `-large`) is kept, a `.webp` one is asked for as JPEG.
   */
  lemma LoadThumbnail(g: Globals, buttonText: string, input: string, html: string, jsText: string, jsonText: string)
    requires buttonText != "Clear" && IsLoadable(input) && Contains(html, BaseUrlThumbnail)
    ensures var r := LoadAudio(g, buttonText, input, html, jsText, jsonText).globals;
            var url := ExtractInfo(html).thumbnailUrl;
            && StartsWith(url, Https)
            && (EndsWith(url, ".jpg") ==> r.thumbnailFilename == r.trackFilename + ".jpg" && r.thumbnailUrl == url)
            && (EndsWith(url, ".png") ==> r.thumbnailFilename == r.trackFilename + ".png" && r.thumbnailUrl == url)
            && (EndsWith(url, ".webp") ==>
                  r.thumbnailFilename == r.trackFilename + ".jpg" && r.thumbnailUrl == WebpAsJpg(url)
                  && EndsWith(r.thumbnailUrl, ".jpg"))
  {
    ThumbnailStartsWithScheme(html);
  }

  /** A non-empty thumbnail URL starts with `https://`. */
  lemma ThumbnailStartsWithScheme(html: string)
    requires ThumbnailUrl(html) != ""
    ensures StartsWith(ThumbnailUrl(html), Https)
  {
    var t := QuoteBounded(html, Find(html, BaseUrlThumbnail, 0));
    assert (Https + t)[..|Https|] == Https;
  }

  /** The globals, rewritten in place by the handlers of the app. */
  class ResolveState {
    var globals: Globals

    constructor ()
      ensures globals == InitialGlobals
    {
      globals := InitialGlobals;
    }

    /** `fetch_playlist_url` given the text the JSON request produced (the body or an error message). */
    method FetchPlaylistUrl(jsonText: string) returns (url: string)
      modifies this`globals
      ensures globals == old(globals).(playlistUrl := PlaylistUrlAfter(old(globals).playlistUrl, jsonText))
      ensures url == globals.playlistUrl
    {
      if Contains(jsonText, Https) {
        var start := Find(jsonText, Https, 0);
        globals := globals.(playlistUrl := QuoteBounded(jsonText, start));
      }
      url := globals.playlistUrl;
    }

    /** `start_load_audio`, one global at a time. */
    method StartLoadAudio(buttonText: string, input: string, html: string, jsText: string, jsonText: string)
      returns (outcome: LoadOutcome)
      modifies this`globals
      ensures LoadResult(outcome, globals) == LoadAudio(old(globals), buttonText, input, html, jsText, jsonText)
    {
      if buttonText == "Clear" {
        return Cleared;
      }
      // an empty field would be filled from the clipboard here, which the app has disabled
      if !IsLoadable(input) {
        return NotLoadable;
      }
      globals := globals.(playerUrl := ExtractPlayerUrl(html));
      var id := StreamId(html);
      if id.Some? {
        globals := globals.(streamUrl := StreamUrl(id.value));
      }
      var info := ExtractInfo(html);
      globals := globals.(trackFilename := info.filename);
      globals := globals.(thumbnailUrl := info.thumbnailUrl);
      globals := globals.(trackTitle := info.title);
      globals := globals.(trackArtist := info.artist);
      globals := globals.(trackFilename := SanitizeFilename(globals.trackFilename));
      // the `-large` rewrite discards its result: the URL stays as it is
      var thumbnail := DeriveThumbnail(globals.trackFilename, globals.thumbnailUrl);
      if thumbnail.None? {
        return ThumbnailIndexError;
      }
      globals := globals.(thumbnailFilename := thumbnail.value.fileName);
      globals := globals.(thumbnailUrl := thumbnail.value.url);
      globals := globals.(clientId := ClientIdFrom(jsText));
      globals := globals.(fullStreamUrl := FullStreamUrl(globals.streamUrl, globals.clientId));
      var url := FetchPlaylistUrl(jsonText);
      globals := globals.(playlistUrl := url);
      outcome := Resolved;
    }

    /**
     * The playlist half of `download_audio`: the chunk URLs become the
     * stripped URI lines of `file`, and chunk `i` is downloaded from the
     * `i`-th of them into `chunk<i>.mp3`. `file` is whatever
     * `download_m3u_file` saved from the URL it was given, which
     * `start_download_audio` takes from the URL field (the track page), not
     * from `playlist_url`; so nothing ties it to `globals.playlistUrl`.
     */
    method DownloadAudio(file: PlaylistFile) returns (downloads: seq<Download>)
      modifies this`globals
      ensures file.Present? ==> globals == old(globals).(chunkUrls := Entries(Lines(file.text)))
      ensures !file.Present? ==> globals == old(globals).(chunkUrls := [])
      ensures downloads == ChunkDownloads(globals.chunkUrls)
    {
      var urls := ParseM3uFile(file);
      globals := globals.(chunkUrls := urls);
      downloads := ChunkDownloads(globals.chunkUrls);
    }
  }
}
