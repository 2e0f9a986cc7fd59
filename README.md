# soundloader: the resolve pipeline, modelled in Dafny

soundloader is a small app that takes the URL of a track page on a
cloud media-sharing site and turns it into a local audio file. The
load click (`start_load_audio`) fetches the page. It cuts out, with
plain substring searches, the player URL, the stream id, the title, the
thumbnail URL and the title and artist anchors. It sanitises the title
into a file name, picks the thumbnail's file name from the URL's
extension, reads a client id out of a fixed asset script of the site
(`https://a-v2.sndcdn.com/assets/0-2e3ca6a5.js`), and asks the stream
endpoint for a playlist URL, which it stores in `playlist_url`. The
download click (`start_download_audio`, then `download_audio`) downloads
an M3U file and parses it into chunk URLs, giving chunk `i` the file name
`chunk<i>.mp3`. The URL it downloads that file from is the text of the
URL field, that is the track page (app.py:812, 835), not `playlist_url`.
That global is written (app.py:689, 794) and otherwise only logged and
returned by `fetch_playlist_url` (app.py:693); no download uses it.

The model covers that string-processing core, that is, everything the
handlers compute, with the network replaced by parameters:

- `pystr.dfy` (`PyStr`): the Python `str` operations the code uses, with
  Python's semantics.
  - `find` and `rfind` return -1 when nothing is found, and a negative
    start counts from the end.
  - Slice bounds are negative-aware and clamped.
  - `replace` rewrites every non-overlapping occurrence.
  - `strip(chars)`, `startswith`, `endswith` and `count` of one character.
  - ASCII `isspace`; the first-occurrence and last-occurrence predicates
    these are specified by.
- `sanitize.dfy` (`Sanitize`): `sanitize_filename`, written as its four
  passes.
- `playlist.dfy` (`Playlist`): `parse_m3u_file`, the line iteration of a
  text file, `str(i)` and the chunk file names.
- `extract.dfy` (`Extract`): `extract_player_url`, `extract_info`, the
  slice of `get_client_id_from`, the slice of `fetch_playlist_url`, the
  stream-id slice and the thumbnail branch of `start_load_audio`.
- `input.dfy` (`LoadInput`): the test of `input_change` that labels the
  load button; the same test gates the pipeline.
- `resolve.dfy` (`Resolve`): the module globals and the handlers that
  overwrite them.
  - `class ResolveState` holds the eleven globals as one `Globals` record.
  - `StartLoadAudio` updates that record one global at a time, in the
    order `start_load_audio` assigns them. It is proved equal to the
    function `LoadAudio`, and the lemmas about the pipeline are stated on
    `LoadAudio`.
- `wrappers.dfy` (`Wrappers`): `Option`.

Every fetched text is a parameter of the operation that reads it:

- the page HTML (`""` when its request fails, as `get_html_from` returns);
- the fixed asset script `get_client_id_from` fetches (`""` when its
  request fails);
- the stream JSON text (the body, or the error text `get_json_as_string`
  produces);
- the file `download_m3u_file` saved (missing, unreadable, or its
  decoded text). The model does not tie it to `playlist_url`, because the
  code does not either.

The label the load button shows is also a parameter of `StartLoadAudio`.

Things the code does that a reader might not expect, which the model
keeps as written:

- `sanitize_filename` is not idempotent: `"(.a"` sanitises to `".a"`,
  and that sanitises to `"a"`. The third pass deletes the `(` that
  shielded the `.` from the `strip('. ')` pass before it.
  `Sanitize.SanitizeNotIdempotent` proves the counterexample.
  `Sanitize.SanitizeTwice` proves what a second pass does in general.
  `Sanitize.SanitizeIdempotentWhenTrimmed` proves when it changes nothing.
- The `-large` thumbnail rewrite has no effect. The code calls
  `thumbnail_url.replace("-large", "-t500x500")` but discards the result,
  so the URL keeps `-large`.
- `parse_m3u_file` has no init-segment case: every URI line is a chunk,
  named `chunk<i>.mp3`.
- Concatenation and tag writing do not exist in the code.
  `concat_chunk_files` only looks for `chunk0.mp3` under a path built
  without a separator (app.py:865). Its concatenation is a TODO
  (app.py:872). It then deletes the temporary directory (app.py:875).
  No tags are written anywhere.
- The input test does not ask for a leading `https://`. It only asks that
  `https://` occurs somewhere in the text and that the text holds at
  least three `/`.
- With a single `<a` between `<h1` and `<meta`, `find` and `rfind` land
  on the same anchor, so the artist is the title's text and not `""`
  (`Extract.OneAnchor`).
- The download reads the M3U file from the track page URL, not from the
  resolved `playlist_url` (see above).

## Model

| member | source | states |
|---|---|---|
| PyStr.Find | src/soundloader/app.py:524-526 | `s.find(sub, start)`: -1 exactly when `sub` does not occur at or after the normalised start, otherwise the first such occurrence |
| PyStr.RFind | src/soundloader/app.py:734-735 | `s.rfind(sub)`: -1 exactly when `sub` does not occur, otherwise its last occurrence |
| PyStr.FindIsFirst | src/soundloader/app.py:524-526 | a first occurrence at or after `from` is what `find` returns |
| PyStr.RFindIsLast | src/soundloader/app.py:734-735 | a last occurrence is what `rfind` returns |
| PyStr.Contains | src/soundloader/app.py:520 | `sub in s` holds exactly when `sub` occurs at some index |
| PyStr.Slice | src/soundloader/app.py:527 | `s[i:j]` is never longer than `s`, is `s[i..j]` for in-range bounds and is empty when `0 <= j <= i` |
| PyStr.StartsWith | src/soundloader/app.py:171 | `s.startswith(p)`: `p` is a prefix of `s` (a definition, no contract) |
| PyStr.EndsWith | src/soundloader/app.py:765 | `s.endswith(p)`: `p` is a suffix of `s` (a definition, no contract) |
| PyStr.At | src/soundloader/app.py:778 | `s[i]` with a negative `i` counting from the end (a definition, no contract) |
| PyStr.CountChar | src/soundloader/app.py:451 | `s.count(c)` is at most the length of `s` |
| PyStr.CountIsMultiset | src/soundloader/app.py:451 | `s.count(c)` is the number of positions of `s` holding `c` (its multiplicity in `s`) |
| PyStr.StripSpace | src/soundloader/app.py:168 | `s.strip()` leaves no whitespace at either end |
| PyStr.Strip | src/soundloader/app.py:90 | `strip(cs)` leaves neither end in `cs` and never lengthens the string |
| PyStr.StripIsMiddle | src/soundloader/app.py:90 | `strip(cs)` is a middle part `s[i..j]` of `s`, and everything cut off on either side is in `cs` |
| PyStr.Replace | src/soundloader/app.py:89 | `s.replace(pat, rep)`: every non-overlapping occurrence, left to right; `ReplaceHit` states that an occurrence at the front becomes `rep`, `ReplaceAbsent` and `ReplaceConcat` what happens without one and across a join (no contract of its own) |
| PyStr.ReplaceHit | src/soundloader/app.py:89 | an occurrence of the pattern at the front is replaced by `rep` and the scan resumes after it |
| PyStr.ReplaceAbsent | src/soundloader/app.py:89 | `replace` changes nothing when the pattern does not occur |
| PyStr.ReplaceConcat | src/soundloader/app.py:771-772 | `replace` over `a + b` rewrites `a` and `b` on their own when no occurrence straddles the join |
| Sanitize.ReplaceInvalid | src/soundloader/app.py:86 | the first pass maps exactly the characters `<>:"/\|?*` and 0x00-0x1F to `_`, position by position |
| Sanitize.ReplaceSpaces | src/soundloader/app.py:89 | `replace(' ', '_')` maps each space to `_` and keeps every other character in place |
| Sanitize.DropProblematic | src/soundloader/app.py:93 | the third pass never lengthens its input |
| Sanitize.DropProblematicMembers | src/soundloader/app.py:93 | a character is in the result of the third pass exactly when it is in the input and not among `,;!@#$%^&()+` |
| Sanitize.DropProblematicConcat | src/soundloader/app.py:93 | the third pass over `a + b` is the pass over `a` followed by the pass over `b`: it keeps what it keeps in order |
| Sanitize.DropProblematicCons | src/soundloader/app.py:93 | the third pass over `[c] + s` keeps `c` unless it is problematic, then goes on with `s` |
| Sanitize.DropProblematicKeepsAll | src/soundloader/app.py:93 | the third pass changes nothing when there is nothing to delete |
| Sanitize.DropNonAscii | src/soundloader/app.py:96 | `encode('ascii', 'ignore')` never lengthens its input |
| Sanitize.DropNonAsciiMembers | src/soundloader/app.py:96 | a character is in the result of the ASCII pass exactly when it is in the input and is ASCII |
| Sanitize.DropNonAsciiConcat | src/soundloader/app.py:96 | the ASCII pass over `a + b` is the pass over `a` followed by the pass over `b`: it keeps what it keeps in order |
| Sanitize.DropNonAsciiCons | src/soundloader/app.py:96 | the ASCII pass over `[c] + s` keeps `c` if it is ASCII, then goes on with `s` |
| Sanitize.DropOne | src/soundloader/app.py:93-96 | on one character each deletion pass gives the character back exactly when it is not one it deletes |
| Sanitize.DropNonAsciiKeepsAll | src/soundloader/app.py:96 | the ASCII pass changes nothing in an ASCII string |
| Sanitize.StripChars | src/soundloader/app.py:90 | every character of a `strip` result comes from its input |
| Sanitize.SanitizeFilename | src/soundloader/app.py:75-98 | the four passes of `sanitize_filename` in the source's order; what they guarantee is stated by the lemmas below (no contract of its own) |
| Sanitize.SanitizedIsClean | src/soundloader/app.py:75-98 | a sanitised name holds no invalid character, no space, none of `,;!@#$%^&()+`, nothing outside ASCII, and is no longer than the input |
| Sanitize.SanitizeKeepsClean | src/soundloader/app.py:75-98 | a string of clean characters that neither starts nor ends with `.` is its own sanitised name |
| Sanitize.SanitizeKeepsPlainName | src/soundloader/app.py:75-98 | a name of ASCII letters, digits, `_`, `-` and `.` that neither starts nor ends with `.` comes back unchanged |
| Sanitize.SanitizeDefaultName | src/soundloader/app.py:570 | the default name `soundloader_download` comes back unchanged |
| Sanitize.SanitizeTwice | src/soundloader/app.py:75-98 | sanitising a sanitised name only strips `.` and space from its ends |
| Sanitize.SanitizeIdempotentWhenTrimmed | src/soundloader/app.py:75-98 | a second pass changes nothing when the first result does not start or end with `.` |
| Sanitize.SanitizeNotIdempotent | src/soundloader/app.py:90-93 | `"(.a"` sanitises to `".a"`, which sanitises to `"a"`: the function is not idempotent |
| Sanitize.SanitizeExposesDot | src/soundloader/app.py:90-93 | `p.x` sanitises to `.x` for a problematic `p` and a clean `x` other than `.`: deleting `p` exposes the `.` |
| Sanitize.SanitizeStripsDot | src/soundloader/app.py:90 | `.x` sanitises to `x` for a clean `x` other than `.` |
| Playlist.Lines | src/soundloader/app.py:166 | the lines `for line in f` yields: up to and including each `\n`, then a last line without one if text remains; its shape and round trip are the next two rows (no contract of its own) |
| Playlist.LinesShape | src/soundloader/app.py:166 | iterating a text file yields non-empty lines, each holding `\n` only as its last character and all but the last ending in `\n` |
| Playlist.LinesConcat | src/soundloader/app.py:166 | the lines put back to back are the file text |
| Playlist.LinesSplit | src/soundloader/app.py:166 | a text whose first `\n` is at `k` yields the line up to and including it, then the lines of the rest |
| Playlist.ConcatCons | src/soundloader/app.py:166 | putting `[x] + ls` back to back gives `x` followed by `ls` put back to back |
| Playlist.Entries | src/soundloader/app.py:166-172 | the collected URLs are at most one per line, and each is non-empty, does not start with `#` and has no surrounding whitespace |
| Playlist.EntriesStep | src/soundloader/app.py:166-172 | one more line of the file adds its stripped text when it is a URI line, and nothing otherwise |
| Playlist.UriLineIsEntry | src/soundloader/app.py:168-171 | the stripped text of a URI line is non-empty, does not start with `#` and has no surrounding whitespace |
| Playlist.EntriesConcat | src/soundloader/app.py:166-172 | lines are handled one at a time: the entries of two runs of lines are those of the first run followed by those of the second |
| Playlist.EntriesFromLines | src/soundloader/app.py:166-172 | every URI line contributes its stripped text, and every collected URL comes from a URI line |
| Playlist.EntriesCoverLines | src/soundloader/app.py:166-172 | every URI line contributes its stripped text |
| Playlist.EntriesComeFromLines | src/soundloader/app.py:166-172 | every collected URL is the stripped text of some URI line |
| Playlist.ParseM3uFile | src/soundloader/app.py:151-179 | a missing or unreadable file gives `[]`; otherwise the stripped non-comment, non-blank lines in file order, each a well-formed entry |
| Playlist.DecimalString | src/soundloader/app.py:194 | `str(n)` is a non-empty string of decimal digits |
| Playlist.DecimalRoundTrip | src/soundloader/app.py:194 | reading `str(n)` back as a decimal gives `n` |
| Playlist.ChunkName | src/soundloader/app.py:194 | a chunk file name starts with `chunk` and ends with `.mp3` |
| Playlist.ChunkNameInjective | src/soundloader/app.py:194 | two chunk indices with the same file name `chunk<i>.mp3` are equal |
| Playlist.AllChunkNamesDistinct | src/soundloader/app.py:194 | different chunk indices never share a file name |
| Playlist.ChunkDownloads | src/soundloader/app.py:843-846 | one task per chunk URL, task `i` fetching the `i`-th URL into `chunk<i>.mp3`, no two tasks writing the same file |
| Extract.QuoteBounded | src/soundloader/app.py:526-527 | a quote-bounded slice never holds a quote |
| Extract.QuoteBoundedBetween | src/soundloader/app.py:526-527 | with a quote after the start, the slice is exactly the text up to the first one |
| Extract.ExtractPlayerUrl | src/soundloader/app.py:517-529 | no `twitter:player` gives `""`; the result never holds a quote |
| Extract.PlayerUrlIsContent | src/soundloader/app.py:517-529 | the player URL is exactly the text from nine characters past the first `content` after the first `twitter:player` (just past `content="`) up to the next quote |
| Extract.TitleFilename | src/soundloader/app.py:569-578 | no `twitter:title` gives `soundloader_download`; the name never holds a quote |
| Extract.ContentBetween | src/soundloader/app.py:517-529 | the lookup shared by the player URL and the file name: `find` lands on the first marker and on the first `content` from the given point, and the quote-bounded slice nine characters past it is the text up to the next quote |
| Extract.TitleIsContent | src/soundloader/app.py:571-575 | the file name is exactly the text from nine characters past the first `content` at or after the first `twitter:title` (just past `content="`) up to the next quote |
| Extract.ThumbnailUrl | src/soundloader/app.py:581-586 | the thumbnail URL is empty exactly when the base path `i1.sndcdn.com/a` is absent, and never holds a quote |
| Extract.ThumbnailHasBase | src/soundloader/app.py:581-586 | when the base path is not the end of the page, the URL starts with `https://i1.sndcdn.com/a` |
| Extract.ThumbnailWithoutQuoteIsCut | src/soundloader/app.py:583-585 | without a quote after the base path the URL loses the page's last character (`find` gives -1) |
| Extract.MetaRegion | src/soundloader/app.py:590-597 | the region is never longer than the page and is empty unless both `<h1` and `<meta` occur |
| Extract.MetaRegionBetween | src/soundloader/app.py:592-595 | with a `<meta` after the first `<h1`, the region is exactly the text between them |
| Extract.ExtractInfo | src/soundloader/app.py:566-613 | the name defaults to `soundloader_download` and holds no quote; the URL is empty exactly without the base path; a region without `<a` makes the title the name and the artist empty |
| Extract.AnchorText | src/soundloader/app.py:604-605 | `meta[start:meta.find("</a", start)]` with `start` the next `>`; `Extract.AnchorTextBetween` says what it is (no contract of its own) |
| Extract.AnchorTextBetween | src/soundloader/app.py:604-606 | an anchor's text is the text from its `>` to its `</a`, including the `>` itself |
| Extract.TitleAnchor | src/soundloader/app.py:603-606 | the title is the text of the region's first anchor |
| Extract.ArtistAnchor | src/soundloader/app.py:608-611 | the artist is the text of the region's last anchor |
| Extract.OneAnchor | src/soundloader/app.py:603-611 | with exactly one `<a` in the region, the artist is the same text as the title |
| Extract.TitleIsFirstAnchor | src/soundloader/app.py:602-606 | the title is the region text from the first anchor's `>` to its `</a`, and starts with `>` |
| Extract.ArtistIsLastAnchor | src/soundloader/app.py:608-611 | the artist is the region text from the last anchor's `>` to its `</a`, and starts with `>` |
| Extract.ClientIdFrom | src/soundloader/app.py:631-636 | no `client_id=` gives `""`; the id never holds a quote |
| Extract.ClientIdIsQuoted | src/soundloader/app.py:631-636 | the id is exactly the text between the first `client_id=` and the next quote |
| Extract.PlaylistUrlIn | src/soundloader/app.py:686-693 | a URL is found exactly when `https://` occurs, and it never holds a quote |
| Extract.PlaylistUrlIsQuoted | src/soundloader/app.py:686-689 | with a quote after the first `https://`, the URL is the text up to it and starts with `https://` |
| Extract.StreamId | src/soundloader/app.py:733-737 | a stream id is found exactly when both markers occur |
| Extract.StreamIdBetween | src/soundloader/app.py:733-737 | when the last `/stream` follows the last marker, the id is the text between them |
| Extract.StreamIdEmpty | src/soundloader/app.py:733-737 | when the last `/stream` comes before the end of the last marker, the id is empty |
| Extract.StreamUrl | src/soundloader/app.py:736 | the stream URL starts with the API prefix, ends with `/stream/hls` and holds the id between them |
| Extract.FullStreamUrl | src/soundloader/app.py:789 | the full stream URL starts with the stream URL and `?client_id=` and ends with the client id |
| Extract.WebpAsJpg | src/soundloader/app.py:771-772 | the two `replace` calls of the `.webp` branch in order; `Extract.WebpBecomesJpg` says what they do (no contract of its own) |
| Extract.WebpBecomesJpg | src/soundloader/app.py:768-772 | the `.webp` rewrite turns a final `.webp` into `.jpg` and rewrites the rest on its own |
| Extract.ExtensionsExclusive | src/soundloader/app.py:765-775 | a URL ends in at most one of `.jpg`, `.webp` and `.png` |
| Extract.DeriveThumbnail | src/soundloader/app.py:765-779 | an empty URL raises; `.jpg` and `.png` keep the URL and take its extension; `.webp` is saved as `.jpg` and its URL then ends in `.jpg`; any other URL appends `.` if it has one, else its last character |
| LoadInput.LoadableNotEmpty | src/soundloader/app.py:451 | a loadable field is never empty |
| LoadInput.LoadButtonLabel | src/soundloader/app.py:435-456 | `Paste` exactly for an empty field, `Load` exactly when `https://` occurs and there are at least three `/`, `Clear` otherwise |
| LoadInput.SchemeAloneNotLoadable | src/soundloader/app.py:451 | `https://` alone is labelled `Clear`: it holds only two `/` |
| Resolve.PlaylistUrlAfter | src/soundloader/app.py:686-693 | `playlist_url` after `fetch_playlist_url`: the old value when the JSON text holds no `https://`, otherwise a URL without a quote |
| Resolve.ReadPage | src/soundloader/app.py:729-755 | the page half of `start_load_audio` touches neither the chunk URLs, the client id, the full stream URL, the playlist URL nor the thumbnail file name |
| Resolve.LoadAudio | src/soundloader/app.py:696-798 | a click never touches `chunk_urls`, and one that stops before the page is read changes no global; the lemmas below are stated on it |
| Resolve.LoadGate | src/soundloader/app.py:710-719 | the button text `Clear`, or an input failing the load test, stops the click with every global unchanged; otherwise the pipeline runs |
| Resolve.LoadReadsPage | src/soundloader/app.py:729-755 | past the gate the player URL, the sanitised track name, the title and the artist are those the page gives, the name holds only clean characters, and the chunk URLs are untouched |
| Resolve.LoadStreamUrl | src/soundloader/app.py:733-737 | with the last marker before the last `/stream`, the stream URL is the API prefix, the id between them and `/stream/hls` |
| Resolve.LoadKeepsStreamUrl | src/soundloader/app.py:733-740 | without both stream markers the previous stream URL stays |
| Resolve.LoadThumbnailError | src/soundloader/app.py:778 | the click stops with `IndexError` exactly when the page lacks the thumbnail base path; the page's globals are then set and the thumbnail file name, client id, full stream URL and playlist URL keep their old values |
| Resolve.LoadResolvesStream | src/soundloader/app.py:783-794 | a click past the gate on a page holding the thumbnail base path resolves; it stores the script's client id and `stream_url + "?client_id=" + client_id`; the playlist URL stays when the JSON text lacks `https://` and never holds a quote otherwise |
| Resolve.LoadThumbnail | src/soundloader/app.py:758-779 | on a click past the gate on a page holding the thumbnail base path, the thumbnail URL starts with `https://`; `.jpg` and `.png` keep the URL and name the file after the track; `.webp` becomes a `.jpg` file and URL |
| Resolve.ThumbnailStartsWithScheme | src/soundloader/app.py:585 | a non-empty thumbnail URL starts with `https://` |
| Resolve.ResolveState.constructor | src/soundloader/app.py:34-44 | every global starts empty, with `chunk_urls` the one-element list `[""]` |
| Resolve.ResolveState.FetchPlaylistUrl | src/soundloader/app.py:677-693 | only `playlist_url` changes, to the URL the JSON text holds if it has one, and that value is returned |
| Resolve.ResolveState.StartLoadAudio | src/soundloader/app.py:696-798 | the outcome and the new globals are those `LoadAudio` gives for the old globals and the same inputs |
| Resolve.ResolveState.DownloadAudio | src/soundloader/app.py:827-846 | only `chunk_urls` changes, to the parsed playlist entries (`[]` without a readable file); the tasks are `ChunkDownloads` of them |

## Left out

- Network I/O is left out: `get_html_from`, `get_client_id_from`'s
  request, `get_json_as_string`, `download_m3u_file`, `download_chunk` and
  `download_art`. What they return is a parameter, and what they write to
  disk is not modelled.
- The concurrency of `asyncio.gather` and `run_in_executor` is left out.
  The download tasks are modelled as the list of (URL, file name) pairs
  they are built from.
- `concat_chunk_files` is left out: it performs no concatenation, only a
  file-existence check and the deletion of the temporary directory, both
  file-system effects. `download_art` (the thumbnail download) is network
  I/O, as above.
- The Toga user interface is left out: layouts, the web view,
  `on_page_loaded`, progress, visibility. `clear_action` is represented by
  the `Cleared` outcome and nothing else. `paste_action` does nothing in
  the source (its body is commented out) and is not modelled.
- The file-system helpers are left out: `get_dest_path`,
  `delete_directory_recursively`, `get_temp_path`, `create_temp_dir`.
  The existence test and the UTF-8 read of `parse_m3u_file` become the
  three cases of `PlaylistFile`.
- PyStr.StripSpace: uses the ASCII whitespace set, not the full Unicode
  `isspace` of Python's `str.strip()`.
- Playlist.Lines: splits after `\n` only. Python's universal-newline mode
  would also split at `\r` and `\r\n`.
- PyStr.Replace: requires a non-empty pattern. Python's rule for an empty
  pattern (insert between characters) is never used by the source.
- Resolve.ResolveState: keeps the eleven globals in one record-valued
  field instead of eleven separate fields. Each handler still assigns
  them one at a time, in the source's order, so the model captures the
  order of the updates but not eleven separately addressable fields.
- The `-large` branch does not change the URL in the source (the result of
  `replace` is discarded), so it does not appear in the model.
