/**
 * `parse_m3u_file` and the chunk file names the download tasks write: the
 * media-playlist line rule of section 4.1 of RFC 8216 (every line that is not
 * blank and does not start with `#` is a URI), as the source applies it.
 */
module Playlist {
  import opened PyStr

  /**
   * The lines Python's text-mode iteration yields for `text`: up to and
   * including each `\n`, then the rest if it is not empty.
   */
  function Lines(text: string): seq<string>
    decreases |text|
  {
    if text == "" then []
    else
      var k := Find(text, "\n", 0);
      if k == -1 then [text] else [text[..k + 1]] + Lines(text[k + 1..])
  }

  /** No line is empty, only a line's last character can be `\n`, and every line but the last ends with one. */
  lemma {:induction false} LinesShape(text: string)
    decreases |text|
    ensures var ls := Lines(text);
            && (forall i :: 0 <= i < |ls| ==> ls[i] != "")
            && (forall i, j :: 0 <= i < |ls| && 0 <= j < |ls[i]| - 1 ==> ls[i][j] != '\n')
            && (forall i :: 0 <= i < |ls| - 1 ==> EndsWith(ls[i], "\n"))
  {
    if text != "" {
      var k := Find(text, "\n", 0);
      if k == -1 {
        forall j | 0 <= j < |text| ensures text[j] != '\n' { OneCharOccurs(text, '\n', j); }
      } else {
        var first := text[..k + 1];
        var rest := text[k + 1..];
        forall j | 0 <= j < k ensures first[j] != '\n' { OneCharOccurs(text, '\n', j); }
        assert text[k..k + 1] == "\n";
        assert EndsWith(first, "\n");
        LinesShape(rest);
        var ls := Lines(text);
        assert ls == [first] + Lines(rest);
        forall i | 1 <= i < |ls| ensures ls[i] == Lines(rest)[i - 1] { }
      }
    }
  }

  function Concat(ls: seq<string>): string {
    if ls == [] then "" else ls[0] + Concat(ls[1..])
  }

  /** Reading the lines back to back gives the file text again. */
  lemma {:induction false} LinesConcat(text: string)
    ensures Concat(Lines(text)) == text
    decreases |text|
  {
    if text != "" {
      var k := Find(text, "\n", 0);
      if k == -1 {
        ConcatCons(text, []);
      } else {
        LinesSplit(text, k);
        var first, rest := text[..k + 1], text[k + 1..];
        LinesConcat(rest);
        ConcatCons(first, Lines(rest));
        assert first + rest == text;
      }
    }
  }

  /** A text with a `\n` at `k` (the first one) splits into the line up to it and the lines after. */
  lemma LinesSplit(text: string, k: int)
    requires text != "" && k == Find(text, "\n", 0) && k != -1
    ensures 0 <= k < |text| && Lines(text) == [text[..k + 1]] + Lines(text[k + 1..])
  {
  }

  lemma ConcatCons(x: string, ls: seq<string>)
    ensures Concat([x] + ls) == x + Concat(ls)
  {
    assert ([x] + ls)[0] == x && ([x] + ls)[1..] == ls;
  }

  /**
   * What `parse_m3u_file` finds at the path: no file, a file whose reading or
   * UTF-8 decoding raises, or the decoded text.
   */
  datatype PlaylistFile = Missing | Unreadable | Present(text: string)

  /** `line.strip()` is non-empty and does not start with `#`. */
  predicate IsUriLine(line: string) {
    var clean := StripSpace(line);
    clean != "" && !StartsWith(clean, "#")
  }

  /** A playlist entry: non-empty, no surrounding whitespace, not a `#` line. */
  predicate IsEntry(u: string) {
    u != "" && u[0] != '#' && !IsSpace(u[0]) && !IsSpace(u[|u| - 1])
  }

  /** The stripped URI lines of `lines`, in order. */
  function Entries(lines: seq<string>): (r: seq<string>)
    ensures |r| <= |lines|
    ensures forall k :: 0 <= k < |r| ==> IsEntry(r[k])
  {
    if lines == [] then []
    else
      var last := lines[|lines| - 1];
      var init := Entries(lines[..|lines| - 1]);
      var tail := if IsUriLine(last) then [StripSpace(last)] else [];
      assert forall k :: 0 <= k < |tail| ==> IsEntry(tail[k]) by {
        if IsUriLine(last) {
          UriLineIsEntry(last);
        }
      }
      AllEntriesConcat(init, tail);
      init + tail
  }

  /** The stripped text of a URI line is an entry. */
  lemma UriLineIsEntry(line: string)
    requires IsUriLine(line)
    ensures IsEntry(StripSpace(line))
  {
    var clean := StripSpace(line);
    assert clean[..1] == [clean[0]];
  }

  /** Two runs of entries put together are entries. */
  lemma AllEntriesConcat(a: seq<string>, b: seq<string>)
    requires forall k :: 0 <= k < |a| ==> IsEntry(a[k])
    requires forall k :: 0 <= k < |b| ==> IsEntry(b[k])
    ensures forall k :: 0 <= k < |a + b| ==> IsEntry((a + b)[k])
  {
    forall k | 0 <= k < |a + b| ensures IsEntry((a + b)[k]) {
      if k < |a| {
        assert (a + b)[k] == a[k];
      } else {
        assert (a + b)[k] == b[k - |a|];
      }
    }
  }

  /**
   * Entries are taken line by line: the entries of two consecutive runs of
   * lines are those of the first run followed by those of the second.
   */
  lemma {:induction false} EntriesConcat(a: seq<string>, b: seq<string>)
    ensures Entries(a + b) == Entries(a) + Entries(b)
    decreases |b|
  {
    if b == [] {
      assert a + b == a;
    } else {
      var b' := b[..|b| - 1];
      assert (a + b)[..|a + b| - 1] == a + b';
      EntriesConcat(a, b');
    }
  }

  /** Every URI line contributes its stripped text, and every entry comes from a URI line. */
  lemma EntriesFromLines(lines: seq<string>)
    ensures forall i :: 0 <= i < |lines| && IsUriLine(lines[i]) ==> StripSpace(lines[i]) in Entries(lines)
    ensures forall u :: u in Entries(lines) ==>
              exists i :: 0 <= i < |lines| && IsUriLine(lines[i]) && u == StripSpace(lines[i])
  {
    EntriesCoverLines(lines);
    EntriesComeFromLines(lines);
  }

  /** The one-step unfolding of `Entries` at the last line. */
  lemma EntriesSnoc(lines: seq<string>)
    requires lines != []
    ensures Entries(lines) == Entries(lines[..|lines| - 1]) +
      (if IsUriLine(lines[|lines| - 1]) then [StripSpace(lines[|lines| - 1])] else [])
  {
  }

  /** Taking one more line adds that line's entry, if it has one. */
  lemma EntriesStep(lines: seq<string>, i: nat)
    requires i < |lines|
    ensures Entries(lines[..i + 1]) ==
      Entries(lines[..i]) + (if IsUriLine(lines[i]) then [StripSpace(lines[i])] else [])
  {
    var l := lines[..i + 1];
    assert l[..i] == lines[..i] && l[i] == lines[i];
    EntriesSnoc(l);
  }

  lemma {:induction false} EntriesCoverLines(lines: seq<string>)
    ensures forall i :: 0 <= i < |lines| && IsUriLine(lines[i]) ==> StripSpace(lines[i]) in Entries(lines)
  {
    if lines != [] {
      var n := |lines| - 1;
      var init := lines[..n];
      var tail := if IsUriLine(lines[n]) then [StripSpace(lines[n])] else [];
      EntriesCoverLines(init);
      EntriesSnoc(lines);
      assert Entries(lines) == Entries(init) + tail;
      forall i | 0 <= i < |lines| && IsUriLine(lines[i])
        ensures StripSpace(lines[i]) in Entries(lines)
      {
        if i < n {
          assert lines[i] == init[i];
          assert StripSpace(lines[i]) in Entries(init);
        } else {
          assert StripSpace(lines[i]) in tail;
        }
      }
    }
  }

  lemma {:induction false} EntriesComeFromLines(lines: seq<string>)
    ensures forall u :: u in Entries(lines) ==>
              exists i :: 0 <= i < |lines| && IsUriLine(lines[i]) && u == StripSpace(lines[i])
  {
    if lines != [] {
      var init := lines[..|lines| - 1];
      EntriesComeFromLines(init);
      EntriesSnoc(lines);
      forall u | u in Entries(lines)
        ensures exists i :: 0 <= i < |lines| && IsUriLine(lines[i]) && u == StripSpace(lines[i])
      {
        if u in Entries(init) {
          var i :| 0 <= i < |init| && IsUriLine(init[i]) && u == StripSpace(init[i]);
          assert lines[i] == init[i];
        } else {
          assert u == StripSpace(lines[|lines| - 1]);
        }
      }
    }
  }

  /** `parse_m3u_file`: the URI lines of the playlist, stripped, in file order. */
  method ParseM3uFile(file: PlaylistFile) returns (urls: seq<string>)
    ensures !file.Present? ==> urls == []
    ensures file.Present? ==> urls == Entries(Lines(file.text))
    ensures forall k :: 0 <= k < |urls| ==> IsEntry(urls[k])
  {
    if !file.Present? {
      return [];
    }
    var lines := Lines(file.text);
    urls := [];
    var i := 0;
    while i < |lines|
      invariant 0 <= i <= |lines|
      invariant urls == Entries(lines[..i])
    {
      var cleanLine := StripSpace(lines[i]);
      if cleanLine != "" && !StartsWith(cleanLine, "#") {
        urls := urls + [cleanLine];
      }
      EntriesStep(lines, i);
      i := i + 1;
    }
    assert lines[..i] == lines;
  }

  function Digit(d: nat): (c: char)
    requires d < 10
    ensures '0' <= c <= '9'
  {
    (d + '0' as int) as char
  }

  function DigitValue(c: char): nat
    requires '0' <= c <= '9'
  {
    c as int - '0' as int
  }

  predicate IsDigits(s: string) {
    forall k :: 0 <= k < |s| ==> '0' <= s[k] <= '9'
  }

  /** `str(n)` for a non-negative `n`. */
  function DecimalString(n: nat): (r: string)
    ensures r != "" && IsDigits(r)
  {
    if n < 10 then [Digit(n)] else DecimalString(n / 10) + [Digit(n % 10)]
  }

  /** The number a string of decimal digits denotes. */
  function DecimalValue(s: string): nat
    requires IsDigits(s)
  {
    if s == "" then 0 else DecimalValue(s[..|s| - 1]) * 10 + DigitValue(s[|s| - 1])
  }

  /** Reading `str(n)` back gives `n`. */
  lemma {:induction false} DecimalRoundTrip(n: nat)
    ensures DecimalValue(DecimalString(n)) == n
  {
    if n >= 10 {
      DecimalRoundTrip(n / 10);
      var s := DecimalString(n);
      assert s[..|s| - 1] == DecimalString(n / 10);
    }
  }

  /** The file the download task for chunk `i` writes. */
  function ChunkName(i: nat): (r: string)
    ensures StartsWith(r, "chunk") && EndsWith(r, ".mp3")
  {
    "chunk" + DecimalString(i) + ".mp3"
  }

  /** Different chunk indices give different file names. */
  lemma ChunkNameInjective(i: nat, j: nat)
    requires ChunkName(i) == ChunkName(j)
    ensures i == j
  {
    var a, b := DecimalString(i), DecimalString(j);
    var n := ChunkName(i);
    assert |a| == |b|;
    assert n[5..|n| - 4] == a;
    assert ChunkName(j)[5..|n| - 4] == b;
    DecimalRoundTrip(i);
    DecimalRoundTrip(j);
  }

  /** One download task of `download_audio`: fetch `url` into the file `fileName`. */
  datatype Download = Download(url: string, fileName: string)

  /** The task list `download_audio` builds over `enumerate(chunk_urls)`. */
  function ChunkDownloads(urls: seq<string>): (r: seq<Download>)
    ensures |r| == |urls|
    ensures forall i :: 0 <= i < |r| ==> r[i].url == urls[i] && r[i].fileName == ChunkName(i)
    ensures forall i, j :: 0 <= i < |r| && 0 <= j < |r| && i != j ==> r[i].fileName != r[j].fileName
  {
    AllChunkNamesDistinct();
    seq(|urls|, i requires 0 <= i < |urls| => Download(urls[i], ChunkName(i)))
  }

  lemma AllChunkNamesDistinct()
    ensures forall i: nat, j: nat :: i != j ==> ChunkName(i) != ChunkName(j)
  {
    forall i: nat, j: nat | ChunkName(i) == ChunkName(j) ensures i == j {
      ChunkNameInjective(i, j);
    }
  }
}
