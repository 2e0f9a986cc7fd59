/**
 * `sanitize_filename`: four whole-string passes that turn a track title into
 * a file name.
 */
module Sanitize {
  import opened PyStr

  /** The characters the first pass replaces by `_`: `<>:"/\|?*` and 0x00-0x1F. */
  predicate IsInvalid(c: char) {
    c in "<>:\"/\\|?*" || c < ' '
  }

  /** The characters the `strip('. ')` pass removes from both ends. */
  const TrimChars: set<char> := {'.', ' '}

  /** The characters the third pass deletes: `,;!@#$%^&()+`. */
  const Problematic: set<char> := {',', ';', '!', '@', '#', '$', '%', '^', '&', '(', ')', '+'}

  predicate IsAscii(c: char) {
    (c as int) < 128
  }

  /** A character no sanitised name contains. */
  predicate IsClean(c: char) {
    !IsInvalid(c) && c != ' ' && c !in Problematic && IsAscii(c)
  }

  /** `re.sub(r'[<>:"/\\|?*\x00-\x1F]', '_', s)`. */
  function ReplaceInvalid(s: string): (r: string)
    ensures |r| == |s|
    ensures forall k :: 0 <= k < |s| ==> r[k] == if IsInvalid(s[k]) then '_' else s[k]
  {
    if s == "" then "" else [if IsInvalid(s[0]) then '_' else s[0]] + ReplaceInvalid(s[1..])
  }

  /** `re.sub(r'[,;!@#\$%^&()+]', '', s)`: `s` without its problematic characters, in order. */
  function DropProblematic(s: string): (r: string)
    ensures |r| <= |s|
  {
    if s == "" then ""
    else (if s[0] !in Problematic then [s[0]] else "") + DropProblematic(s[1..])
  }

  /** `s.encode('ascii', 'ignore').decode('ascii')`: `s` without its non-ASCII characters, in order. */
  function DropNonAscii(s: string): (r: string)
    ensures |r| <= |s|
  {
    if s == "" then ""
    else (if IsAscii(s[0]) then [s[0]] else "") + DropNonAscii(s[1..])
  }

  /** The third pass keeps exactly the characters of `s` that are not problematic. */
  lemma {:induction false} DropProblematicMembers(s: string)
    ensures forall c :: c in DropProblematic(s) <==> c in s && c !in Problematic
  {
    if s != "" {
      assert s == [s[0]] + s[1..];
      DropProblematicMembers(s[1..]);
    }
  }

  /** The ASCII pass keeps exactly the ASCII characters of `s`. */
  lemma {:induction false} DropNonAsciiMembers(s: string)
    ensures forall c :: c in DropNonAscii(s) <==> c in s && IsAscii(c)
  {
    if s != "" {
      assert s == [s[0]] + s[1..];
      DropNonAsciiMembers(s[1..]);
    }
  }

  /** The third pass works character by character, keeping the order of what it keeps. */
  lemma {:induction false} DropProblematicConcat(a: string, b: string)
    ensures DropProblematic(a + b) == DropProblematic(a) + DropProblematic(b)
  {
    if a == [] {
      assert a + b == b;
    } else {
      var c, rest := a[0], a[1..];
      assert a == [c] + rest && a + b == [c] + (rest + b);
      DropProblematicCons(c, rest);
      DropProblematicCons(c, rest + b);
      DropProblematicConcat(rest, b);
    }
  }

  lemma DropProblematicCons(c: char, s: string)
    ensures DropProblematic([c] + s) == (if c in Problematic then "" else [c]) + DropProblematic(s)
  {
    assert ([c] + s)[1..] == s;
  }

  /** The ASCII pass works character by character, keeping the order of what it keeps. */
  lemma {:induction false} DropNonAsciiConcat(a: string, b: string)
    ensures DropNonAscii(a + b) == DropNonAscii(a) + DropNonAscii(b)
  {
    if a == [] {
      assert a + b == b;
    } else {
      var c, rest := a[0], a[1..];
      assert a == [c] + rest && a + b == [c] + (rest + b);
      DropNonAsciiCons(c, rest);
      DropNonAsciiCons(c, rest + b);
      DropNonAsciiConcat(rest, b);
    }
  }

  lemma DropNonAsciiCons(c: char, s: string)
    ensures DropNonAscii([c] + s) == (if IsAscii(c) then [c] else "") + DropNonAscii(s)
  {
    assert ([c] + s)[1..] == s;
  }

  /** On one character, each deletion pass keeps it exactly when it is not deleted. */
  lemma DropOne(c: char)
    ensures DropProblematic([c]) == if c in Problematic then "" else [c]
    ensures DropNonAscii([c]) == if IsAscii(c) then [c] else ""
  {
    assert [c][1..] == "";
  }

  /** Deleting problematic characters changes nothing when there are none. */
  lemma {:induction false} DropProblematicKeepsAll(s: string)
    requires forall c :: c in s ==> c !in Problematic
    ensures DropProblematic(s) == s
  {
    if s != "" {
      assert s[0] in s;
      DropProblematicKeepsAll(s[1..]);
    }
  }

  /** Dropping non-ASCII characters changes nothing in an ASCII string. */
  lemma {:induction false} DropNonAsciiKeepsAll(s: string)
    requires forall c :: c in s ==> IsAscii(c)
    ensures DropNonAscii(s) == s
  {
    if s != "" {
      assert s[0] in s;
      DropNonAsciiKeepsAll(s[1..]);
    }
  }

  /** `s.replace(' ', '_')` maps each space to `_` and leaves every other character. */
  lemma {:induction false} ReplaceSpaces(s: string)
    ensures |Replace(s, " ", "_")| == |s|
    ensures forall k :: 0 <= k < |s| ==> Replace(s, " ", "_")[k] == if s[k] == ' ' then '_' else s[k]
  {
    if s != "" {
      ReplaceSpaces(s[1..]);
      assert s[..1] == [s[0]];
    }
  }

  /** `sanitize_filename(name)`. */
  function SanitizeFilename(name: string): string {
    var invalidReplaced := ReplaceInvalid(name);
    var spacesReplaced := Replace(invalidReplaced, " ", "_");
    var trimmed := Strip(spacesReplaced, TrimChars);
    var reduced := DropProblematic(trimmed);
    DropNonAscii(reduced)
  }

  /** Every character of a `strip` result comes from the stripped string. */
  lemma StripChars(s: string, cs: set<char>)
    ensures |Strip(s, cs)| <= |s|
    ensures forall c :: c in Strip(s, cs) ==> c in s
  {
    StripIsMiddle(s, cs);
    var i, j :| 0 <= i <= j <= |s| && Strip(s, cs) == s[i..j];
  }

  /**
   * A sanitised name holds no character that is invalid on some platform
   * (`<>:"/\|?*` or 0x00-0x1F), no space, none of `,;!@#$%^&()+` and nothing
   * outside ASCII, and is never longer than the input.
   */
  lemma SanitizedIsClean(name: string)
    ensures forall c :: c in SanitizeFilename(name) ==> IsClean(c)
    ensures |SanitizeFilename(name)| <= |name|
  {
    var invalidReplaced := ReplaceInvalid(name);
    var spacesReplaced := Replace(invalidReplaced, " ", "_");
    ReplaceSpaces(invalidReplaced);
    assert forall c :: c in spacesReplaced ==> !IsInvalid(c) && c != ' ' by {
      forall c | c in spacesReplaced ensures !IsInvalid(c) && c != ' ' {
        var k :| 0 <= k < |spacesReplaced| && spacesReplaced[k] == c;
      }
    }
    StripChars(spacesReplaced, TrimChars);
    var trimmed := Strip(spacesReplaced, TrimChars);
    DropProblematicMembers(trimmed);
    DropNonAsciiMembers(DropProblematic(trimmed));
  }

  /** A string of clean characters that neither starts nor ends with `.` is its own sanitised name. */
  lemma SanitizeKeepsClean(s: string)
    requires forall c :: c in s ==> IsClean(c)
    requires s == "" || (s[0] != '.' && s[|s| - 1] != '.')
    ensures SanitizeFilename(s) == s
  {
    assert forall k :: 0 <= k < |s| ==> IsClean(s[k]) by {
      forall k | 0 <= k < |s| ensures IsClean(s[k]) {
        assert s[k] in s;
      }
    }
    assert ReplaceInvalid(s) == s;
    forall k ensures !OccursAt(s, " ", k) {
      OneCharOccurs(s, ' ', k);
    }
    ReplaceAbsent(s, " ", "_");
    StripKeeps(s, TrimChars);
    DropProblematicKeepsAll(s);
    DropNonAsciiKeepsAll(s);
  }

  /** ASCII letters, digits, `_`, `-` and `.`. */
  predicate IsPlainNameChar(c: char) {
    ('a' <= c <= 'z') || ('A' <= c <= 'Z') || ('0' <= c <= '9') || c == '_' || c == '-' || c == '.'
  }

  /** A plain name that neither starts nor ends with `.` comes back unchanged. */
  lemma SanitizeKeepsPlainName(s: string)
    requires forall c :: c in s ==> IsPlainNameChar(c)
    requires s == "" || (s[0] != '.' && s[|s| - 1] != '.')
    ensures SanitizeFilename(s) == s
  {
    SanitizeKeepsClean(s);
  }

  /** The default track name needs no sanitising. */
  lemma SanitizeDefaultName()
    ensures SanitizeFilename("soundloader_download") == "soundloader_download"
  {
    SanitizeKeepsPlainName("soundloader_download");
  }

  /**
   * Sanitising twice equals sanitising once and then stripping `.` and space
   * from the ends: the only change a second pass can make.
   */
  lemma SanitizeTwice(name: string)
    ensures SanitizeFilename(SanitizeFilename(name)) == Strip(SanitizeFilename(name), TrimChars)
  {
    var once := SanitizeFilename(name);
    SanitizedIsClean(name);
    assert forall k :: 0 <= k < |once| ==> IsClean(once[k]) by {
      forall k | 0 <= k < |once| ensures IsClean(once[k]) {
        assert once[k] in once;
      }
    }
    assert ReplaceInvalid(once) == once;
    forall k ensures !OccursAt(once, " ", k) {
      OneCharOccurs(once, ' ', k);
    }
    ReplaceAbsent(once, " ", "_");
    var trimmed := Strip(once, TrimChars);
    StripChars(once, TrimChars);
    DropProblematicKeepsAll(trimmed);
    DropNonAsciiKeepsAll(trimmed);
  }

  /** A second pass changes nothing when the first result does not start or end with `.`. */
  lemma SanitizeIdempotentWhenTrimmed(name: string)
    requires var once := SanitizeFilename(name); once == "" || (once[0] != '.' && once[|once| - 1] != '.')
    ensures SanitizeFilename(SanitizeFilename(name)) == SanitizeFilename(name)
  {
    SanitizedIsClean(name);
    SanitizeKeepsClean(SanitizeFilename(name));
  }

  /**
   * The function is not idempotent in general: the third pass can expose a
   * `.` that the `strip` pass before it did not see.
   */
  lemma SanitizeNotIdempotent()
    ensures SanitizeFilename("(.a") == ".a"
    ensures SanitizeFilename(".a") == "a"
  {
    SanitizeExposesDot('(', 'a');
    SanitizeStripsDot('a');
  }

  /** A deleted character in front of a `.` exposes that `.` after the `strip` pass. */
  lemma SanitizeExposesDot(p: char, x: char)
    requires p in Problematic && IsClean(x) && x != '.'
    ensures SanitizeFilename([p, '.', x]) == ['.', x]
  {
    var s := [p, '.', x];
    assert Strip(Replace(ReplaceInvalid(s), " ", "_"), TrimChars) == s by {
      NoInvalidOrSpace(s);
      StripKeeps(s, TrimChars);
    }
    DeletionExposesDot(p, x);
    SanitizeStages(s, s);
  }

  lemma DeletionExposesDot(p: char, x: char)
    requires p in Problematic && IsClean(x) && x != '.'
    ensures DropNonAscii(DropProblematic([p, '.', x])) == ['.', x]
  {
    var s := [p, '.', x];
    assert DropProblematic(s) == ['.', x] by {
      assert s[1..] == ['.', x];
      DropProblematicKeepsAll(['.', x]);
    }
    DropNonAsciiKeepsAll(['.', x]);
  }

  /** A leading `.` is stripped. */
  lemma SanitizeStripsDot(x: char)
    requires IsClean(x) && x != '.'
    ensures SanitizeFilename(['.', x]) == [x]
  {
    StripsDotFirstPasses(x);
    SanitizeStages(['.', x], [x]);
    CleanCharKept(x);
  }

  /** The first three passes turn `.x` into `x`. */
  lemma StripsDotFirstPasses(x: char)
    requires IsClean(x) && x != '.'
    ensures Strip(Replace(ReplaceInvalid(['.', x]), " ", "_"), TrimChars) == [x]
  {
    NoInvalidOrSpace(['.', x]);
    StripLeadingDot(x);
  }

  /** The last two passes keep a clean character. */
  lemma CleanCharKept(x: char)
    requires IsClean(x)
    ensures DropNonAscii(DropProblematic([x])) == [x]
  {
    DropOne(x);
  }

  lemma StripLeadingDot(x: char)
    requires x !in TrimChars
    ensures Strip(['.', x], TrimChars) == [x]
  {
    var s := ['.', x];
    assert s[1..] == [x];
    assert StripLeft(s, TrimChars) == StripLeft([x], TrimChars) == [x];
  }

  /** The last two passes of `sanitize_filename`, once the first three are known. */
  lemma SanitizeStages(s: string, trimmed: string)
    requires Strip(Replace(ReplaceInvalid(s), " ", "_"), TrimChars) == trimmed
    ensures SanitizeFilename(s) == DropNonAscii(DropProblematic(trimmed))
  {
  }

  /** The first two passes leave a string without invalid characters and spaces alone. */
  lemma NoInvalidOrSpace(s: string)
    requires forall k :: 0 <= k < |s| ==> !IsInvalid(s[k]) && s[k] != ' '
    ensures Replace(ReplaceInvalid(s), " ", "_") == s
  {
    assert ReplaceInvalid(s) == s;
    forall k ensures !OccursAt(s, " ", k) {
      OneCharOccurs(s, ' ', k);
    }
    ReplaceAbsent(s, " ", "_");
  }
}
