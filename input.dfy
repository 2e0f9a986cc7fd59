/**
 * The URL-field classifier of `input_change`, which picks the label of the
 * load button, and the same test that gates the resolve pipeline.
 */
module LoadInput {
  import opened PyStr

  /** The three labels `input_change` gives the load button. */
  datatype LoadLabel = Paste | Load | Clear

  /** `"https://" in value and value.count("/") >= 3`. */
  predicate IsLoadable(input: string) {
    Contains(input, "https://") && CountChar(input, '/') >= 3
  }

  /** A loadable input is never empty. */
  lemma LoadableNotEmpty(input: string)
    requires IsLoadable(input)
    ensures input != ""
  {
    var k :| OccursAt(input, "https://", k);
  }

  /** The label `input_change` sets for the current field text. */
  function LoadButtonLabel(input: string): (r: LoadLabel)
    ensures r == Paste <==> input == ""
    ensures r == Load <==> IsLoadable(input)
    ensures r == Clear <==> input != "" && !IsLoadable(input)
  {
    if input == "" then Paste
    else if IsLoadable(input) then Load
    else Clear
  }

  /** Three slashes are needed: `https://` alone carries only two. */
  lemma SchemeAloneNotLoadable()
    ensures LoadButtonLabel("https://") == Clear
  {
    var s := "https://";
    assert CountChar(s, '/') == 2 by {
      assert s[1..] == "ttps://" && s[1..][1..] == "tps://";
      assert CountChar("//", '/') == 2;
    }
  }
}
