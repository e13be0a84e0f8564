/**
 * The "Predict" enabling rule of the link input (`onChangeText` in ModelLoader.js):
 * the typed text is split on "." and the button is enabled exactly when the last
 * piece is "jpg" or "jpeg", compared case-sensitively.
 */
module LinkFilter {

  /** The pieces `parts` glued back together with `sep` between neighbours. */
  function Join(parts: seq<string>, sep: char): string
    requires |parts| >= 1
  {
    if |parts| == 1 then parts[0] else parts[0] + [sep] + Join(parts[1..], sep)
  }

  /**
   * `String.prototype.split` with a one-character separator: the maximal runs of
   * non-separator characters, including the empty ones, so that there is always at
   * least one piece.
   */
  function Split(s: string, sep: char): (parts: seq<string>)
    ensures |parts| >= 1
    ensures forall k :: 0 <= k < |parts| ==> sep !in parts[k]
    ensures Join(parts, sep) == s
  {
    if s == [] then [""]
    else
      var rest := Split(s[1..], sep);
      if s[0] == sep then [""] + rest
      else
        assert rest == [rest[0]] + rest[1..];
        [[s[0]] + rest[0]] + rest[1..]
  }

  /** `elements.slice(-1)[0]`: the last piece of the split. */
  function LastPiece(text: string): (last: string)
    ensures '.' !in last
  {
    var elements := Split(text, '.');
    elements[|elements| - 1]
  }

  /** "Predict" is enabled only for a text ending in "jpg" or "jpeg". */
  predicate PredictEnabled(text: string): (enabled: bool)
    ensures enabled ==> EndsWith(text, "jpg") || EndsWith(text, "jpeg")
  {
    LastPieceAfterLastDot(text);
    var last := LastPiece(text);
    last == "jpg" || last == "jpeg"
  }

  /**
   * The last piece is the text after the last ".", or the whole text when it holds
   * no ".": a dot-free suffix that is either everything or preceded by a ".".
   */
  lemma {:induction false} LastPieceAfterLastDot(text: string)
    ensures var last := LastPiece(text);
      |last| <= |text| && text[|text| - |last|..] == last && '.' !in last &&
      (|last| < |text| ==> text[|text| - |last| - 1] == '.')
  {
    if text != [] {
      var tail := text[1..];
      var rest := Split(tail, '.');
      LastPieceAfterLastDot(tail);
      var last := LastPiece(tail);
      assert text == [text[0]] + tail;
      if text[0] == '.' || |rest| > 1 {
        assert LastPiece(text) == last;
        if |rest| > 1 {
          JoinHoldsSeparator(rest, '.');
        }
        assert text[|text| - |last|..] == tail[|tail| - |last|..];
      } else {
        assert LastPiece(text) == [text[0]] + rest[0];
        assert rest[0] == tail;
      }
    }
  }

  /** Joining two or more pieces puts the separator right after the first piece. */
  lemma JoinHoldsSeparator(parts: seq<string>, sep: char)
    requires |parts| > 1
    ensures |parts[0]| < |Join(parts, sep)| && Join(parts, sep)[|parts[0]|] == sep
  {
    assert Join(parts, sep) == parts[0] + [sep] + Join(parts[1..], sep);
  }

  predicate EndsWith(text: string, suffix: string) {
    |suffix| <= |text| && text[|text| - |suffix|..] == suffix
  }

  /**
   * For a dot-free suffix `last` of `text` that is all of `text` or follows a ".",
   * `last` is a given dot-free word exactly when `text` is that word or ends with
   * "." and the word.
   */
  lemma {:induction false} AfterLastDotIs(text: string, last: string, word: string)
    requires |last| <= |text| && text[|text| - |last|..] == last && '.' !in last
    requires |last| < |text| ==> text[|text| - |last| - 1] == '.'
    requires '.' !in word
    ensures last == word <==> text == word || EndsWith(text, ['.'] + word)
  {
    var n, m := |text|, |word|;
    assert |last| == n ==> last == text;
    assert last == word && |last| < n ==> text[n - m - 1..] == ['.'] + word;
    var dotWord := EndsWith(text, ['.'] + word);
    assert dotWord ==> text[n - m - 1] == '.' && text[n - m..] == word;
  }

  /** "Predict" is enabled exactly for "jpg", "jpeg" and texts ending in ".jpg" or ".jpeg". */
  lemma PredictEnabledIff(text: string)
    ensures PredictEnabled(text) <==>
      text == "jpg" || text == "jpeg" || EndsWith(text, ".jpg") || EndsWith(text, ".jpeg")
  {
    LastPieceAfterLastDot(text);
    AfterLastDotIs(text, LastPiece(text), "jpg");
    AfterLastDotIs(text, LastPiece(text), "jpeg");
    assert ['.'] + "jpg" == ".jpg" && ['.'] + "jpeg" == ".jpeg";
  }

  /** Links naming a JPEG enable "Predict", and so does the bare word "jpg". */
  lemma PredictEnabledOnJpeg()
    ensures PredictEnabled("http://example.com/a.jpg")
    ensures PredictEnabled("http://example.com/a.jpeg")
    ensures PredictEnabled("jpg")
  {
    PredictEnabledIff("http://example.com/a.jpg");
    PredictEnabledIff("http://example.com/a.jpeg");
    PredictEnabledIff("jpg");
  }

  /** Other extensions, upper case and the empty text leave "Predict" disabled. */
  lemma PredictDisabledOtherwise()
    ensures !PredictEnabled("http://example.com/a.png")
    ensures !PredictEnabled("http://example.com/a.JPG")
    ensures !PredictEnabled("http://example.com/a.jpg.png")
    ensures !PredictEnabled("")
  {
    PredictEnabledIff("http://example.com/a.jpg.png");
    PredictEnabledIff("http://example.com/a.png");
    PredictEnabledIff("http://example.com/a.JPG");
    PredictEnabledIff("");
  }
}
