/** The input validators of utils.py: `validate_text_length` (over the
    stripped text) and `validate_questions_count` (against the configured
    bounds). */
module Validation {
  import Config

  /** The characters `str.strip()` removes, restricted to ASCII: space and the
      code points 9 to 13 and 28 to 31. */
  predicate IsWhitespace(c: char) {
    c == ' ' || 9 <= c as int <= 13 || 28 <= c as int <= 31
  }

  predicate AllWhitespace(s: string) {
    forall i :: 0 <= i < |s| ==> IsWhitespace(s[i])
  }

  /** The index of the first non-whitespace character of `s` at or after
      `i`, or `|s|` when there is none. */
  function SkipForward(s: string, i: nat): (k: nat)
    requires i <= |s|
    ensures i <= k <= |s|
    ensures forall j :: i <= j < k ==> IsWhitespace(s[j])
    ensures k < |s| ==> !IsWhitespace(s[k])
    decreases |s| - i
  {
    if i < |s| && IsWhitespace(s[i]) then SkipForward(s, i + 1) else i
  }

  /** The index just past the last non-whitespace character of `s` below
      `j`, or `lo` when `s[lo..j]` is all whitespace. */
  function SkipBackward(s: string, lo: nat, j: nat): (k: nat)
    requires lo <= j <= |s|
    ensures lo <= k <= j
    ensures forall m :: k <= m < j ==> IsWhitespace(s[m])
    ensures k > lo ==> !IsWhitespace(s[k - 1])
    decreases j
  {
    if j > lo && IsWhitespace(s[j - 1]) then SkipBackward(s, lo, j - 1) else j
  }

  /** `r` is the slice of `s` starting at `i`, and everything of `s` before
      and after that slice is whitespace. */
  predicate PaddedSliceAt(r: string, s: string, i: int) {
    0 <= i <= |s| - |r| && (forall k :: 0 <= k < |r| ==> r[k] == s[i + k]) &&
    (forall k :: 0 <= k < i ==> IsWhitespace(s[k])) &&
    (forall k :: i + |r| <= k < |s| ==> IsWhitespace(s[k]))
  }

  /** Neither end of `r` is whitespace. */
  predicate TrimmedEnds(r: string) {
    r != [] ==> !IsWhitespace(r[0]) && !IsWhitespace(r[|r| - 1])
  }

  /** `str.strip()`: a contiguous slice of `s` with whitespace only outside
      it and no whitespace at either of its ends. */
  function Strip(s: string): (r: string)
    ensures TrimmedEnds(r)
    ensures exists i :: PaddedSliceAt(r, s, i)
  {
    var a := SkipForward(s, 0);
    var b := SkipBackward(s, a, |s|);
    assert PaddedSliceAt(s[a..b], s, a);
    s[a..b]
  }

  /** `Strip` is characterised by its postcondition: any slice of `s` with
      only whitespace around it and none at its ends is the stripped text. */
  lemma StripUnique(s: string, r: string, i: int)
    requires PaddedSliceAt(r, s, i) && TrimmedEnds(r)
    ensures Strip(s) == r
  {
    var a := SkipForward(s, 0);
    var b := SkipBackward(s, a, |s|);
    if r == [] {
      assert a == |s|;
    } else {
      var e := i + |r|;
      assert s[i] == r[0] && s[e - 1] == r[|r| - 1];
      assert a == i;
      assert b == e;
      assert s[a..b] == r;
    }
  }

  /** `validate_text_length`: the empty string is rejected outright;
      otherwise the length of the stripped text must lie within the bounds. */
  function ValidateTextLength(text: string, maxLength: int, minLength: int := 1): (ok: bool)
    ensures ok ==> text != [] && (minLength >= 1 ==> !AllWhitespace(text))
  {
    text != [] && minLength <= |Strip(text)| <= maxLength
  }

  /** `validate_questions_count`: the number of questions lies within the
      configured bounds. */
  function ValidateQuestionsCount<T>(questions: seq<T>): (ok: bool)
    ensures ok ==> questions != [] && |questions| <= Config.MAX_QUESTIONS
  {
    Config.MIN_QUESTIONS <= |questions| <= Config.MAX_QUESTIONS
  }

  /** Stripping is idempotent. */
  lemma StripIdempotent(s: string)
    ensures Strip(Strip(s)) == Strip(s)
  {
    var r := Strip(s);
    assert PaddedSliceAt(r, r, 0);
    StripUnique(r, r, 0);
  }

  /** A padded slice of `s` stays one when `s` is padded further. */
  lemma PaddedSliceGrows(w1: string, s: string, w2: string, r: string, i: int)
    requires AllWhitespace(w1) && AllWhitespace(w2)
    requires PaddedSliceAt(r, s, i)
    ensures PaddedSliceAt(r, w1 + s + w2, |w1| + i)
  {
    var x := w1 + s + w2;
    forall k | 0 <= k < |r| ensures r[k] == x[|w1| + i + k] {
      assert x[|w1| + i + k] == s[i + k];
    }
    forall k | 0 <= k < |w1| + i ensures IsWhitespace(x[k]) {
      if k >= |w1| { assert x[k] == s[k - |w1|]; }
    }
    forall k | |w1| + i + |r| <= k < |x| ensures IsWhitespace(x[k]) {
      if k < |w1| + |s| { assert x[k] == s[k - |w1|]; } else { assert x[k] == w2[k - |w1| - |s|]; }
    }
  }

  /** Surrounding a string with whitespace does not change its stripped form. */
  lemma StripIgnoresPadding(w1: string, s: string, w2: string)
    requires AllWhitespace(w1) && AllWhitespace(w2)
    ensures Strip(w1 + s + w2) == Strip(s)
  {
    var r := Strip(s);
    var i :| PaddedSliceAt(r, s, i);
    PaddedSliceGrows(w1, s, w2, r, i);
    StripUnique(w1 + s + w2, r, |w1| + i);
  }

  /** Whitespace-only text is rejected whenever at least one character is
      required, although it passes the emptiness test. */
  lemma WhitespaceOnlyRejected(text: string, maxLength: int, minLength: int)
    requires AllWhitespace(text)
    requires minLength >= 1
    ensures !ValidateTextLength(text, maxLength, minLength)
  {
    assert SkipForward(text, 0) == |text|;
  }

  /** Padding non-empty text with whitespace never changes its verdict. */
  lemma ValidateTextLengthIgnoresPadding(w1: string, text: string, w2: string, maxLength: int, minLength: int)
    requires AllWhitespace(w1) && AllWhitespace(w2)
    requires text != []
    ensures ValidateTextLength(w1 + text + w2, maxLength, minLength) == ValidateTextLength(text, maxLength, minLength)
  {
    StripIgnoresPadding(w1, text, w2);
  }

  /** Text without surrounding whitespace is judged by its own length. */
  lemma ValidateTextLengthOfTrimmed(text: string, maxLength: int, minLength: int)
    requires text != [] && !IsWhitespace(text[0]) && !IsWhitespace(text[|text| - 1])
    ensures ValidateTextLength(text, maxLength, minLength) <==> minLength <= |text| <= maxLength
  {
    assert PaddedSliceAt(text, text, 0);
    StripUnique(text, text, 0);
  }

  /** The empty string is rejected even when the minimum is zero, while a
      non-empty whitespace-only string is then accepted. */
  lemma EmptyTextRejected(maxLength: int, minLength: int)
    ensures !ValidateTextLength("", maxLength, minLength)
    ensures 0 <= maxLength && minLength <= 0 ==> ValidateTextLength(" ", maxLength, minLength)
  {
  }

  /** Under the shipped bounds a question list is accepted exactly when it
      holds between 1 and 20 questions, so a single question suffices. */
  lemma QuestionsCountShippedBounds<T>(questions: seq<T>, q: T)
    ensures ValidateQuestionsCount(questions) <==> 1 <= |questions| <= 20
    ensures ValidateQuestionsCount([q])
    ensures !ValidateQuestionsCount<T>([])
  {
  }
}
