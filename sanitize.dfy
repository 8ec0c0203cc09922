/** The two sanitisers of utils.py: `sanitize_filename` and `sanitize_input`.
    Each drops a class of characters and then truncates. */
module Sanitize {
  import opened TextFilter

  /** Characters `sanitize_filename` removes: the class `[<>:"/\\|?*]`. */
  const FORBIDDEN_FILENAME_CHARS: string := "<>:\"/\\|?*"

  /** Length limits hard-coded in the two sanitisers. */
  const MAX_FILENAME_LENGTH: nat := 255
  const MAX_INPUT_LENGTH: nat := 1000

  predicate AllowedInFilename(c: char) {
    c !in FORBIDDEN_FILENAME_CHARS
  }

  /** Kept by `sanitize_input`: code point 32 or above, a newline or a tab. */
  predicate Printable(c: char) {
    c as int >= 32 || c == '\n' || c == '\t'
  }

  /** `sanitize_filename`: remove every forbidden character, then keep at
      most the first 255 characters. */
  function SanitizeFilename(filename: string): (r: string)
    ensures |r| <= MAX_FILENAME_LENGTH
    ensures forall i :: 0 <= i < |r| ==> r[i] !in FORBIDDEN_FILENAME_CHARS
  {
    Take(Keep(AllowedInFilename, filename), MAX_FILENAME_LENGTH)
  }

  /** `sanitize_input`: empty input gives the empty string; otherwise drop
      control characters below 32 other than newline and tab, then keep at
      most the first 1000 characters. */
  function SanitizeInput(text: string): (r: string)
    ensures text == [] ==> r == []
    ensures |r| <= MAX_INPUT_LENGTH
    ensures forall i :: 0 <= i < |r| ==> r[i] as int >= 32 || r[i] == '\n' || r[i] == '\t'
  {
    if text == [] then [] else Take(Keep(Printable, text), MAX_INPUT_LENGTH)
  }

  /** The sanitised file name is the input with its characters deleted, never
      reordered or invented. */
  lemma SanitizeFilenameIsSubsequence(filename: string)
    ensures IsSubsequence(SanitizeFilename(filename), filename)
  {
    TakeKeepIsSubsequence(AllowedInFilename, filename, MAX_FILENAME_LENGTH);
  }

  /** Sanitising a file name twice gives the same result as sanitising once. */
  lemma SanitizeFilenameIdempotent(filename: string)
    ensures SanitizeFilename(SanitizeFilename(filename)) == SanitizeFilename(filename)
  {
    TakeKeepIdempotent(AllowedInFilename, filename, MAX_FILENAME_LENGTH);
  }

  /** A name of at most 255 characters is left alone exactly when it holds no
      forbidden character. */
  lemma SanitizeFilenameFixesCleanNames(filename: string)
    requires |filename| <= MAX_FILENAME_LENGTH
    ensures SanitizeFilename(filename) == filename <==>
            forall i :: 0 <= i < |filename| ==> filename[i] !in FORBIDDEN_FILENAME_CHARS
  {
    KeepIdentity(AllowedInFilename, filename);
  }

  /** Only the forbidden characters are removed: as long as the truncation
      does not bite, the result is every allowed character of the name, and
      sanitising a concatenation sanitises each part. */
  lemma SanitizeFilenameConcat(a: string, b: string)
    requires |Keep(AllowedInFilename, a + b)| <= MAX_FILENAME_LENGTH
    ensures SanitizeFilename(a + b) == SanitizeFilename(a) + SanitizeFilename(b)
  {
    KeepAppend(AllowedInFilename, a, b);
  }

  /** Sanitised input is the input with characters deleted, order kept. */
  lemma SanitizeInputIsSubsequence(text: string)
    ensures IsSubsequence(SanitizeInput(text), text)
  {
    if text != [] {
      TakeKeepIsSubsequence(Printable, text, MAX_INPUT_LENGTH);
    }
  }

  /** Sanitising input twice gives the same result as sanitising once. */
  lemma SanitizeInputIdempotent(text: string)
    ensures SanitizeInput(SanitizeInput(text)) == SanitizeInput(text)
  {
    if text != [] {
      TakeKeepIdempotent(Printable, text, MAX_INPUT_LENGTH);
    }
  }

  /** Input of at most 1000 characters is left alone exactly when it holds no
      control character other than newline and tab. */
  lemma SanitizeInputFixesCleanText(text: string)
    requires |text| <= MAX_INPUT_LENGTH
    ensures SanitizeInput(text) == text <==>
            forall i :: 0 <= i < |text| ==> text[i] as int >= 32 || text[i] == '\n' || text[i] == '\t'
  {
    KeepIdentity(Printable, text);
  }
}
