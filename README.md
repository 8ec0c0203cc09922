# Survey bot helpers: rate limiter, lock registry, validators, sanitisers

This project models the self-contained, sequential helpers of a Telegram survey bot written in Python, and proves properties about them in Dafny. The helpers live in `utils.py`, and the constants they read live in `config.py`:

- **Rate limiter** (`check_rate_limit`). It keeps an in-memory table from user id to action type to `{last_request, request_count}`. Each call does one of four things:
  - create the entry;
  - refuse at the threshold;
  - count one more request inside the window;
  - open a new window once the old one has run out.

  Administrators get their own threshold and window. Modules: `RateLimit`, the class `RateLimit.RateLimiter`.
- **File-lock registry** (`get_file_lock`). It is a get-or-create table from file path to lock. Modules: `FileLocks`, the class `FileLocks.LockTable`.
- **Validators** (`validate_text_length`, `validate_questions_count`). `validate_text_length` rejects empty text, then compares the length of the stripped text with the bounds. `validate_questions_count` compares a question count with the configured bounds. Module: `Validation`.
- **Sanitisers** (`sanitize_filename`, `sanitize_input`). Each drops a character class and then truncates, to 255 and 1000 characters respectively. Modules: `Sanitize`, built on the generic filter and truncation of `TextFilter`.
- **Configuration** (`Config`). This covers the shipped constants and `validate_config`. `validate_config` runs seven assertions in order and fails at the first one that does not hold. Module: `Config`.

The two tables the source keeps as module-level dictionaries become classes with map fields. Their methods are proved against pure reference functions (`RateLimit.After`/`RateLimit.Allowed` and `FileLocks.GetOrCreate`), and the lemmas state what the source promises about those functions. The validators, sanitisers and configuration check are plain functions with lemmas.

Three points of the code's behaviour are worth stating outright:

- **Window expiry.** A request counts as inside the window while `now - last_request < window` (utils.py:54), so a window expires once the difference reaches `window`. The model keeps `<`, and a negative difference (a clock that went backwards) also counts as inside the window. The code refuses a request once the stored count has reached the threshold, so each window admits exactly `max_requests` requests (`RateLimit.BurstWithinWindow`).
- **File writes.** The file helpers write files directly, with no temp-file-then-rename step. They are not modelled, and nothing here claims atomic replacement.
- **Control characters.** `sanitize_input` keeps every character whose code is 32 or above. DEL (127) and the C1 controls (128–159) therefore pass through, even though the comment speaks of removing control characters. The model keeps this behaviour.

## Model

| member | source | states |
|---|---|---|
| `Config.Passes` | config.py:37-43 | Each of the seven error kinds holds the condition of one assertion: a truthy string token; a truthy list of admin ids; only integers in that list; a truthy encoding; and each maximum strictly above its minimum. |
| `Config.ValidateConfig` | config.py:34-43 | The check accepts exactly when all seven assertions hold. When it rejects, it reports an assertion that fails, and every earlier assertion holds. |
| `Config.AcceptedSettings` | config.py:37-43 | Accepted settings have a non-empty string token and a non-empty list of integer admin ids. They name an encoding, and each maximum (name length, description length, question count) is strictly greater than its minimum. |
| `Config.ShippedConfigIsValid` | config.py:1-43 | The shipped values pass `validate_config`. |
| `Config.ShippedBoundsOrdered` | config.py:14-19 | The shipped bounds are positive and strictly ordered: names 3 < 100, descriptions 10 < 500, questions 1 < 20. |
| `Config.RateLimitThresholds` | config.py:24-27 | Normal threshold 5 ≥ 1 is below the administrators' 20, and both windows are 60 seconds. |
| `TextFilter.Keep` | utils.py:156 | The filtered string is no longer than the input, and every character in it satisfies the filter. |
| `TextFilter.KeepSingle` | utils.py:156 | A single character is kept exactly when it satisfies the filter. Together with `KeepAppend`, this fixes the result of `Keep` on every string. |
| `TextFilter.Take` | utils.py:158 | Truncation returns a prefix of the input whose length is the smaller of the input length and the limit. |
| `TextFilter.KeepAppend` | utils.py:156 | Filtering a concatenation is the concatenation of the filtered parts. |
| `TextFilter.KeepIdentity` | utils.py:165 | Filtering leaves a string unchanged exactly when all of its characters pass. |
| `TextFilter.TakeKeepIsSubsequence` | utils.py:153-167 | Filtering and then truncating yields a subsequence of the input, in the original order. |
| `TextFilter.TakeKeepIdempotent` | utils.py:153-167 | Filtering and then truncating, applied twice, equals applying it once. |
| `Sanitize.AllowedInFilename` | utils.py:156 | A character survives `sanitize_filename` exactly when it is none of the nine characters `<>:"/\|?*`. |
| `Sanitize.Printable` | utils.py:165 | A character survives `sanitize_input` exactly when its code is at least 32 or it is a newline or a tab. |
| `Sanitize.SanitizeFilename` | utils.py:153-158 | The result holds none of `<>:"/\|?*` and has at most 255 characters. |
| `Sanitize.SanitizeFilenameIsSubsequence` | utils.py:153-158 | The sanitised name is a subsequence of the input. |
| `Sanitize.SanitizeFilenameIdempotent` | utils.py:153-158 | Sanitising a name twice equals sanitising it once. |
| `Sanitize.SanitizeFilenameFixesCleanNames` | utils.py:153-158 | A name of at most 255 characters comes back unchanged exactly when it holds no forbidden character. |
| `Sanitize.SanitizeFilenameConcat` | utils.py:156-158 | While truncation does not apply, sanitising `a + b` gives `sanitize(a) + sanitize(b)`. |
| `Sanitize.SanitizeInput` | utils.py:160-167 | Empty input gives `""`. The result has at most 1000 characters, each with a code of at least 32 or equal to newline or tab. |
| `Sanitize.SanitizeInputIsSubsequence` | utils.py:160-167 | Sanitised input is a subsequence of the input. |
| `Sanitize.SanitizeInputIdempotent` | utils.py:160-167 | Sanitising input twice equals sanitising it once. |
| `Sanitize.SanitizeInputFixesCleanText` | utils.py:160-167 | Text of at most 1000 characters comes back unchanged exactly when it has no control character other than newline and tab. |
| `Validation.IsWhitespace` | utils.py:146 | The characters that `str.strip()` removes, restricted to ASCII: space and codes 9–13 and 28–31. |
| `Validation.SkipForward` | utils.py:146 | The index returned is the first non-whitespace position at or after the start, or the end of the text. Everything skipped is whitespace. |
| `Validation.SkipBackward` | utils.py:146 | The index returned lies just past the last non-whitespace character above the lower bound, or is the lower bound itself. Everything skipped is whitespace. |
| `Validation.Strip` | utils.py:146 | The stripped text is a contiguous slice of the input with only whitespace outside it. Neither end of the slice is whitespace. |
| `Validation.StripUnique` | utils.py:146 | Any slice of the input with only whitespace around it and none at its ends is the stripped text, so the two properties above pin `strip()` down completely. |
| `Validation.StripIdempotent` | utils.py:146 | Stripping twice gives the same result as stripping once. |
| `Validation.PaddedSliceGrows` | utils.py:146 | A slice with only whitespace around it keeps that property when more whitespace is added on either side. |
| `Validation.StripIgnoresPadding` | utils.py:146 | Surrounding a string with whitespace on either side does not change its stripped form. |
| `Validation.ValidateTextLength` | utils.py:142-147 | An accepted text is non-empty. When the minimum is at least 1, it also holds a non-whitespace character. |
| `Validation.WhitespaceOnlyRejected` | utils.py:142-147 | Whitespace-only text is rejected whenever the minimum length is at least 1. |
| `Validation.ValidateTextLengthIgnoresPadding` | utils.py:142-147 | Padding non-empty text with whitespace never changes the verdict. |
| `Validation.ValidateTextLengthOfTrimmed` | utils.py:142-147 | Text with no whitespace at its ends is accepted exactly when `min_length <= len(text) <= max_length`. |
| `Validation.EmptyTextRejected` | utils.py:144-147 | The empty string is rejected even with a minimum of 0. A single space is then accepted, because the emptiness test looks at the unstripped text. |
| `Validation.ValidateQuestionsCount` | utils.py:149-151 | An accepted question list is non-empty and holds at most `MAX_QUESTIONS` questions. |
| `Validation.QuestionsCountShippedBounds` | utils.py:149-151 | Under the shipped bounds a list is accepted exactly when it holds 1 to 20 questions. A one-question list is accepted and the empty list is rejected. |
| `RateLimit.MaxRequests` | utils.py:47-52 | The threshold is the administrators' one for an administrator and the normal one otherwise. It is at least 1, and an administrator's threshold is never below the normal one. |
| `RateLimit.TimeWindow` | utils.py:47-52 | The window is the administrators' one for an administrator and the normal one otherwise. It is always positive. |
| `RateLimit.Classify` | utils.py:34-60 | A call creates an entry exactly when its pair has none. A reset happens only once the difference reaches the window. A refusal or an increment happens only while the difference is below the window. |
| `RateLimit.Allowed` | utils.py:29-62 | A call is refused exactly when its pair has an entry whose window is still open and whose count has reached the threshold. Every other call returns `True`. |
| `RateLimit.Put` | utils.py:34-41 | Storing an entry sets exactly that `(user_id, action_type)` entry. It creates the user's inner table when it is missing and leaves every other entry as it was. |
| `RateLimit.After` | utils.py:29-62 | A call adds at most its own user to the table. Every other `(user_id, action_type)` entry keeps its presence and its value. |
| `RateLimit.FirstRequestCreates` | utils.py:34-42 | With no entry for the pair, the call is allowed and stores `{now, 1}`, whatever `is_admin` is. |
| `RateLimit.RejectedAtLimit` | utils.py:54-56 | Inside the window with the count at or above the threshold, the call is refused and the table is unchanged. |
| `RateLimit.IncrementedInsideWindow` | utils.py:54-57 | Inside the window with the count below the threshold, the call is allowed. The count rises by exactly 1 and `last_request` stays. |
| `RateLimit.ResetAfterWindow` | utils.py:58-60 | Once `now - last_request >= window`, the call is allowed and the entry becomes `{now, 1}`. |
| `RateLimit.CountStaysBounded` | utils.py:44-61 | If every stored count lies in `[1, max]` and the caller's threshold is at most `max`, every count still lies in `[1, max]` after the call. |
| `RateLimit.CountBoundedByThreshold` | utils.py:47-60 | With a fixed `is_admin`, counts stay within that class's threshold. With the flag varying between calls, counts stay within the administrators' threshold. |
| `RateLimit.ReplayAppend` | utils.py:29-62 | Running two batches of calls in a row equals running them as one batch. |
| `RateLimit.ReplayWithinWindow` | utils.py:44-61 | Calls inside a window opened at `start` are allowed while the count is below the threshold and refused after that. The window start never moves, and the count ends capped at the threshold. |
| `RateLimit.BurstWithinWindow` | utils.py:34-61 | For a new pair, calls within one window of the first are allowed for exactly the first `max_requests` of them. The entry ends as `{first time, min(n, max_requests)}`. |
| `RateLimit.NormalUserScenario` | utils.py:29-62 | Six normal requests within a minute get five acceptances and one refusal. A request 61 seconds after the first is accepted and resets the entry to `{now, 1}`. |
| `RateLimit.RateLimiter.constructor` | utils.py:21 | The table starts empty, and every count in it lies within the administrators' threshold. |
| `RateLimit.RateLimiter.CheckRateLimit` | utils.py:29-62 | The method updates the table in place and returns exactly what `Allowed` and `After` describe. It keeps every count within the administrators' threshold. |
| `FileLocks.GetOrCreate` | utils.py:23-27 | The returned lock is the one stored for the path. The key set grows by at most the path, and every existing entry is unchanged. |
| `FileLocks.ExistingLockReturned` | utils.py:25-27 | For a path that already has a lock, that lock is returned and the registry is unchanged. |
| `FileLocks.SameLockForSamePath` | utils.py:23-27 | A second call for the same path returns the same lock and changes nothing. |
| `FileLocks.AtMostOneInsertion` | utils.py:25-26 | The table grows by one entry exactly when the path was absent. |
| `FileLocks.GetOrCreatePreservesValid` | utils.py:25-26 | Stored locks stay distinct per path and are all previously issued handles. |
| `FileLocks.DistinctPathsDistinctLocks` | utils.py:23-27 | Two different paths never receive the same lock, and the first path's lock survives the second call. |
| `FileLocks.LockTable.constructor` | utils.py:20 | The table starts empty. |
| `FileLocks.LockTable.GetFileLock` | utils.py:23-27 | The method updates the table in place exactly as `GetOrCreate` describes, and keeps the registry valid. |

## Left out

- The file-system helpers are left out, because each is file-system I/O (aiofiles, `os.walk`, `statvfs`, `getsize`, `ctime`) whose outcome depends on the disk. What they do:
  - `safe_file_operation` runs an operation under the path's lock and turns any exception into `None` (utils.py:64-72).
  - `safe_read_file` returns `""` for a missing file or on error (utils.py:112-120).
  - `safe_write_file` returns `False` on error (utils.py:122-130).
  - `safe_append_file` writes a newline before the content and returns `False` on error (utils.py:132-140).
  - `check_disk_space` and `check_file_size` return `True` when the check itself fails, so they fail open (utils.py:74-91).
  - `cleanup_temp_files` deletes only files named `survey_data_*.txt` whose creation time is more than 24 hours old (utils.py:93-109).
  - `create_backup` and `restore_from_backup` copy files.
- The locks' mutual exclusion is left out, because it is asyncio concurrency. Locks are opaque integer handles drawn from a counter, and only the registry table is modelled.
- `generate_secure_id` is left out, because it depends on `uuid4` randomness.
- `RateLimit.RateLimiter.CheckRateLimit` takes the current time as an integer argument in seconds. The source reads `datetime.now()` and compares the float `total_seconds()`, so sub-second differences are not modelled.
- `RATE_LIMIT_CLEANUP_TIME`, `CLEANUP_INTERVAL`, `ERROR_RETRY_INTERVAL`, `MAX_SURVEYS` and `MAX_ANSWER_LENGTH` are declared as constants only. The modelled code never reads them; in particular no sweep of the rate-limit table exists.
- `Validation.Strip` strips only the ASCII whitespace of Python's `str.isspace` (space and codes 9–13 and 28–31). The Unicode whitespace that `str.strip()` also removes, such as U+0085, U+00A0 and U+2000–U+200A, is not modelled.
- `Config.ValidateConfig` treats the values it inspects as strings, integers, lists or None. Python's `bool`, which `isinstance(x, int)` also accepts, is not modelled. Running Python with `-O` disables the assertions altogether; that is not modelled either.
- bot.py is not part of this model. It holds only message handlers and JSON file I/O.
- The survey catalog, response log parser, statistics and session state machine do not appear in the modelled source files, so they are not part of this model.
