# improvebot diff gate, modelled in Dafny

`improvebot/validate_diff.py` is the gate that stands in front of the bot's
system prompt. It reads a unified diff from standard input and says whether
the diff may be applied. It strips surrounding whitespace, then runs four
checks in a fixed order. The first failing check writes one error line to
standard error and ends the run with exit status 2:

1. the diff is not empty;
2. some line is exactly `--- a/system_prompt/system_prompt.md`;
3. no line starts with `--- /dev/null`;
4. no line starts with `-You are Dogpatch LibreChat Build Copilot.`, unless
   `Allow-Edit-Core: YES` occurs somewhere in the diff.

When every check passes, the gate prints `OK` and exits with status 0.

The project has four modules:

- `Text` (`text.dfy`) models Python's `str.strip()`, `in` on strings, and
  splitting and joining on '\n'.
- `Multiline` (`multiline.dfy`) models the regex searches the script uses.
  These are a literal anchored by `^`, or by `^` and `$`, under `re.MULTILINE`.
  The module states them over character offsets, as the regex engine matches
  them, and proves each one equal to a per-line check over the split text.
- `ValidateDiff` (`validate_diff.dfy`) holds the gate itself. `Validate` gives
  the verdict, and its contract states each verdict in terms of the offset-level
  searches. `Run` adds the output streams and the exit status. This module also
  holds the properties that relate several inputs.
- `Scenarios` (`scenarios.dfy`) contains families of diffs that pin down the
  edges of each check. Each family is proved for all values of its parameters.

## Model

| member | source | states |
|---|---|---|
| Text.Strip | improvebot/validate_diff.py:4 | the stripped text is a contiguous part of the input; everything before and after it is whitespace; it starts and ends with a non-space character; it is empty exactly when the input is all whitespace |
| Text.StripIdempotent | improvebot/validate_diff.py:4 | stripping the stripped text changes nothing |
| Text.StripPadding | improvebot/validate_diff.py:4 | whitespace added on either side of a text is removed again, so the strip is the same as the strip of the unpadded text |
| Text.StripSolid | improvebot/validate_diff.py:4 | a text that begins and ends with a non-space character is its own strip |
| Text.ContainsStrip | improvebot/validate_diff.py:17 | a token with non-space ends occurs in the stripped diff exactly when it occurs in the raw input, because stripping never cuts such a token |
| Text.JoinSplit | improvebot/validate_diff.py:9-18 | joining the lines of a text with '\n' gives the text back, so the per-line view loses nothing |
| Text.SplitJoin | improvebot/validate_diff.py:9-18 | splitting a '\n'-join of newline-free lines gives those same lines back |
| Multiline.SearchWholeLineByLines | improvebot/validate_diff.py:9 | for a literal without '\n', a match of `^literal$` under `re.M` exists exactly when some line of the text equals the literal |
| Multiline.LineMatchIsLine | improvebot/validate_diff.py:9 | a match of `^literal$` at any offset is a whole line equal to the literal |
| Multiline.LineIsMatch | improvebot/validate_diff.py:9 | a line equal to the literal produces a match of `^literal$` |
| Multiline.SearchLinePrefixByLines | improvebot/validate_diff.py:13-18 | for a literal without '\n', a match of `^literal` under `re.M` exists exactly when some line starts with the literal |
| Multiline.PrefixMatchIsLine | improvebot/validate_diff.py:13-18 | a match of `^literal` at any offset lies at the start of a line that begins with the literal |
| Multiline.LinePrefixIsMatch | improvebot/validate_diff.py:13-18 | a line that begins with the literal produces a match of `^literal` |
| ValidateDiff.Validate | improvebot/validate_diff.py:4-20 | for each of the five outcomes (empty, wrong target, deletion, core identity edit, accept) gives a condition that holds exactly when that outcome is returned; each condition requires every earlier check to pass, so only the first failing check is reported; the identity check is lifted by the token anywhere in the input |
| ValidateDiff.Run | improvebot/validate_diff.py:4-22 | exit status is 0 or 2; it is 0 exactly for an accepted diff, which prints `OK` with nothing on standard error; with status 2, standard output is empty and standard error holds exactly the rejection's message |
| ValidateDiff.Report | improvebot/validate_diff.py:5-22 | for any verdict: exit status is 0 or 2, and 0 exactly for accept; accept prints `OK` and nothing on standard error; a rejection prints nothing on standard output and exactly its message line on standard error |
| ValidateDiff.ErrorMessagesDistinct | improvebot/validate_diff.py:6-20 | the four error messages are pairwise different, so the message identifies the failing check |
| ValidateDiff.ApprovalTokenAnywhere | improvebot/validate_diff.py:17 | a diff that contains the approval token, wherever it appears, is never rejected for editing the identity line |
| ValidateDiff.SurroundingWhitespaceIgnored | improvebot/validate_diff.py:4 | whitespace around the input never changes the verdict |
| ValidateDiff.VerdictOfStripped | improvebot/validate_diff.py:4 | the verdict on the stripped input equals the verdict on the input |
| ValidateDiff.ValidateIntended | improvebot/validate_diff.py:12-14 | a gate that also refuses a `+++ /dev/null` line rejects such a diff; without such a line it gives the same verdict as the script; it changes no verdict other than accept or a core identity edit |
| Scenarios.SolidLinesVerdict | improvebot/validate_diff.py:5-20 | for lines with nothing to strip, the verdict is the four checks applied to those lines, in order |
| Scenarios.OneLineDiffRejected | improvebot/validate_diff.py:9-10 | any one-line diff with non-space ends, other than the bare target header, is rejected for its target |
| Scenarios.LongerHeaderLineRejected | improvebot/validate_diff.py:9-10 | the target header followed on the same line by text ending in a non-space character does not count as the header |
| Scenarios.BareHeaderAccepted | improvebot/validate_diff.py:4-22 | the diff that is exactly the target header passes all four checks |
| Scenarios.TrailingSpaceAfterHeaderAccepted | improvebot/validate_diff.py:4-9 | the target header followed by whitespace only is accepted, because `strip()` removes the whitespace before `$` is tested: extra trailing characters count against the header, except whitespace at the end of the diff |
| Scenarios.CarriageReturnHeaderRejected | improvebot/validate_diff.py:4-10 | a header line ending in "\r\n" with another line after it keeps its '\r', so `$` does not match and the diff is rejected for its target |
| Scenarios.IndentedFirstHeaderCounts | improvebot/validate_diff.py:4-9 | blank lines and indentation before the first header do not change the verdict |
| Scenarios.IndentedLaterHeaderRejected | improvebot/validate_diff.py:4-10 | indentation before a header on a later line is kept, so that line does not match the target header |
| Scenarios.DeletionBesideTargetRejected | improvebot/validate_diff.py:13-14 | a line starting with `--- /dev/null` is rejected even next to the correct target header, whatever newline-free text follows it on its line, trailing whitespace included |
| Scenarios.DeletionWithoutTargetReportsTarget | improvebot/validate_diff.py:9-14 | a diff that fails both the target check and the deletion check is reported for its target, the earlier check |
| Scenarios.IdentityEditWithoutToken | improvebot/validate_diff.py:17-20 | removing the identity line without the token is rejected as a core identity edit |
| Scenarios.IdentityEditWithToken | improvebot/validate_diff.py:17-20 | the same edit followed by a line holding the token is accepted |
| Scenarios.FileDeletionWithoutTokenRefused | improvebot/validate_diff.py:13-20 | a diff deleting a prompt file that holds only the identity line passes check 3 and is stopped by check 4, because it removes the identity line |
| Scenarios.FileDeletionAccepted | improvebot/validate_diff.py:13-22 | the same deletion diff, with the approval token on a line ahead of the headers, is accepted (see Findings) |
| Scenarios.FileDeletionRefusedWhenCompleted | improvebot/validate_diff.py:13-14 | the completed gate rejects the approved deletion diff as a deletion |
| Scenarios.OtherFileDeletionAccepted | improvebot/validate_diff.py:9-22 | a diff that carries the target header and deletes some other file is accepted without any token, since no `--- /dev/null` line and no identity line appear (see Findings) |
| Scenarios.OtherFileDeletionRefusedWhenCompleted | improvebot/validate_diff.py:13-14 | the completed gate rejects that diff as a deletion |
| Scenarios.TrailingSpaceOfSecondLine | improvebot/validate_diff.py:4 | for a two-line diff, whitespace at the end of the second line never changes the verdict, because `strip()` removes it |

## Left out

- Reading standard input is not modelled. The input is the text as the script receives it from `sys.stdin.read()`. On POSIX systems standard input is opened with `newline="\n"`, so a '\r' before each '\n' reaches the script unchanged, and the model keeps it as an ordinary character (see `Scenarios.CarriageReturnHeaderRejected`). Only on Windows does text-mode reading translate "\r\n" and a lone "\r" to "\n" first, and that translation is not modelled.
- Run: covers decodable input only. What happens to bytes that the locale's codec cannot decode depends on the error handler Python picks for standard input. With the `strict` handler (for example an en_US.UTF-8 locale without UTF-8 mode), `sys.stdin.read()` raises `UnicodeDecodeError`, and the run ends with a traceback and exit status 1, outside the 0 or 2 that `Run` promises. With the `surrogateescape` handler (the C or POSIX locale, the C.UTF-8 locale it is coerced to, and UTF-8 mode, which PEP 686 makes the default), nothing is raised: each such byte arrives as a lone surrogate from U+DC80 to U+DCFF, and the run ends with status 0 or 2. A Dafny `string` cannot hold a lone surrogate, so this input is outside the model. Such a character is never whitespace and occurs in none of the literals, so the verdict would be that of any other non-space character in its place, but this is not modelled.
- `print` and `sys.exit` are modelled as the returned `Outcome` value (standard output, standard error and exit status), not as effects.
- The general regex engine is left out. The three patterns are fixed literals between anchors, and `Multiline` models exactly those searches. The escaped `\.` in the patterns is a literal dot.
- Whitespace for `strip()` is a fixed character set: the characters for which Python's `str.isspace()` holds. Unicode database versions are not modelled.
- The knowledge-retrieval, gap-detection, expert-contact, workflow and knowledge-update components of the repository are not part of this model. No source for them is modelled here.

## Findings

| source | as written | input that shows it | evidently intended | confidence | as-written member | corrected member |
|---|---|---|---|---|---|---|
| improvebot/validate_diff.py:12-14 | the "Block deletions" check rejects only lines that start with `--- /dev/null`. In a unified diff that header is the old side of a file being created. A deleted file shows `+++ /dev/null` on its new side, and nothing checks for that. A deletion that removes the identity line is still stopped by check 4 unless the approval token is present. A deletion therefore gets through when the token appears anywhere in the diff, or when the prompt no longer holds the identity line. A diff that carries the target header and deletes some other file gets through with neither, because only the `--- a/system_prompt/system_prompt.md` line is looked for, not which file a hunk touches | the lines `Allow-Edit-Core: YES`, `--- a/system_prompt/system_prompt.md`, `+++ /dev/null`, `@@ -1 +0,0 @@`, `-You are Dogpatch LibreChat Build Copilot.`: a token line, then a deletion of a prompt file that holds only the identity line; or, without a token, `--- a/system_prompt/system_prompt.md`, `+++ b/system_prompt/system_prompt.md`, `--- a/notes.md`, `+++ /dev/null`, `@@ -1 +0,0 @@`, `-x` | a diff whose new side is `/dev/null` is rejected as a deletion, token or not | medium, not executed | Scenarios.FileDeletionAccepted, Scenarios.OtherFileDeletionAccepted | ValidateDiff.ValidateIntended, Scenarios.FileDeletionRefusedWhenCompleted, Scenarios.OtherFileDeletionRefusedWhenCompleted |
