/**
 The improvebot diff gate. It reads a unified diff and decides whether it may
 be applied to the bot's system prompt. After removing surrounding whitespace
 it runs four checks in a fixed order, and the first one that fails rejects
 the diff:

   1. the diff is not empty;
   2. some line is exactly the header `--- a/system_prompt/system_prompt.md`;
   3. no line starts with `--- /dev/null`;
   4. no line starts with `-You are Dogpatch LibreChat Build Copilot.`, unless
      the approval token `Allow-Edit-Core: YES` occurs somewhere in the diff.

 `Validate` runs the checks on the lines of the stripped diff. Its contract
 states the verdict in terms of the script's own regex searches (module
 `Multiline`), so the per-line formulation is proved to agree with them.
 */
module ValidateDiff {
  import opened Text
  import opened Multiline

  /** The header every accepted diff carries: it edits the nested prompt file. */
  const TargetHeader: string := "--- a/system_prompt/system_prompt.md"

  /** The header the script's deletion check looks for. In a unified diff it is
      the old side of a file that is being created. */
  const DeletionHeader: string := "--- /dev/null"

  /** A removed line that alters the prompt's first identity line. */
  const IdentityRemoval: string := "-You are Dogpatch LibreChat Build Copilot."

  /** The new-side header of a diff that deletes a file. */
  const DeletedFileHeader: string := "+++ /dev/null"

  /** The token that authorises altering the identity line. */
  const ApprovalToken: string := "Allow-Edit-Core: YES"

  /** Why a diff was turned away, one case per check. */
  datatype Rejection = EmptyDiff | WrongTarget | DeletionDiff | CoreIdentityEdit

  datatype Verdict = Accept | Reject(reason: Rejection)

  /** What the gate leaves behind: its two output streams and its exit status. */
  datatype Outcome = Outcome(stdout: string, stderr: string, exitCode: int)

  /** The message written to standard error for each rejection. */
  function ErrorMessage(reason: Rejection): string {
    match reason
    case EmptyDiff => "ERROR: Empty diff."
    case WrongTarget => "ERROR: Diff must target system_prompt/system_prompt.md"
    case DeletionDiff => "ERROR: Deletion diffs are not allowed."
    case CoreIdentityEdit => "ERROR: Core identity line cannot be altered without explicit approval token."
  }

  /** None of the three searched literals spans a line. */
  lemma LiteralsAreSingleLines()
    ensures '\n' !in TargetHeader
    ensures '\n' !in DeletionHeader
    ensures '\n' !in IdentityRemoval
  {
    TargetHeaderIsOneLine();
    DeletionHeaderIsOneLine();
    IdentityRemovalIsOneLine();
  }

  lemma TargetHeaderIsOneLine() ensures '\n' !in TargetHeader {}
  lemma DeletionHeaderIsOneLine() ensures '\n' !in DeletionHeader {}
  lemma IdentityRemovalIsOneLine() ensures '\n' !in IdentityRemoval {}

  /** The approval token neither begins nor ends with whitespace. */
  lemma TokenHasSolidEnds()
    ensures ApprovalToken != [] && !IsSpace(ApprovalToken[0]) && !IsSpace(ApprovalToken[|ApprovalToken| - 1])
  {
  }

  /** The verdict on the text `input` read from standard input. The checks are
      stated on `Strip(input)`, the text the script searches; the approval token
      may be looked for in `input` itself, since stripping never cuts it. */
  function Validate(input: string): (v: Verdict)
    ensures v == Reject(EmptyDiff) <==> AllSpace(input)
    ensures v == Reject(WrongTarget) <==>
      && !AllSpace(input)
      && !SearchWholeLine(Strip(input), TargetHeader)
    ensures v == Reject(DeletionDiff) <==>
      && !AllSpace(input)
      && SearchWholeLine(Strip(input), TargetHeader)
      && SearchLinePrefix(Strip(input), DeletionHeader)
    ensures v == Reject(CoreIdentityEdit) <==>
      && !AllSpace(input)
      && SearchWholeLine(Strip(input), TargetHeader)
      && !SearchLinePrefix(Strip(input), DeletionHeader)
      && !Contains(input, ApprovalToken)
      && SearchLinePrefix(Strip(input), IdentityRemoval)
    ensures v == Accept <==>
      && !AllSpace(input)
      && SearchWholeLine(Strip(input), TargetHeader)
      && !SearchLinePrefix(Strip(input), DeletionHeader)
      && (Contains(input, ApprovalToken) || !SearchLinePrefix(Strip(input), IdentityRemoval))
  {
    var diff := Strip(input);
    var lines := Split(diff);
    LiteralsAreSingleLines();
    SearchWholeLineByLines(diff, TargetHeader);
    SearchLinePrefixByLines(diff, DeletionHeader);
    SearchLinePrefixByLines(diff, IdentityRemoval);
    TokenHasSolidEnds();
    ContainsStrip(input, ApprovalToken);
    if diff == [] then Reject(EmptyDiff)
    else if TargetHeader !in lines then Reject(WrongTarget)
    else if SomeLineStartsWith(lines, DeletionHeader) then Reject(DeletionDiff)
    else if !Contains(diff, ApprovalToken) && SomeLineStartsWith(lines, IdentityRemoval) then Reject(CoreIdentityEdit)
    else Accept
  }

  /** What the script writes and returns for a verdict: `OK` on standard
      output and exit status 0 for an accepted diff; otherwise one error line
      on standard error and exit status 2. */
  function Report(v: Verdict): (o: Outcome)
    ensures o.exitCode == 0 || o.exitCode == 2
    ensures o.exitCode == 0 <==> v == Accept
    ensures o.exitCode == 0 ==> o.stdout == "OK\n" && o.stderr == ""
    ensures o.exitCode == 2 ==> o.stdout == "" && o.stderr == ErrorMessage(v.reason) + "\n"
  {
    match v
    case Accept => Outcome("OK\n", "", 0)
    case Reject(reason) => Outcome("", ErrorMessage(reason) + "\n", 2)
  }

  /** The whole run on the text read from standard input. */
  function Run(input: string): (o: Outcome)
    ensures o.exitCode == 0 || o.exitCode == 2
    ensures o.exitCode == 0 <==> Validate(input) == Accept
    ensures o.exitCode == 0 ==> o.stdout == "OK\n" && o.stderr == ""
    ensures o.exitCode == 2 ==>
      && o.stdout == ""
      && o.stderr == ErrorMessage(Validate(input).reason) + "\n"
  {
    Report(Validate(input))
  }

  /** Distinct rejections print distinct messages, so the message tells which
      check failed. */
  lemma ErrorMessagesDistinct(r1: Rejection, r2: Rejection)
    ensures ErrorMessage(r1) == ErrorMessage(r2) ==> r1 == r2
  {
    MessageLengths();
  }

  /** The messages have four different lengths. */
  lemma MessageLengths()
    ensures |ErrorMessage(EmptyDiff)| == 18
    ensures |ErrorMessage(WrongTarget)| == 54
    ensures |ErrorMessage(DeletionDiff)| == 38
    ensures |ErrorMessage(CoreIdentityEdit)| == 76
  {
  }

  /** The gate with its deletion check completed: a file deletion shows as a
      new-side header `+++ /dev/null`, which the script's check 3 does not look
      for. The extra test runs at the place of check 3, so an earlier failure
      is still the one reported. */
  function ValidateIntended(input: string): (v: Verdict)
    ensures v == Reject(DeletionDiff) <==>
      && !AllSpace(input)
      && SearchWholeLine(Strip(input), TargetHeader)
      && (SearchLinePrefix(Strip(input), DeletionHeader) || SearchLinePrefix(Strip(input), DeletedFileHeader))
    ensures SearchLinePrefix(Strip(input), DeletedFileHeader) ==> v != Accept
    ensures !SearchLinePrefix(Strip(input), DeletedFileHeader) ==> v == Validate(input)
    ensures v != Validate(input) ==> Validate(input) == Accept || Validate(input) == Reject(CoreIdentityEdit)
  {
    var v := Validate(input);
    if (v == Accept || v == Reject(CoreIdentityEdit)) && SearchLinePrefix(Strip(input), DeletedFileHeader)
    then Reject(DeletionDiff)
    else v
  }

  /** The approval token lifts the identity check wherever it is placed: in
      any line, at any position, before or after the identity line. */
  lemma ApprovalTokenAnywhere(before: string, after: string)
    ensures Validate(before + ApprovalToken + after) != Reject(CoreIdentityEdit)
  {
    var input := before + ApprovalToken + after;
    assert input[|before|..] == ApprovalToken + after;
    assert Contains(input, ApprovalToken);
  }

  /** Whitespace around the diff never changes the verdict. In particular a
      header preceded only by blank lines or indentation still counts as the
      first line of the diff. */
  lemma SurroundingWhitespaceIgnored(w1: string, s: string, w2: string)
    requires AllSpace(w1) && AllSpace(w2)
    ensures Validate(w1 + s + w2) == Validate(s)
  {
    StripPadding(w1, s, w2);
  }

  /** The verdict depends on the stripped diff only. */
  lemma VerdictOfStripped(input: string)
    ensures Validate(Strip(input)) == Validate(input)
  {
    StripIdempotent(input);
  }
}
