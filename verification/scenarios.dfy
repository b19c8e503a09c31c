/**
 Families of diffs and the verdicts the gate gives them: each lemma pins down
 one edge of a check (exact header match, where stripping helps and where it
 does not, the order of the checks, the approval token). Diffs of several
 lines are written as `Join` of their lines.
 */
module Scenarios {
  import opened Text
  import opened Multiline
  import opened ValidateDiff

  /** A single line that ends in a non-space character. */
  predicate SolidLine(x: string) {
    x != [] && '\n' !in x && !IsSpace(x[|x| - 1])
  }

  /** Lines whose join has nothing to strip: the first line starts and the last
      line ends with a non-space character. */
  predicate SolidLines(lines: seq<string>) {
    && |lines| >= 1
    && NoNewlines(lines)
    && lines[0] != [] && !IsSpace(lines[0][0])
    && lines[|lines| - 1] != [] && !IsSpace(lines[|lines| - 1][|lines[|lines| - 1]| - 1])
  }

  /** The text of such lines is left alone by stripping and splits back into them. */
  lemma SolidLinesDiff(lines: seq<string>)
    requires SolidLines(lines)
    ensures Strip(Join(lines)) == Join(lines)
    ensures !AllSpace(Join(lines))
    ensures Split(Join(lines)) == lines
  {
    JoinFirstChar(lines);
    JoinLastChar(lines);
    StripSolid(Join(lines));
    SplitJoin(lines);
  }

  /** On such lines the gate's checks are the per-line checks, in order. */
  lemma SolidLinesVerdict(lines: seq<string>)
    requires SolidLines(lines)
    ensures Validate(Join(lines)) ==
      if TargetHeader !in lines then Reject(WrongTarget)
      else if SomeLineStartsWith(lines, DeletionHeader) then Reject(DeletionDiff)
      else if !Contains(Join(lines), ApprovalToken) && SomeLineStartsWith(lines, IdentityRemoval) then Reject(CoreIdentityEdit)
      else Accept
  {
    SolidLinesDiff(lines);
  }

  /** A one-line diff other than the bare target header is rejected for its
      target, whatever else is wrong with it. */
  lemma OneLineDiffRejected(d: string)
    requires SolidLine(d) && !IsSpace(d[0]) && d != TargetHeader
    ensures Validate(d) == Reject(WrongTarget)
  {
    StripSolid(d);
    SplitSingle(d);
    LiteralsAreSingleLines();
    SearchWholeLineByLines(d, TargetHeader);
  }

  /** A header line with anything after it is not the target header. */
  lemma LongerHeaderLineRejected(x: string)
    requires SolidLine(x)
    ensures Validate(TargetHeader + x) == Reject(WrongTarget)
  {
    var d := TargetHeader + x;
    LiteralsAreSingleLines();
    assert d[0] == TargetHeader[0] && d[|d| - 1] == x[|x| - 1];
    assert |d| != |TargetHeader|;
    OneLineDiffRejected(d);
  }

  /** Blank lines and indentation before the first line are stripped away, so
      a header there still matches exactly. */
  lemma IndentedFirstHeaderCounts(w: string, rest: string)
    requires AllSpace(w)
    ensures Validate(w + TargetHeader + rest) == Validate(TargetHeader + rest)
  {
    assert w + TargetHeader + rest == w + (TargetHeader + rest) + "";
    SurroundingWhitespaceIgnored(w, TargetHeader + rest, "");
  }

  /** Indentation before a header on any later line is kept, so that header
      does not match. */
  lemma IndentedLaterHeaderRejected(first: string, w: string)
    requires first != [] && '\n' !in first && !IsSpace(first[0]) && first != TargetHeader
    requires w != [] && '\n' !in w
    ensures Validate(Join([first, w + TargetHeader])) == Reject(WrongTarget)
  {
    var lines := [first, w + TargetHeader];
    LiteralsAreSingleLines();
    assert lines[1][|lines[1]| - 1] == TargetHeader[|TargetHeader| - 1];
    SolidLinesVerdict(lines);
    assert |w + TargetHeader| != |TargetHeader|;
    assert TargetHeader !in lines;
  }

  /** A deletion header is refused even on the line right after the correct
      target header. */
  lemma DeletionBesideTargetRejected(rest: string)
    requires '\n' !in rest
    ensures Validate(Join([TargetHeader, DeletionHeader + rest])) == Reject(DeletionDiff)
  {
    DeletionLineRejected(TargetHeader, DeletionHeader, rest);
  }

  /** The same with the two headers passed in. */
  lemma DeletionLineRejected(h: string, d: string, rest: string)
    requires h == TargetHeader && d == DeletionHeader && '\n' !in rest
    ensures Validate(Join([h, d + rest])) == Reject(DeletionDiff)
  {
    var n := TrailingSpaces(rest);
    var core := rest[..|rest| - n];
    assert Validate(Join([h, d + core])) == Reject(DeletionDiff) by {
      TrailingCut(rest, n);
      DeletionLineSolid(core);
    }
    TrailingSpaceOfSecondLine(h, d, rest, n);
  }

  /** A newline-free line without its trailing whitespace is empty or ends in
      a non-space character. */
  lemma TrailingCut(rest: string, n: nat)
    requires '\n' !in rest && n == TrailingSpaces(rest)
    ensures '\n' !in rest[..|rest| - n]
    ensures rest[..|rest| - n] == [] || !IsSpace(rest[..|rest| - n][|rest| - n - 1])
  {
    assert forall c :: c in rest[..|rest| - n] ==> c in rest;
  }

  /** The verdict on two lines is the verdict with whitespace at the end of
      the second line removed. */
  lemma TrailingSpaceOfSecondLine(a: string, p: string, rest: string, n: nat)
    requires n <= |rest| && AllSpace(rest[|rest| - n..])
    ensures Validate(Join([a, p + rest])) == Validate(Join([a, p + rest[..|rest| - n]]))
  {
    SplitTail(p, rest, n);
    SecondLinePadding(a, p + rest[..|rest| - n], rest[|rest| - n..]);
  }

  /** Cutting `n` characters off the back of `rest` and putting them back. */
  lemma SplitTail(p: string, rest: string, n: nat)
    requires n <= |rest|
    ensures p + rest == (p + rest[..|rest| - n]) + rest[|rest| - n..]
  {
    assert rest == rest[..|rest| - n] + rest[|rest| - n..];
  }

  /** Whitespace at the end of the second and last line is stripped away. */
  lemma SecondLinePadding(a: string, b: string, w: string)
    requires AllSpace(w)
    ensures Validate(Join([a, b + w])) == Validate(Join([a, b]))
  {
    JoinCons(a, [b + w]);
    JoinCons(a, [b]);
    assert Join([a, b + w]) == [] + Join([a, b]) + w;
    SurroundingWhitespaceIgnored([], Join([a, b]), w);
  }

  /** The deletion line with nothing, or a non-space character, at its end. */
  lemma DeletionLineSolid(core: string)
    requires '\n' !in core && (core == [] || !IsSpace(core[|core| - 1]))
    ensures Validate(Join([TargetHeader, DeletionHeader + core])) == Reject(DeletionDiff)
  {
    var lines := [TargetHeader, DeletionHeader + core];
    LiteralsAreSingleLines();
    assert lines[1][|lines[1]| - 1] == (if core == [] then DeletionHeader[|DeletionHeader| - 1] else core[|core| - 1]);
    SolidLinesVerdict(lines);
    assert DeletionHeader <= lines[1];
  }

  /** A diff that carries neither header fails the target check, although it
      would fail the deletion check as well: the earliest failing check is the
      one reported. */
  lemma DeletionWithoutTargetReportsTarget(x: string)
    requires SolidLine(x)
    ensures Validate(DeletionHeader + x) == Reject(WrongTarget)
  {
    var d := DeletionHeader + x;
    LiteralsAreSingleLines();
    assert d[0] == DeletionHeader[0] && d[|d| - 1] == x[|x| - 1];
    assert d[4] != TargetHeader[4];
    OneLineDiffRejected(d);
  }

  /** The bare target header is the smallest diff the gate accepts. */
  lemma BareHeaderAccepted()
    ensures Validate(TargetHeader) == Accept
  {
    HeaderOnlyAccepted(TargetHeader);
  }

  /** The same fact, with the header passed in as the diff `d`. */
  lemma HeaderOnlyAccepted(d: string)
    requires d == TargetHeader
    ensures Validate(d) == Accept
  {
    HeaderOnlyLines([d]);
    assert Join([d]) == d;
    SolidLinesVerdict([d]);
  }

  /** The one line of that diff passes checks 3 and 4. */
  lemma HeaderOnlyLines(lines: seq<string>)
    requires lines == [TargetHeader]
    ensures SolidLines(lines)
    ensures !SomeLineStartsWith(lines, DeletionHeader)
    ensures !SomeLineStartsWith(lines, IdentityRemoval)
  {
    TargetHeaderFacts();
    assert lines[0][1] != IdentityRemoval[1];
  }

  /** Whitespace after the header is stripped when nothing follows it, so the
      header still matches exactly: trailing characters count against the
      header everywhere except at the very end of the diff. */
  lemma TrailingSpaceAfterHeaderAccepted(w: string)
    requires AllSpace(w)
    ensures Validate(TargetHeader + w) == Accept
  {
    assert TargetHeader + w == "" + TargetHeader + w;
    SurroundingWhitespaceIgnored("", TargetHeader, w);
    BareHeaderAccepted();
  }

  /** A header line ending in "\r\n" keeps its '\r' when another line follows,
      since `$` matches only before '\n'; the diff is rejected for its target. */
  lemma CarriageReturnHeaderRejected(next: string)
    requires next != [] && '\n' !in next && !IsSpace(next[|next| - 1]) && next != TargetHeader
    ensures Validate(Join([TargetHeader + "\r", next])) == Reject(WrongTarget)
  {
    var lines := [TargetHeader + "\r", next];
    TargetHeaderFacts();
    assert lines[0][0] == TargetHeader[0];
    SolidLinesVerdict(lines);
    assert |lines[0]| != |TargetHeader|;
    assert TargetHeader !in lines;
  }

  /** The hunk header of a diff that removes a one-line file. */
  const DeletionHunk: string := "@@ -1 +0,0 @@"

  /** What the scenarios need to know of a line: it is a single line with
      non-space ends that does not start with the deletion header, and it is
      free of ':' unless it is the token. */
  predicate LineFacts(l: string) {
    && '\n' !in l
    && l != [] && !IsSpace(l[0]) && !IsSpace(l[|l| - 1])
    && !(DeletionHeader <= l)
    && (l != ApprovalToken ==> ':' !in l)
  }

  /** The fixed lines have those facts, one literal per lemma. */
  lemma TargetHeaderFacts() ensures LineFacts(TargetHeader) {
    TargetHeaderIsOneLine();
    assert TargetHeader[4] != DeletionHeader[4];
  }

  lemma IdentityRemovalFacts() ensures LineFacts(IdentityRemoval) {
    IdentityRemovalIsOneLine();
    assert IdentityRemoval[1] != DeletionHeader[1];
  }

  lemma ApprovalTokenFacts() ensures LineFacts(ApprovalToken) {
    assert ApprovalToken[0] != DeletionHeader[0];
  }

  lemma DeletedFileHeaderFacts() ensures LineFacts(DeletedFileHeader) {
    assert DeletedFileHeader[0] != DeletionHeader[0];
  }

  lemma DeletionHunkFacts() ensures LineFacts(DeletionHunk) {
    assert DeletionHunk[0] != DeletionHeader[0];
  }

  /** Lines free of ':' do not carry the approval token, whose sixteenth
      character is ':'. */
  lemma NoTokenLine(lines: seq<string>)
    requires forall k :: 0 <= k < |lines| ==> ':' !in lines[k]
    ensures !Contains(Join(lines), ApprovalToken)
  {
    JoinAvoids(lines, ':');
    assert ApprovalToken[15] == ':';
    MissingCharNotContained(Join(lines), ApprovalToken, 15);
  }

  /** The target header, the removed identity line and one added line. */
  function IdentityEdit(added: string): seq<string> {
    [TargetHeader, IdentityRemoval, added]
  }

  /** Both identity edits are solid lines that pass check 3, with the identity
      line second; the edit without the token lacks it when `added` has no ':'. */
  lemma IdentityEditLines(added: string, lines: seq<string>)
    requires SolidLine(added) && !(DeletionHeader <= added)
    requires lines == IdentityEdit(added) || lines == ApprovedIdentityEdit(added)
    ensures SolidLines(lines)
    ensures !SomeLineStartsWith(lines, DeletionHeader)
    ensures IdentityRemoval <= lines[1]
    ensures lines == IdentityEdit(added) && ':' !in added ==> !Contains(Join(lines), ApprovalToken)
  {
    TargetHeaderFacts();
    IdentityRemovalFacts();
    ApprovalTokenFacts();
    if lines == IdentityEdit(added) && ':' !in added {
      NoTokenLine(lines);
    }
  }

  /** Rewriting the identity line is refused when the token is absent ... */
  lemma IdentityEditWithoutToken(added: string)
    requires SolidLine(added) && !(DeletionHeader <= added) && ':' !in added
    ensures Validate(Join(IdentityEdit(added))) == Reject(CoreIdentityEdit)
  {
    var lines := IdentityEdit(added);
    IdentityEditLines(added, lines);
    SolidLinesVerdict(lines);
  }

  /** `IdentityEdit(added)` followed by a line holding the approval token. */
  function ApprovedIdentityEdit(added: string): seq<string> {
    IdentityEdit(added) + [ApprovalToken]
  }

  /** ... and accepted when the token follows on a line of its own. */
  lemma IdentityEditWithToken(added: string)
    requires SolidLine(added) && !(DeletionHeader <= added)
    ensures Validate(Join(ApprovedIdentityEdit(added))) == Accept
  {
    var lines := ApprovedIdentityEdit(added);
    IdentityEditLines(added, lines);
    SolidLinesVerdict(lines);
    ContainsLinePrefix(lines, 3, ApprovalToken);
  }

  /** A diff that deletes the prompt file, taken here to hold only the identity
      line: old side the target, new side `/dev/null`, one hunk removing the
      line. */
  function FileDeletion(): seq<string> {
    [TargetHeader, DeletedFileHeader, DeletionHunk, IdentityRemoval]
  }

  /** The same diff with the approval token on a line ahead of the headers, as
      a commit trailer would put it. */
  function ApprovedFileDeletion(): seq<string> {
    [ApprovalToken] + FileDeletion()
  }

  /** The deletion diff is solid lines that carry the target header, pass
      check 3 and lack the token; its last line removes the identity line and
      its second line is the deleted-file header. */
  lemma FileDeletionLines(lines: seq<string>)
    requires lines == FileDeletion()
    ensures SolidLines(lines)
    ensures TargetHeader in lines
    ensures !SomeLineStartsWith(lines, DeletionHeader)
    ensures IdentityRemoval <= lines[3]
    ensures DeletedFileHeader <= lines[1]
    ensures !Contains(Join(lines), ApprovalToken)
  {
    TargetHeaderFacts();
    IdentityRemovalFacts();
    DeletedFileHeaderFacts();
    DeletionHunkFacts();
    NoTokenLine(lines);
  }

  /** The token line in front keeps all of that except the missing token. */
  lemma ApprovedFileDeletionLines(lines: seq<string>)
    requires lines == ApprovedFileDeletion()
    ensures SolidLines(lines)
    ensures TargetHeader in lines
    ensures !SomeLineStartsWith(lines, DeletionHeader)
    ensures IdentityRemoval <= lines[4]
    ensures DeletedFileHeader <= lines[2]
    ensures ApprovalToken <= lines[0]
  {
    var rest := lines[1..];
    assert rest == FileDeletion();
    FileDeletionLines(rest);
    ApprovalTokenFacts();
    assert NoNewlines(lines) by {
      forall k | 1 <= k < |lines| ensures '\n' !in lines[k] {
        assert lines[k] == rest[k - 1];
      }
    }
    forall k | 1 <= k < |lines| ensures !(DeletionHeader <= lines[k]) {
      assert lines[k] == rest[k - 1];
    }
  }

  /** Without the token, the deletion is stopped only because it removes the
      identity line: check 4 rejects it, not check 3. */
  lemma FileDeletionWithoutTokenRefused()
    ensures Validate(Join(FileDeletion())) == Reject(CoreIdentityEdit)
  {
    var lines := FileDeletion();
    FileDeletionLines(lines);
    SolidLinesVerdict(lines);
  }

  /** With the token, check 3 as written lets the deletion of the prompt file
      through. */
  lemma FileDeletionAccepted()
    ensures Validate(Join(ApprovedFileDeletion())) == Accept
  {
    var lines := ApprovedFileDeletion();
    ApprovedFileDeletionLines(lines);
    SolidLinesVerdict(lines);
    ContainsLinePrefix(lines, 0, ApprovalToken);
  }

  /** Its deleted-file header is found by the search the completed gate adds. */
  lemma FileDeletionShowsDeletedFile(lines: seq<string>)
    requires lines == ApprovedFileDeletion()
    ensures Strip(Join(lines)) == Join(lines)
    ensures SearchLinePrefix(Join(lines), DeletedFileHeader)
  {
    ApprovedFileDeletionLines(lines);
    SolidLinesDiff(lines);
    SearchLinePrefixByLines(Join(lines), DeletedFileHeader);
  }

  /** The completed gate refuses that same diff. */
  lemma FileDeletionRefusedWhenCompleted()
    ensures ValidateIntended(Join(ApprovedFileDeletion())) == Reject(DeletionDiff)
  {
    FileDeletionAccepted();
    FileDeletionShowsDeletedFile(ApprovedFileDeletion());
  }

  /** The new side of the target file, and an unrelated file and the one line
      it holds. */
  const TargetNewHeader: string := "+++ b/system_prompt/system_prompt.md"
  const OtherFileHeader: string := "--- a/notes.md"
  const OtherFileLine: string := "-x"

  lemma TargetNewHeaderFacts() ensures LineFacts(TargetNewHeader) {
    assert TargetNewHeader[0] != DeletionHeader[0];
  }

  lemma OtherFileHeaderFacts() ensures LineFacts(OtherFileHeader) {
    assert OtherFileHeader[4] != DeletionHeader[4];
  }

  lemma OtherFileLineFacts() ensures LineFacts(OtherFileLine) {
    assert OtherFileLine[1] != DeletionHeader[1];
  }

  /** A diff that names the prompt file as its target, leaves it as it is and
      deletes another file. It carries no approval token. */
  function OtherFileDeletion(): seq<string> {
    [TargetHeader, TargetNewHeader, OtherFileHeader, DeletedFileHeader, DeletionHunk, OtherFileLine]
  }

  /** Its lines are solid, carry the target header and no deletion header, and
      the fourth line is a deleted-file header. */
  lemma OtherFileDeletionLines(lines: seq<string>)
    requires lines == OtherFileDeletion()
    ensures SolidLines(lines)
    ensures TargetHeader in lines
    ensures !SomeLineStartsWith(lines, DeletionHeader)
    ensures DeletedFileHeader <= lines[3]
  {
    TargetHeaderFacts();
    TargetNewHeaderFacts();
    OtherFileHeaderFacts();
    DeletedFileHeaderFacts();
    DeletionHunkFacts();
    OtherFileLineFacts();
  }

  /** None of its lines removes the identity line. */
  lemma OtherFileDeletionKeepsIdentity(lines: seq<string>)
    requires lines == OtherFileDeletion()
    ensures !SomeLineStartsWith(lines, IdentityRemoval)
  {
    NotIdentityRemoval(TargetHeader, 1);
    NotIdentityRemoval(TargetNewHeader, 0);
    NotIdentityRemoval(OtherFileHeader, 1);
    NotIdentityRemoval(DeletedFileHeader, 0);
    NotIdentityRemoval(DeletionHunk, 0);
    NotIdentityRemoval(OtherFileLine, 1);
  }

  /** A line that differs from the identity line at offset `k` does not start
      with it. */
  lemma NotIdentityRemoval(l: string, k: nat)
    requires k < |l| && k < |IdentityRemoval| && l[k] != IdentityRemoval[k]
    ensures !(IdentityRemoval <= l)
  {
  }

  /** Deleting a file other than the prompt needs no token: the target header
      satisfies check 2 and nothing else is looked at. */
  lemma OtherFileDeletionAccepted()
    ensures Validate(Join(OtherFileDeletion())) == Accept
  {
    var lines := OtherFileDeletion();
    OtherFileDeletionLines(lines);
    OtherFileDeletionKeepsIdentity(lines);
    SolidLinesVerdict(lines);
  }

  /** Its deleted-file header is found by the search the completed gate adds. */
  lemma OtherFileDeletionShowsDeletedFile(lines: seq<string>)
    requires lines == OtherFileDeletion()
    ensures Strip(Join(lines)) == Join(lines)
    ensures SearchLinePrefix(Join(lines), DeletedFileHeader)
  {
    OtherFileDeletionLines(lines);
    SolidLinesDiff(lines);
    SearchLinePrefixByLines(Join(lines), DeletedFileHeader);
  }

  /** The completed gate rejects that diff as a deletion. */
  lemma OtherFileDeletionRefusedWhenCompleted()
    ensures ValidateIntended(Join(OtherFileDeletion())) == Reject(DeletionDiff)
  {
    OtherFileDeletionAccepted();
    OtherFileDeletionShowsDeletedFile(OtherFileDeletion());
  }
}
