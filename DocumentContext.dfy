/**
 * The document comparison state shared by the pages: the two loaded
 * documents, the last line diff, a busy flag and an error message, with
 * the setters that update it and `compareDocuments`, which compares the
 * documents line by line at equal indices.
 */
module DocumentContext {
  import opened Wrappers
  import opened Text

  datatype Document = Document(name: string, content: string)

  /** `DocumentDiff`: the lines only the right side has and the lines only the left side has. */
  datatype DocumentDiff = DocumentDiff(additions: seq<LineChange>, deletions: seq<LineChange>)

  /** `DocumentComparisonState`; `null` becomes `None`. */
  datatype ComparisonState = ComparisonState(
    leftDocument: Option<Document>,
    rightDocument: Option<Document>,
    differences: Option<DocumentDiff>,
    isProcessing: bool,
    error: Option<string>)

  /** The state the provider starts in. */
  const InitialState := ComparisonState(None, None, None, false, None)

  const MissingDocumentError := "Both documents are required for comparison"

  // ---------------------------------------------------------------------
  // State updates
  // ---------------------------------------------------------------------

  /** `setLeftDocument`: loads the left document and clears the error; the rest, stale differences included, stays. */
  function SetLeftDocument(state: ComparisonState, name: string, content: string): (next: ComparisonState)
    ensures next.leftDocument == Some(Document(name, content)) && next.error == None
    ensures next.rightDocument == state.rightDocument && next.differences == state.differences
    ensures next.isProcessing == state.isProcessing
  {
    state.(leftDocument := Some(Document(name, content)), error := None)
  }

  /** `setRightDocument`: loads the right document and clears the error; the rest stays. */
  function SetRightDocument(state: ComparisonState, name: string, content: string): (next: ComparisonState)
    ensures next.rightDocument == Some(Document(name, content)) && next.error == None
    ensures next.leftDocument == state.leftDocument && next.differences == state.differences
    ensures next.isProcessing == state.isProcessing
  {
    state.(rightDocument := Some(Document(name, content)), error := None)
  }

  /** `clearDocuments`: back to the initial state, whatever came before. */
  function ClearDocuments(state: ComparisonState): (next: ComparisonState)
    ensures next == InitialState
  {
    ComparisonState(None, None, None, false, None)
  }

  /** `setError`: replaces the error and nothing else. */
  function SetError(state: ComparisonState, error: Option<string>): (next: ComparisonState)
    ensures next.error == error
    ensures next.leftDocument == state.leftDocument && next.rightDocument == state.rightDocument
    ensures next.differences == state.differences && next.isProcessing == state.isProcessing
  {
    state.(error := error)
  }

  // ---------------------------------------------------------------------
  // The positional line diff
  // ---------------------------------------------------------------------

  function Max(a: nat, b: nat): nat
  {
    if a < b then b else a
  }

  /** Line `i` of the left side is reported: it exists and the right side lacks it or differs there. */
  predicate Deleted(left: seq<string>, right: seq<string>, i: nat)
  {
    i < |left| && (i >= |right| || left[i] != right[i])
  }

  /** Line `i` of the right side is reported: it exists and the left side lacks it or differs there. */
  predicate Added(left: seq<string>, right: seq<string>, i: nat)
  {
    i < |right| && (i >= |left| || left[i] != right[i])
  }

  /** The deletions recorded for the indices below `n`, in index order. */
  function DeletionsUpTo(left: seq<string>, right: seq<string>, n: nat): seq<LineChange>
  {
    if n == 0 then []
    else if Deleted(left, right, n - 1) then DeletionsUpTo(left, right, n - 1) + [LineChange(n - 1, left[n - 1])]
    else DeletionsUpTo(left, right, n - 1)
  }

  /** The additions recorded for the indices below `n`, in index order. */
  function AdditionsUpTo(left: seq<string>, right: seq<string>, n: nat): seq<LineChange>
  {
    if n == 0 then []
    else if Added(left, right, n - 1) then AdditionsUpTo(left, right, n - 1) + [LineChange(n - 1, right[n - 1])]
    else AdditionsUpTo(left, right, n - 1)
  }

  /** The diff `compareDocuments` builds from the two line arrays. */
  function PositionalDiff(left: seq<string>, right: seq<string>): DocumentDiff
  {
    var n := Max(|left|, |right|);
    DocumentDiff(AdditionsUpTo(left, right, n), DeletionsUpTo(left, right, n))
  }

  /** The loop of `compareDocuments`: one index at a time, up to the longer side. */
  method DiffByIndex(leftLines: seq<string>, rightLines: seq<string>) returns (diff: DocumentDiff)
    ensures diff == PositionalDiff(leftLines, rightLines)
  {
    var additions: seq<LineChange> := [];
    var deletions: seq<LineChange> := [];
    for i := 0 to Max(|leftLines|, |rightLines|)
      invariant additions == AdditionsUpTo(leftLines, rightLines, i)
      invariant deletions == DeletionsUpTo(leftLines, rightLines, i)
    {
      if i >= |leftLines| {
        additions := additions + [LineChange(i, rightLines[i])];
      } else if i >= |rightLines| {
        deletions := deletions + [LineChange(i, leftLines[i])];
      } else if leftLines[i] != rightLines[i] {
        deletions := deletions + [LineChange(i, leftLines[i])];
        additions := additions + [LineChange(i, rightLines[i])];
      }
    }
    diff := DocumentDiff(additions, deletions);
  }

  /** The deletions below `n` each carry their left line, below `n`, in increasing order. */
  lemma {:induction false} DeletionsUpToRecords(left: seq<string>, right: seq<string>, n: nat)
    ensures AllValid(DeletionsUpTo(left, right, n), left) && Below(DeletionsUpTo(left, right, n), n)
    ensures StrictlyIncreasing(DeletionsUpTo(left, right, n))
  {
    if n > 0 {
      DeletionsUpToRecords(left, right, n - 1);
      var d := DeletionsUpTo(left, right, n - 1);
      if Deleted(left, right, n - 1) {
        var c := LineChange(n - 1, left[n - 1]);
        assert DeletionsUpTo(left, right, n) == d + [c];
        PushRecord(d, c, left, n - 1);
      } else {
        assert DeletionsUpTo(left, right, n) == d;
      }
    }
  }

  /** The deletions below `n` report exactly the deleted indices below `n`. */
  lemma {:induction false} DeletionsUpToLines(left: seq<string>, right: seq<string>, n: nat)
    ensures forall i: nat :: i in Lines(DeletionsUpTo(left, right, n)) <==> i < n && Deleted(left, right, i)
  {
    if n > 0 {
      DeletionsUpToLines(left, right, n - 1);
      var d := DeletionsUpTo(left, right, n - 1);
      if Deleted(left, right, n - 1) {
        var c := LineChange(n - 1, left[n - 1]);
        assert DeletionsUpTo(left, right, n) == d + [c];
        LinesAppend(d, c);
      } else {
        assert DeletionsUpTo(left, right, n) == d;
      }
    }
  }

  /** The additions below `n` each carry their right line, below `n`, in increasing order. */
  lemma {:induction false} AdditionsUpToRecords(left: seq<string>, right: seq<string>, n: nat)
    ensures AllValid(AdditionsUpTo(left, right, n), right) && Below(AdditionsUpTo(left, right, n), n)
    ensures StrictlyIncreasing(AdditionsUpTo(left, right, n))
  {
    if n > 0 {
      AdditionsUpToRecords(left, right, n - 1);
      var a := AdditionsUpTo(left, right, n - 1);
      if Added(left, right, n - 1) {
        var c := LineChange(n - 1, right[n - 1]);
        assert AdditionsUpTo(left, right, n) == a + [c];
        PushRecord(a, c, right, n - 1);
      } else {
        assert AdditionsUpTo(left, right, n) == a;
      }
    }
  }

  /** The additions below `n` report exactly the added indices below `n`. */
  lemma {:induction false} AdditionsUpToLines(left: seq<string>, right: seq<string>, n: nat)
    ensures forall i: nat :: i in Lines(AdditionsUpTo(left, right, n)) <==> i < n && Added(left, right, i)
  {
    if n > 0 {
      AdditionsUpToLines(left, right, n - 1);
      var a := AdditionsUpTo(left, right, n - 1);
      if Added(left, right, n - 1) {
        var c := LineChange(n - 1, right[n - 1]);
        assert AdditionsUpTo(left, right, n) == a + [c];
        LinesAppend(a, c);
      } else {
        assert AdditionsUpTo(left, right, n) == a;
      }
    }
  }

  /** Appending a valid record for line `n` to records below `n` keeps them valid, increasing and below `n + 1`. */
  lemma PushRecord(changes: seq<LineChange>, c: LineChange, lines: seq<string>, n: nat)
    requires AllValid(changes, lines) && Below(changes, n) && StrictlyIncreasing(changes)
    requires c.line == n && Valid(c, lines)
    ensures AllValid(changes + [c], lines) && Below(changes + [c], n + 1) && StrictlyIncreasing(changes + [c])
  {
  }

  /**
   * Where both sides have line `i`, it is reported on both sides exactly
   * when the lines differ; past the end of one side, every line of the other
   * is reported on its side only.
   */
  lemma PositionalDiffLines(left: seq<string>, right: seq<string>, i: nat)
    ensures i < |left| && i < |right| ==>
      (i in Lines(PositionalDiff(left, right).deletions) <==> left[i] != right[i])
      && (i in Lines(PositionalDiff(left, right).additions) <==> left[i] != right[i])
    ensures |left| <= i < |right| ==>
      i in Lines(PositionalDiff(left, right).additions) && i !in Lines(PositionalDiff(left, right).deletions)
    ensures |right| <= i < |left| ==>
      i in Lines(PositionalDiff(left, right).deletions) && i !in Lines(PositionalDiff(left, right).additions)
    ensures i >= |left| && i >= |right| ==>
      i !in Lines(PositionalDiff(left, right).deletions) && i !in Lines(PositionalDiff(left, right).additions)
  {
    var n := Max(|left|, |right|);
    DeletionsUpToLines(left, right, n);
    AdditionsUpToLines(left, right, n);
  }

  /**
   * Every record carries its own side's line, lines increase along both lists
   * and stay below the longer side's length.
   */
  lemma PositionalDiffRecords(left: seq<string>, right: seq<string>)
    ensures AllValid(PositionalDiff(left, right).deletions, left)
      && AllValid(PositionalDiff(left, right).additions, right)
    ensures StrictlyIncreasing(PositionalDiff(left, right).deletions)
      && StrictlyIncreasing(PositionalDiff(left, right).additions)
    ensures Below(PositionalDiff(left, right).deletions, Max(|left|, |right|))
      && Below(PositionalDiff(left, right).additions, Max(|left|, |right|))
  {
    var n := Max(|left|, |right|);
    DeletionsUpToRecords(left, right, n);
    AdditionsUpToRecords(left, right, n);
  }

  /** Identical documents have no differences. */
  lemma {:induction false} PositionalDiffSame(lines: seq<string>, n: nat)
    requires n <= |lines|
    ensures DeletionsUpTo(lines, lines, n) == [] && AdditionsUpTo(lines, lines, n) == []
  {
    if n > 0 { PositionalDiffSame(lines, n - 1); }
  }

  // ---------------------------------------------------------------------
  // compareDocuments
  // ---------------------------------------------------------------------

  /** The state once a comparison has started: busy, no error. */
  function BeginCompare(state: ComparisonState): (next: ComparisonState)
    ensures next.isProcessing && next.error == None
    ensures next.leftDocument == state.leftDocument && next.rightDocument == state.rightDocument
    ensures next.differences == state.differences
  {
    state.(isProcessing := true, error := None)
  }

  /** The state once a comparison has finished: the new differences, no longer busy. */
  function FinishCompare(state: ComparisonState, diff: DocumentDiff): (next: ComparisonState)
    ensures next.differences == Some(diff) && !next.isProcessing
    ensures next.leftDocument == state.leftDocument && next.rightDocument == state.rightDocument
    ensures next.error == state.error
  {
    state.(differences := Some(diff), isProcessing := false)
  }

  /** What `compareDocuments` leaves behind, for reasoning about sequences of updates. */
  function CompareOutcome(state: ComparisonState): ComparisonState
  {
    if state.leftDocument.None? || state.rightDocument.None? then
      state.(error := Some(MissingDocumentError))
    else
      FinishCompare(BeginCompare(state),
        PositionalDiff(Split(state.leftDocument.value.content), Split(state.rightDocument.value.content)))
  }

  /**
   * `compareDocuments`. Without both documents it only sets the error.
   * Otherwise it marks the state busy, diffs the documents' lines index by
   * index and stores the result, ending not busy and without an error.
   */
  method CompareDocuments(state: ComparisonState) returns (next: ComparisonState)
    ensures next == CompareOutcome(state)
    ensures state.leftDocument.None? || state.rightDocument.None? ==>
      next == state.(error := Some(MissingDocumentError))
    ensures state.leftDocument.Some? && state.rightDocument.Some? ==>
      next.differences.Some? && !next.isProcessing && next.error == None
      && next.leftDocument == state.leftDocument && next.rightDocument == state.rightDocument
  {
    if state.leftDocument.None? || state.rightDocument.None? {
      next := state.(error := Some(MissingDocumentError));
      return;
    }
    var processing := BeginCompare(state);
    var leftLines := Split(state.leftDocument.value.content);
    var rightLines := Split(state.rightDocument.value.content);
    var diff := DiffByIndex(leftLines, rightLines);
    next := FinishCompare(processing, diff);
  }

  /** Comparing two loaded copies of the same text finds no differences. */
  lemma CompareSameContent(state: ComparisonState, leftName: string, rightName: string, content: string)
    ensures CompareOutcome(SetRightDocument(SetLeftDocument(state, leftName, content), rightName, content)).differences
      == Some(DocumentDiff([], []))
    ensures CompareOutcome(SetRightDocument(SetLeftDocument(state, leftName, content), rightName, content)).error == None
  {
    var lines := Split(content);
    PositionalDiffSame(lines, |lines|);
  }

  /** After `clearDocuments`, a comparison reports the missing documents. */
  lemma CompareAfterClear(state: ComparisonState)
    ensures CompareOutcome(ClearDocuments(state)) == InitialState.(error := Some(MissingDocumentError))
  {
  }

  /** Loading one document leaves the error a comparison without the other one reported. */
  lemma CompareWithOneDocument(name: string, content: string)
    ensures CompareOutcome(SetLeftDocument(InitialState, name, content)).error == Some(MissingDocumentError)
    ensures CompareOutcome(SetLeftDocument(InitialState, name, content)).differences == None
    ensures CompareOutcome(SetLeftDocument(InitialState, name, content)).leftDocument == Some(Document(name, content))
  {
  }
}
