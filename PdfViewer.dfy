/**
 * The diff panel of the PDF viewer: the projection of an edit script onto
 * one side as numbered `DiffLine` records, the heading heuristic used when
 * the records are shown as paragraphs, and the page navigation buttons.
 */
module PdfViewer {
  import opened Wrappers
  import opened Text
  import opened ComparisonEngine

  datatype LineKind = Addition | Deletion | Context

  /** Which document a viewer shows: `'left' | 'right'`. */
  datatype Side = Left | Right

  /** One row of the panel; `correspondingLine` is optional. */
  datatype DiffLine = DiffLine(kind: LineKind, content: string, lineNumber: nat, correspondingLine: Option<nat>)

  // ---------------------------------------------------------------------
  // Projection of an edit script onto one side
  // ---------------------------------------------------------------------

  /**
   * The rows a text yields: its '\n'-separated lines, where a final '\n'
   * does not open a further line. Defined character by character; it is the
   * split with a trailing empty piece dropped (`SegmentsOfSplit`).
   */
  function Segments(text: string): seq<string>
  {
    if text == [] then []
    else
      var rest := Segments(text[1..]);
      if text[0] == '\n' then [[]] + rest
      else if rest == [] then [[text[0]]]
      else [[text[0]] + rest[0]] + rest[1..]
  }

  /** What the inner `forEach` keeps of `text.split('\n')`: every piece but a trailing empty one. */
  function KeptPieces(pieces: seq<string>): seq<string>
    requires |pieces| >= 1
  {
    if pieces[|pieces| - 1] == [] then pieces[..|pieces| - 1] else pieces
  }

  /** A split that starts with an empty piece keeps it. */
  lemma KeptAfterNewline(pieces: seq<string>)
    requires |pieces| >= 1
    ensures KeptPieces([[]] + pieces) == [[]] + KeptPieces(pieces)
  {
    var p := [[]] + pieces;
    assert p[|p| - 1] == pieces[|pieces| - 1];
    if pieces[|pieces| - 1] == [] {
      assert p[..|p| - 1] == [[]] + pieces[..|pieces| - 1];
    }
  }

  /** A character in front of a split joins its first piece. */
  lemma KeptAfterChar(c: char, pieces: seq<string>)
    requires |pieces| >= 1
    ensures var rest := KeptPieces(pieces);
      KeptPieces([[c] + pieces[0]] + pieces[1..]) == if rest == [] then [[c]] else [[c] + rest[0]] + rest[1..]
  {
    var p := [[c] + pieces[0]] + pieces[1..];
    var rest := KeptPieces(pieces);
    if |pieces| == 1 {
      assert p == [[c] + pieces[0]] && p[0] != [];
      if pieces[0] == [] {
        assert [c] + pieces[0] == [c];
      }
    } else {
      assert p[|p| - 1] == pieces[|pieces| - 1];
      if pieces[|pieces| - 1] == [] {
        assert rest[0] == pieces[0] && rest[1..] == pieces[1..|pieces| - 1];
        assert p[..|p| - 1] == [[c] + pieces[0]] + pieces[1..|pieces| - 1];
      }
    }
  }

  /** The segments of a text are the pieces of its split that the source keeps. */
  lemma {:induction false} SegmentsOfSplit(text: string)
    ensures Segments(text) == KeptPieces(Split(text))
  {
    if text != [] {
      SegmentsOfSplit(text[1..]);
      if text[0] == '\n' {
        KeptAfterNewline(Split(text[1..]));
      } else {
        KeptAfterChar(text[0], Split(text[1..]));
      }
    }
  }

  /**
   * The segments of a text are as many as the lines the alignment counts for
   * it, none holds a newline, and an empty text has none.
   */
  lemma SegmentsShape(text: string)
    ensures |Segments(text)| == LineCount(text)
    ensures forall k :: 0 <= k < |Segments(text)| ==> '\n' !in Segments(text)[k]
    ensures text == [] ==> Segments(text) == []
  {
    SegmentsOfSplit(text);
    SplitShape(text);
    SplitLastEmpty(text);
  }

  /** A segment of an edit with operation `op` is shown on `side`. */
  predicate Shown(op: Op, side: Side)
  {
    op == Equal || (op == Delete && side == Left) || (op == Insert && side == Right)
  }

  function KindOf(op: Op): LineKind
  {
    match op
    case Equal => Context
    case Delete => Deletion
    case Insert => Addition
  }

  /**
   * The `correspondingLine` of a row numbered `n` on `side`: the side's map
   * read at `n`, or nothing without a line map.
   */
  function Corresponding(lineMap: Option<LineMap>, side: Side, n: nat): Option<nat>
  {
    if lineMap.None? then None
    else if side == Left then Lookup(lineMap.value.left, n)
    else Lookup(lineMap.value.right, n)
  }

  /** The row a segment numbered `n` yields on `side`, if any. */
  function RowFor(op: Op, segment: string, side: Side, lineMap: Option<LineMap>, n: nat): seq<DiffLine>
  {
    if Shown(op, side) then [DiffLine(KindOf(op), segment, n, Corresponding(lineMap, side, n))] else []
  }

  /** The rows of the segments of one edit, numbered from `n`. */
  function SegmentRows(op: Op, segs: seq<string>, side: Side, lineMap: Option<LineMap>, n: nat): seq<DiffLine>
  {
    if segs == [] then []
    else RowFor(op, segs[0], side, lineMap, n) + SegmentRows(op, segs[1..], side, lineMap, n + 1)
  }

  /** The rows of a script, numbered from `n`; every segment takes a number, shown or not. */
  function DiffRows(diffs: seq<Edit>, side: Side, lineMap: Option<LineMap>, n: nat): seq<DiffLine>
  {
    if diffs == [] then []
    else
      SegmentRows(diffs[0].op, Segments(diffs[0].text), side, lineMap, n)
        + DiffRows(diffs[1..], side, lineMap, n + |Segments(diffs[0].text)|)
  }

  /** How many numbers a script uses: the segments of all its edits. */
  function TotalSegments(diffs: seq<Edit>): nat
  {
    if diffs == [] then 0 else |Segments(diffs[0].text)| + TotalSegments(diffs[1..])
  }

  /** The segments a side shows, in script order. */
  function ShownSegments(diffs: seq<Edit>, side: Side): seq<string>
  {
    if diffs == [] then []
    else (if Shown(diffs[0].op, side) then Segments(diffs[0].text) else []) + ShownSegments(diffs[1..], side)
  }

  function Contents(rows: seq<DiffLine>): seq<string>
  {
    if rows == [] then [] else [rows[0].content] + Contents(rows[1..])
  }

  /**
   * One visit of the inner `forEach` for a kept segment: pushes the row the
   * side shows, or only moves the counter.
   */
  method EmitLine(lines: seq<DiffLine>, lineNumber: nat, op: Op, line: string, side: Side, lineMap: Option<LineMap>)
    returns (lines': seq<DiffLine>, lineNumber': nat)
    ensures lines' == lines + RowFor(op, line, side, lineMap, lineNumber)
    ensures lineNumber' == lineNumber + 1
  {
    var current := lineNumber;
    lineNumber' := lineNumber + 1;
    lines' := lines;
    if op == Equal {
      var corresponding := if lineMap.Some? then
          (if side == Left then Lookup(lineMap.value.left, lineNumber' - 1) else Lookup(lineMap.value.right, lineNumber' - 1))
        else None;
      lines' := lines + [DiffLine(Context, line, current, corresponding)];
    } else if op == Delete && side == Left {
      var corresponding := if lineMap.Some? then Lookup(lineMap.value.left, lineNumber' - 1) else None;
      lines' := lines + [DiffLine(Deletion, line, current, corresponding)];
    } else if op == Insert && side == Right {
      var corresponding := if lineMap.Some? then Lookup(lineMap.value.right, lineNumber' - 1) else None;
      lines' := lines + [DiffLine(Addition, line, current, corresponding)];
    }
  }

  /** Rows of segments followed by one more segment: the earlier rows, then the new segment's row. */
  lemma {:induction false} SegmentRowsSnoc(op: Op, segs: seq<string>, x: string, side: Side, lineMap: Option<LineMap>, n: nat)
    ensures SegmentRows(op, segs + [x], side, lineMap, n)
      == SegmentRows(op, segs, side, lineMap, n) + RowFor(op, x, side, lineMap, n + |segs|)
  {
    if segs == [] {
      assert [] + [x] == [x] && [x][1..] == [];
    } else {
      assert (segs + [x])[0] == segs[0] && (segs + [x])[1..] == segs[1..] + [x];
      SegmentRowsSnoc(op, segs[1..], x, side, lineMap, n + 1);
      SeqAssoc(RowFor(op, segs[0], side, lineMap, n), SegmentRows(op, segs[1..], side, lineMap, n + 1),
                RowFor(op, x, side, lineMap, n + |segs|));
    }
  }

  /**
   * One visit of the outer `forEach`: splits the edit's text on '\n' and
   * walks the pieces, skipping a trailing empty one.
   */
  method AppendEdit(lines: seq<DiffLine>, lineNumber: nat, e: Edit, side: Side, lineMap: Option<LineMap>)
    returns (lines': seq<DiffLine>, lineNumber': nat)
    ensures lines' == lines + SegmentRows(e.op, Segments(e.text), side, lineMap, lineNumber)
    ensures lineNumber' == lineNumber + |Segments(e.text)|
  {
    var textLines := Split(e.text);
    ghost var segs := Segments(e.text);
    SegmentsArePrefix(e.text);
    lines', lineNumber' := lines, lineNumber;
    ghost var done := 0;
    for index := 0 to |textLines|
      invariant done == if index <= |segs| then index else |segs|
      invariant lineNumber' == lineNumber + done
      invariant lines' == lines + SegmentRows(e.op, segs[..done], side, lineMap, lineNumber)
    {
      var line := textLines[index];
      if index == |textLines| - 1 && line == [] {
        assert index == |segs|;
      } else {
        assert index < |segs| && done == index && segs[index] == line;
        var next, nextNumber := EmitLine(lines', lineNumber', e.op, line, side, lineMap);
        SegmentRowsStep(lines, lines', next, e.op, segs, index, side, lineMap, lineNumber);
        lines', lineNumber' := next, nextNumber;
        done := done + 1;
      }
    }
    assert segs[..|segs|] == segs;
  }

  /** The kept segments are the split pieces, less at most a trailing empty one. */
  lemma SegmentsArePrefix(text: string)
    ensures |Segments(text)|
      == if Split(text)[|Split(text)| - 1] == [] then |Split(text)| - 1 else |Split(text)|
    ensures Segments(text) == Split(text)[..|Segments(text)|]
  {
    SegmentsOfSplit(text);
  }

  /** One more segment walked: the rows so far, then that segment's row. */
  lemma SegmentRowsStep(lines: seq<DiffLine>, sofar: seq<DiffLine>, next: seq<DiffLine>, op: Op, segs: seq<string>, i: nat, side: Side, lineMap: Option<LineMap>, n: nat)
    requires i < |segs|
    requires sofar == lines + SegmentRows(op, segs[..i], side, lineMap, n)
    requires next == sofar + RowFor(op, segs[i], side, lineMap, n + i)
    ensures next == lines + SegmentRows(op, segs[..i + 1], side, lineMap, n)
  {
    PrefixSnoc(segs, i);
    SegmentRowsSnoc(op, segs[..i], segs[i], side, lineMap, n);
    SeqAssoc(lines, SegmentRows(op, segs[..i], side, lineMap, n), RowFor(op, segs[i], side, lineMap, n + i));
  }

  lemma PrefixSnoc(segs: seq<string>, i: nat)
    requires i < |segs|
    ensures segs[..i + 1] == segs[..i] + [segs[i]]
  {
  }

  /**
   * One step of `DiffRows`, read at position `d` of the script: the rows
   * already emitted, then those of the edit at `d`, then those of the edits
   * after it.
   */
  lemma DiffRowsAt(lines: seq<DiffLine>, diffs: seq<Edit>, d: nat, side: Side, lineMap: Option<LineMap>, n: nat)
    requires d < |diffs|
    ensures lines + DiffRows(diffs[d..], side, lineMap, n)
      == (lines + SegmentRows(diffs[d].op, Segments(diffs[d].text), side, lineMap, n))
         + DiffRows(diffs[d + 1..], side, lineMap, n + |Segments(diffs[d].text)|)
  {
    var t := diffs[d..];
    assert t[0] == diffs[d] && t[1..] == diffs[d + 1..];
    var here := SegmentRows(t[0].op, Segments(t[0].text), side, lineMap, n);
    var rest := DiffRows(t[1..], side, lineMap, n + |Segments(t[0].text)|);
    assert DiffRows(t, side, lineMap, n) == here + rest;
    SeqAssoc(lines, here, rest);
  }

  /**
   * `processGitHubStyleDiff`: the rows of `diffs` on `side`, numbered from 1,
   * with `lineMap` standing for the `diffResult?.lineMap` the closure reads.
   */
  method ProcessGitHubStyleDiff(diffs: seq<Edit>, side: Side, lineMap: Option<LineMap>) returns (lines: seq<DiffLine>)
    ensures lines == DiffRows(diffs, side, lineMap, 1)
  {
    lines := [];
    var lineNumber: nat := 1;
    ghost var target := DiffRows(diffs, side, lineMap, 1);
    assert diffs[0..] == diffs;
    for d := 0 to |diffs|
      invariant lines + DiffRows(diffs[d..], side, lineMap, lineNumber) == target
    {
      DiffRowsAt(lines, diffs, d, side, lineMap, lineNumber);
      lines, lineNumber := AppendEdit(lines, lineNumber, diffs[d], side, lineMap);
    }
    assert diffs[|diffs|..] == [];
    assert lines + [] == lines;
  }

  /**
   * The effect that fills the panel: the projected rows when highlighting is
   * on and a result is present (an empty `diffs` array still counts as
   * present), and no rows otherwise.
   */
  method UpdateDiffLines(highlightDiffs: bool, diffResult: Option<DiffResult>, side: Side) returns (diffLines: seq<DiffLine>)
    ensures !highlightDiffs || diffResult.None? ==> diffLines == []
    ensures highlightDiffs && diffResult.Some? ==>
      diffLines == DiffRows(diffResult.value.diffs, side, diffResult.value.lineMap, 1)
  {
    if highlightDiffs && diffResult.Some? {
      diffLines := ProcessGitHubStyleDiff(diffResult.value.diffs, side, diffResult.value.lineMap);
    } else {
      diffLines := [];
    }
  }

  // ---------------------------------------------------------------------
  // What the rows are
  // ---------------------------------------------------------------------

  /** Numbers lie in `[lo, hi)` and strictly increase along the rows. */
  predicate Numbered(rows: seq<DiffLine>, lo: nat, hi: nat)
  {
    (forall k :: 0 <= k < |rows| ==> lo <= rows[k].lineNumber < hi)
    && (forall a, b :: 0 <= a < b < |rows| ==> rows[a].lineNumber < rows[b].lineNumber)
  }

  /**
   * A row as `side` may show it: its kind is one the side shows, its content
   * holds no newline and it carries the side's map read at its own number.
   */
  predicate RowOnSide(row: DiffLine, side: Side, lineMap: Option<LineMap>)
  {
    (side == Left ==> row.kind != Addition)
    && (side == Right ==> row.kind != Deletion)
    && '\n' !in row.content
    && row.correspondingLine == Corresponding(lineMap, side, row.lineNumber)
  }

  predicate AllOnSide(rows: seq<DiffLine>, side: Side, lineMap: Option<LineMap>)
  {
    forall k :: 0 <= k < |rows| ==> RowOnSide(rows[k], side, lineMap)
  }

  lemma NumberedConcat(a: seq<DiffLine>, b: seq<DiffLine>, lo: nat, mid: nat, hi: nat)
    requires lo <= mid <= hi && Numbered(a, lo, mid) && Numbered(b, mid, hi)
    ensures Numbered(a + b, lo, hi)
  {
    var c := a + b;
    forall k | 0 <= k < |c| ensures lo <= c[k].lineNumber < hi {
      if k < |a| { assert c[k] == a[k]; } else { assert c[k] == b[k - |a|]; }
    }
    forall i, j | 0 <= i < j < |c| ensures c[i].lineNumber < c[j].lineNumber {
      if j < |a| {
        assert c[i] == a[i] && c[j] == a[j];
      } else if i >= |a| {
        assert c[i] == b[i - |a|] && c[j] == b[j - |a|];
      } else {
        assert c[i] == a[i] && c[j] == b[j - |a|];
      }
    }
  }

  lemma AllOnSideConcat(a: seq<DiffLine>, b: seq<DiffLine>, side: Side, lineMap: Option<LineMap>)
    requires AllOnSide(a, side, lineMap) && AllOnSide(b, side, lineMap)
    ensures AllOnSide(a + b, side, lineMap)
  {
    forall k | 0 <= k < |a + b| ensures RowOnSide((a + b)[k], side, lineMap) {
      if k < |a| { assert (a + b)[k] == a[k]; } else { assert (a + b)[k] == b[k - |a|]; }
    }
  }

  lemma ContentsConcat(a: seq<DiffLine>, b: seq<DiffLine>)
    ensures Contents(a + b) == Contents(a) + Contents(b)
  {
    if a != [] {
      assert (a + b)[1..] == a[1..] + b;
      ContentsConcat(a[1..], b);
    } else {
      assert a + b == b;
    }
  }

  /** The rows of one edit are numbered within the numbers of its segments. */
  lemma {:induction false} SegmentRowsNumbered(op: Op, segs: seq<string>, side: Side, lineMap: Option<LineMap>, n: nat)
    ensures Numbered(SegmentRows(op, segs, side, lineMap, n), n, n + |segs|)
  {
    if segs != [] {
      SegmentRowsNumbered(op, segs[1..], side, lineMap, n + 1);
      NumberedConcat(RowFor(op, segs[0], side, lineMap, n), SegmentRows(op, segs[1..], side, lineMap, n + 1), n, n + 1, n + |segs|);
    }
  }

  /** The rows of one edit are rows the side shows, of the edit's kind. */
  lemma {:induction false} SegmentRowsOnSide(op: Op, segs: seq<string>, side: Side, lineMap: Option<LineMap>, n: nat)
    requires forall k :: 0 <= k < |segs| ==> '\n' !in segs[k]
    ensures AllOnSide(SegmentRows(op, segs, side, lineMap, n), side, lineMap)
  {
    if segs != [] {
      var tail := segs[1..];
      assert forall k :: 0 <= k < |tail| ==> tail[k] == segs[k + 1];
      SegmentRowsOnSide(op, tail, side, lineMap, n + 1);
      AllOnSideConcat(RowFor(op, segs[0], side, lineMap, n), SegmentRows(op, tail, side, lineMap, n + 1), side, lineMap);
    }
  }

  /** The rows of one edit carry its segments when the side shows them, and nothing otherwise. */
  lemma {:induction false} SegmentRowsContents(op: Op, segs: seq<string>, side: Side, lineMap: Option<LineMap>, n: nat)
    ensures Contents(SegmentRows(op, segs, side, lineMap, n)) == if Shown(op, side) then segs else []
  {
    if segs != [] {
      SegmentRowsContents(op, segs[1..], side, lineMap, n + 1);
      ContentsConcat(RowFor(op, segs[0], side, lineMap, n), SegmentRows(op, segs[1..], side, lineMap, n + 1));
      assert segs == [segs[0]] + segs[1..];
    }
  }

  /** The rows of a script on `side`, numbered from `n`, are numbered strictly increasingly below `n` plus its segments. */
  lemma {:induction false} DiffRowsNumbered(diffs: seq<Edit>, side: Side, lineMap: Option<LineMap>, n: nat)
    ensures Numbered(DiffRows(diffs, side, lineMap, n), n, n + TotalSegments(diffs))
  {
    if diffs != [] {
      var segs := Segments(diffs[0].text);
      SegmentRowsNumbered(diffs[0].op, segs, side, lineMap, n);
      DiffRowsNumbered(diffs[1..], side, lineMap, n + |segs|);
      NumberedConcat(SegmentRows(diffs[0].op, segs, side, lineMap, n), DiffRows(diffs[1..], side, lineMap, n + |segs|),
        n, n + |segs|, n + TotalSegments(diffs));
    }
  }

  /** Every row of a script on `side` is one the side shows, carrying the side's map at its own number. */
  lemma {:induction false} DiffRowsOnSide(diffs: seq<Edit>, side: Side, lineMap: Option<LineMap>, n: nat)
    ensures AllOnSide(DiffRows(diffs, side, lineMap, n), side, lineMap)
  {
    if diffs != [] {
      var segs := Segments(diffs[0].text);
      SegmentsShape(diffs[0].text);
      SegmentRowsOnSide(diffs[0].op, segs, side, lineMap, n);
      DiffRowsOnSide(diffs[1..], side, lineMap, n + |segs|);
      AllOnSideConcat(SegmentRows(diffs[0].op, segs, side, lineMap, n), DiffRows(diffs[1..], side, lineMap, n + |segs|), side, lineMap);
    }
  }

  /** The contents of the rows of a script on `side` are the segments the side shows, in script order. */
  lemma {:induction false} DiffRowsContents(diffs: seq<Edit>, side: Side, lineMap: Option<LineMap>, n: nat)
    ensures Contents(DiffRows(diffs, side, lineMap, n)) == ShownSegments(diffs, side)
  {
    if diffs != [] {
      var segs := Segments(diffs[0].text);
      SegmentRowsContents(diffs[0].op, segs, side, lineMap, n);
      DiffRowsContents(diffs[1..], side, lineMap, n + |segs|);
      ContentsConcat(SegmentRows(diffs[0].op, segs, side, lineMap, n), DiffRows(diffs[1..], side, lineMap, n + |segs|));
    }
  }

  /**
   * The rows of a script on `side`, numbered from `n`: their numbers are
   * strictly increasing and below `n` plus the number of segments; every
   * row is one the side shows and carries the side's map read at its own
   * number; and their contents are exactly the segments the side shows, in
   * script order.
   */
  lemma DiffRowsShape(diffs: seq<Edit>, side: Side, lineMap: Option<LineMap>, n: nat)
    ensures var rows := DiffRows(diffs, side, lineMap, n);
      Numbered(rows, n, n + TotalSegments(diffs)) && AllOnSide(rows, side, lineMap)
      && Contents(rows) == ShownSegments(diffs, side)
  {
    DiffRowsNumbered(diffs, side, lineMap, n);
    DiffRowsOnSide(diffs, side, lineMap, n);
    DiffRowsContents(diffs, side, lineMap, n);
  }

  function Kinds(rows: seq<DiffLine>): seq<LineKind>
  {
    if rows == [] then [] else [rows[0].kind] + Kinds(rows[1..])
  }

  function Numbers(rows: seq<DiffLine>): seq<nat>
  {
    if rows == [] then [] else [rows[0].lineNumber] + Numbers(rows[1..])
  }

  /** `count` consecutive numbers from `n`. */
  function Range(n: nat, count: nat): seq<nat>
  {
    seq(count, k requires 0 <= k < count => n + k)
  }

  /** One kind per segment of each edit the side shows: context, deletion or addition as the edit is kept, deleted or inserted. */
  function ShownKinds(diffs: seq<Edit>, side: Side): seq<LineKind>
  {
    if diffs == [] then []
    else
      (if Shown(diffs[0].op, side) then seq(|Segments(diffs[0].text)|, _ => KindOf(diffs[0].op)) else [])
        + ShownKinds(diffs[1..], side)
  }

  /**
   * The numbers of the segments the side shows, when every segment of the
   * script, shown or not, takes the next number from `n`.
   */
  function ShownNumbers(diffs: seq<Edit>, side: Side, n: nat): seq<nat>
  {
    if diffs == [] then []
    else
      (if Shown(diffs[0].op, side) then Range(n, |Segments(diffs[0].text)|) else [])
        + ShownNumbers(diffs[1..], side, n + |Segments(diffs[0].text)|)
  }

  lemma {:induction false} KindsConcat(a: seq<DiffLine>, b: seq<DiffLine>)
    ensures Kinds(a + b) == Kinds(a) + Kinds(b)
  {
    if a != [] {
      assert (a + b)[1..] == a[1..] + b;
      KindsConcat(a[1..], b);
    } else {
      assert a + b == b;
    }
  }

  lemma {:induction false} NumbersConcat(a: seq<DiffLine>, b: seq<DiffLine>)
    ensures Numbers(a + b) == Numbers(a) + Numbers(b)
  {
    if a != [] {
      assert (a + b)[1..] == a[1..] + b;
      NumbersConcat(a[1..], b);
    } else {
      assert a + b == b;
    }
  }

  /** The rows of one edit all have the edit's kind, one per segment when the side shows the edit, none otherwise. */
  lemma {:induction false} SegmentRowsKinds(op: Op, segs: seq<string>, side: Side, lineMap: Option<LineMap>, n: nat)
    ensures Kinds(SegmentRows(op, segs, side, lineMap, n)) == if Shown(op, side) then seq(|segs|, _ => KindOf(op)) else []
  {
    if segs != [] {
      var head := RowFor(op, segs[0], side, lineMap, n);
      var tail := SegmentRows(op, segs[1..], side, lineMap, n + 1);
      assert SegmentRows(op, segs, side, lineMap, n) == head + tail;
      SegmentRowsKinds(op, segs[1..], side, lineMap, n + 1);
      KindsConcat(head, tail);
      if Shown(op, side) {
        assert [KindOf(op)] + seq(|segs| - 1, _ => KindOf(op)) == seq(|segs|, _ => KindOf(op));
      }
    }
  }

  /** The rows of one edit take consecutive numbers from `n` when the side shows the edit, and there are none otherwise. */
  lemma {:induction false} SegmentRowsNumbers(op: Op, segs: seq<string>, side: Side, lineMap: Option<LineMap>, n: nat)
    ensures Numbers(SegmentRows(op, segs, side, lineMap, n)) == if Shown(op, side) then Range(n, |segs|) else []
  {
    if segs != [] {
      var head := RowFor(op, segs[0], side, lineMap, n);
      var tail := SegmentRows(op, segs[1..], side, lineMap, n + 1);
      assert SegmentRows(op, segs, side, lineMap, n) == head + tail;
      SegmentRowsNumbers(op, segs[1..], side, lineMap, n + 1);
      NumbersConcat(head, tail);
      if Shown(op, side) {
        assert [n] + Range(n + 1, |segs| - 1) == Range(n, |segs|);
      }
    }
  }

  /**
   * The kinds of the rows of a script on `side` follow the edits the side
   * shows: `context` for each kept segment, `deletion` for each deleted one
   * (left only) and `addition` for each inserted one (right only).
   */
  lemma {:induction false} DiffRowsKinds(diffs: seq<Edit>, side: Side, lineMap: Option<LineMap>, n: nat)
    ensures Kinds(DiffRows(diffs, side, lineMap, n)) == ShownKinds(diffs, side)
  {
    if diffs != [] {
      var op, segs := diffs[0].op, Segments(diffs[0].text);
      var head := SegmentRows(op, segs, side, lineMap, n);
      var tail := DiffRows(diffs[1..], side, lineMap, n + |segs|);
      assert DiffRows(diffs, side, lineMap, n) == head + tail;
      SegmentRowsKinds(op, segs, side, lineMap, n);
      DiffRowsKinds(diffs[1..], side, lineMap, n + |segs|);
      KindsConcat(head, tail);
    }
  }

  /**
   * The numbers of the rows of a script on `side` are those of the segments
   * the side shows, where every segment takes a number, shown or not: both
   * sides number a script alike, and a row the side skips leaves a gap.
   */
  lemma {:induction false} DiffRowsNumbers(diffs: seq<Edit>, side: Side, lineMap: Option<LineMap>, n: nat)
    ensures Numbers(DiffRows(diffs, side, lineMap, n)) == ShownNumbers(diffs, side, n)
  {
    if diffs != [] {
      var op, segs := diffs[0].op, Segments(diffs[0].text);
      var head := SegmentRows(op, segs, side, lineMap, n);
      var tail := DiffRows(diffs[1..], side, lineMap, n + |segs|);
      assert DiffRows(diffs, side, lineMap, n) == head + tail;
      SegmentRowsNumbers(op, segs, side, lineMap, n);
      DiffRowsNumbers(diffs[1..], side, lineMap, n + |segs|);
      NumbersConcat(head, tail);
    }
  }

  /** The numbers of the context rows, in order. */
  function ContextNumbers(rows: seq<DiffLine>): seq<nat>
  {
    if rows == [] then []
    else (if rows[0].kind == Context then [rows[0].lineNumber] else []) + ContextNumbers(rows[1..])
  }

  /** The numbers of the kept segments of a script whose segments are numbered from `n`. */
  function KeptNumbers(diffs: seq<Edit>, n: nat): seq<nat>
  {
    if diffs == [] then []
    else
      (if diffs[0].op == Equal then Range(n, |Segments(diffs[0].text)|) else [])
        + KeptNumbers(diffs[1..], n + |Segments(diffs[0].text)|)
  }

  lemma {:induction false} ContextNumbersConcat(a: seq<DiffLine>, b: seq<DiffLine>)
    ensures ContextNumbers(a + b) == ContextNumbers(a) + ContextNumbers(b)
  {
    if a != [] {
      assert (a + b)[1..] == a[1..] + b;
      ContextNumbersConcat(a[1..], b);
    } else {
      assert a + b == b;
    }
  }

  /** The context rows of one edit take consecutive numbers from `n` if it is kept, and there are none otherwise. */
  lemma {:induction false} SegmentRowsContext(op: Op, segs: seq<string>, side: Side, lineMap: Option<LineMap>, n: nat)
    ensures ContextNumbers(SegmentRows(op, segs, side, lineMap, n)) == if op == Equal then Range(n, |segs|) else []
  {
    if segs != [] {
      var head := RowFor(op, segs[0], side, lineMap, n);
      var tail := SegmentRows(op, segs[1..], side, lineMap, n + 1);
      assert SegmentRows(op, segs, side, lineMap, n) == head + tail;
      SegmentRowsContext(op, segs[1..], side, lineMap, n + 1);
      ContextNumbersConcat(head, tail);
      if op == Equal {
        assert [n] + Range(n + 1, |segs| - 1) == Range(n, |segs|);
      }
    }
  }

  /** On either side, the context rows carry the numbers of the kept segments. */
  lemma {:induction false} DiffRowsContext(diffs: seq<Edit>, side: Side, lineMap: Option<LineMap>, n: nat)
    ensures ContextNumbers(DiffRows(diffs, side, lineMap, n)) == KeptNumbers(diffs, n)
  {
    if diffs != [] {
      var op, segs := diffs[0].op, Segments(diffs[0].text);
      var head := SegmentRows(op, segs, side, lineMap, n);
      var tail := DiffRows(diffs[1..], side, lineMap, n + |segs|);
      assert DiffRows(diffs, side, lineMap, n) == head + tail;
      SegmentRowsContext(op, segs, side, lineMap, n);
      DiffRowsContext(diffs[1..], side, lineMap, n + |segs|);
      ContextNumbersConcat(head, tail);
    }
  }

  /**
   * A kept segment takes the same number on both sides: whatever the script
   * and the line maps, the left and the right projection number their
   * context rows alike.
   */
  lemma ContextNumbersAgree(diffs: seq<Edit>, leftMap: Option<LineMap>, rightMap: Option<LineMap>)
    ensures ContextNumbers(DiffRows(diffs, Left, leftMap, 1)) == ContextNumbers(DiffRows(diffs, Right, rightMap, 1))
  {
    DiffRowsContext(diffs, Left, leftMap, 1);
    DiffRowsContext(diffs, Right, rightMap, 1);
  }

  /** Without a line map, no row has a corresponding line. */
  lemma RowsWithoutMap(diffs: seq<Edit>, side: Side)
    ensures forall row :: row in DiffRows(diffs, side, None, 1) ==> row.correspondingLine == None
  {
    DiffRowsShape(diffs, side, None, 1);
  }

  /** The rows are all context rows, numbered consecutively from `n`. */
  predicate ContextFrom(rows: seq<DiffLine>, n: nat)
  {
    forall k :: 0 <= k < |rows| ==> rows[k].kind == Context && rows[k].lineNumber == n + k
  }

  lemma ContextConcat(a: seq<DiffLine>, b: seq<DiffLine>, n: nat)
    requires ContextFrom(a, n) && ContextFrom(b, n + |a|)
    ensures ContextFrom(a + b, n)
  {
    forall k | 0 <= k < |a + b| ensures (a + b)[k].kind == Context && (a + b)[k].lineNumber == n + k {
      if k < |a| { assert (a + b)[k] == a[k]; } else { assert (a + b)[k] == b[k - |a|]; }
    }
  }

  /** A script with no changes shows every segment as context, numbered consecutively from `n`. */
  lemma {:induction false} UnchangedRows(diffs: seq<Edit>, side: Side, lineMap: Option<LineMap>, n: nat)
    requires AllEqual(diffs)
    ensures |DiffRows(diffs, side, lineMap, n)| == TotalSegments(diffs)
    ensures ContextFrom(DiffRows(diffs, side, lineMap, n), n)
  {
    if diffs != [] {
      var segs := Segments(diffs[0].text);
      assert diffs[0].op == Equal;
      UnchangedSegmentRows(segs, side, lineMap, n);
      assert AllEqual(diffs[1..]) by {
        assert forall i :: 0 <= i < |diffs[1..]| ==> diffs[1..][i] == diffs[i + 1];
      }
      UnchangedRows(diffs[1..], side, lineMap, n + |segs|);
      ContextConcat(SegmentRows(Equal, segs, side, lineMap, n), DiffRows(diffs[1..], side, lineMap, n + |segs|), n);
    }
  }

  lemma {:induction false} UnchangedSegmentRows(segs: seq<string>, side: Side, lineMap: Option<LineMap>, n: nat)
    ensures |SegmentRows(Equal, segs, side, lineMap, n)| == |segs|
    ensures ContextFrom(SegmentRows(Equal, segs, side, lineMap, n), n)
  {
    if segs != [] {
      UnchangedSegmentRows(segs[1..], side, lineMap, n + 1);
      ContextConcat(RowFor(Equal, segs[0], side, lineMap, n), SegmentRows(Equal, segs[1..], side, lineMap, n + 1), n);
    }
  }

  /** On a script with no changes, the number of segments is the number of left lines the alignment counts. */
  lemma {:induction false} UnchangedTotal(diffs: seq<Edit>)
    requires AllEqual(diffs)
    ensures TotalSegments(diffs) == LeftLines(diffs)
  {
    if diffs != [] {
      assert AllEqual(diffs[1..]) by {
        assert forall i :: 0 <= i < |diffs[1..]| ==> diffs[1..][i] == diffs[i + 1];
      }
      SegmentsShape(diffs[0].text);
      UnchangedTotal(diffs[1..]);
    }
  }

  /**
   * The corresponding line read one line late: on a script with no changes
   * and its own line map, the row numbered `k + 1` (the 0-based line `k`)
   * carries `k + 1`, and the last row carries nothing.
   */
  lemma CorrespondingLineShift(diffs: seq<Edit>, side: Side)
    requires AllEqual(diffs)
    ensures forall k :: 0 <= k < |DiffRows(diffs, side, Some(MapsOf(diffs)), 1)| - 1 ==>
                DiffRows(diffs, side, Some(MapsOf(diffs)), 1)[k].correspondingLine == Some(k + 1)
    ensures DiffRows(diffs, side, Some(MapsOf(diffs)), 1) != []
      ==> DiffRows(diffs, side, Some(MapsOf(diffs)), 1)[|DiffRows(diffs, side, Some(MapsOf(diffs)), 1)| - 1].correspondingLine == None
  {
    var lm := Some(MapsOf(diffs));
    var rows := DiffRows(diffs, side, lm, 1);
    UnchangedRows(diffs, side, lm, 1);
    DiffRowsOnSide(diffs, side, lm, 1);
    UnchangedTotal(diffs);
    UnchangedLineMap(diffs);
    LineMapShape(diffs);
    var m := if side == Left then MapsOf(diffs).left else MapsOf(diffs).right;
    assert Identity(m);
    assert forall j: nat :: j in m <==> j < |rows|;
    forall k | 0 <= k < |rows|
      ensures rows[k].correspondingLine == (if k + 1 < |rows| then Some(k + 1) else None)
    {
      assert RowOnSide(rows[k], side, lm) && rows[k].lineNumber == k + 1;
      assert rows[k].correspondingLine == Lookup(m, k + 1);
    }
  }

  /** The last edit of the example script: an inserted line numbered 3, shown on the right only. */
  lemma ProjectionExampleInsert(z: char, side: Side)
    requires z != '\n'
    ensures DiffRows([Edit(Insert, [z, '\n'])], side, None, 3)
      == if side == Right then [DiffLine(Addition, [z], 3, None)] else []
  {
    var e := Edit(Insert, [z, '\n']);
    OneEditRows(e, z, [], side, None, 3);
    assert [e] + [] == [e];
  }

  /** The last two edits: a deleted line numbered 2 on the left, or the inserted line numbered 3 on the right. */
  lemma ProjectionExampleDelete(y: char, z: char, side: Side)
    requires y != '\n' && z != '\n'
    ensures DiffRows([Edit(Delete, [y, '\n']), Edit(Insert, [z, '\n'])], side, None, 2)
      == if side == Left then [DiffLine(Deletion, [y], 2, None)] else [DiffLine(Addition, [z], 3, None)]
  {
    var e := Edit(Delete, [y, '\n']);
    ProjectionExampleInsert(z, side);
    OneEditRows(e, y, [Edit(Insert, [z, '\n'])], side, None, 2);
    assert [e] + [Edit(Insert, [z, '\n'])] == [e, Edit(Insert, [z, '\n'])];
  }

  /**
   * An unchanged, a deleted and an inserted line, each one character long:
   * both sides show the context as line 1; the left side then shows the
   * deletion as line 2 and no addition, the right side the addition as line
   * 3, since the deleted line took number 2 on both sides.
   */
  lemma ProjectionExample(x: char, y: char, z: char, side: Side)
    requires x != '\n' && y != '\n' && z != '\n'
    ensures DiffRows([Edit(Equal, [x, '\n']), Edit(Delete, [y, '\n']), Edit(Insert, [z, '\n'])], side, None, 1)
      == if side == Left then [DiffLine(Context, [x], 1, None), DiffLine(Deletion, [y], 2, None)]
         else [DiffLine(Context, [x], 1, None), DiffLine(Addition, [z], 3, None)]
  {
    var e := Edit(Equal, [x, '\n']);
    var rest := [Edit(Delete, [y, '\n']), Edit(Insert, [z, '\n'])];
    ProjectionExampleDelete(y, z, side);
    OneEditRows(e, x, rest, side, None, 1);
    assert [e] + rest == [e, rest[0], rest[1]];
  }

  /**
   * The rows of a script whose first edit is one terminated one-character
   * line: that line's row, if the side shows it, then the rest numbered one on.
   */
  lemma OneEditRows(e: Edit, c: char, rest: seq<Edit>, side: Side, lineMap: Option<LineMap>, n: nat)
    requires c != '\n' && e.text == [c, '\n']
    ensures DiffRows([e] + rest, side, lineMap, n) == RowFor(e.op, [c], side, lineMap, n) + DiffRows(rest, side, lineMap, n + 1)
  {
    SegmentsExample(e.text, c);
    OneSegmentRows(e.op, [c], side, lineMap, n);
    assert ([e] + rest)[0] == e && ([e] + rest)[1..] == rest;
  }

  lemma OneSegmentRows(op: Op, segment: string, side: Side, lineMap: Option<LineMap>, n: nat)
    ensures SegmentRows(op, [segment], side, lineMap, n) == RowFor(op, segment, side, lineMap, n)
  {
    assert [segment][1..] == [];
  }

  /** A one-character terminated line is one segment. */
  lemma SegmentsExample(text: string, c: char)
    requires c != '\n' && text == [c, '\n']
    ensures Segments(text) == [[c]]
  {
    assert text[1..] == "\n" && text[1..][1..] == [];
    assert Segments(text[1..]) == [[]];
    assert [c] + [] == [c];
  }

  // ---------------------------------------------------------------------
  // Paragraph view
  // ---------------------------------------------------------------------

  /** The heading heuristic of the paragraph view, as the source writes it. */
  predicate IsLikelyHeading(content: string)
  {
    |content| < 50
    && '.' !in content
    && ((|content| > 0 && content[|content| - 1] == ':') || content == ToUpper(content))
  }

  /** Only lower-case letters change under `toUpperCase`. */
  lemma UpperUnchanged(s: string)
    ensures ToUpper(s) == s <==> forall k :: 0 <= k < |s| ==> !IsLower(s[k])
  {
    if ToUpper(s) == s {
      forall k | 0 <= k < |s| ensures !IsLower(s[k]) {
        assert UpperChar(s[k]) == ToUpper(s)[k];
      }
    }
  }

  /**
   * A line is a likely heading exactly when it is shorter than 50 characters,
   * has no '.', and ends in ':' or has no lower-case letter.
   */
  lemma LikelyHeadingIff(s: string)
    ensures IsLikelyHeading(s) <==>
      |s| < 50 && '.' !in s
      && ((|s| > 0 && s[|s| - 1] == ':') || forall k :: 0 <= k < |s| ==> !IsLower(s[k]))
  {
    UpperUnchanged(s);
  }

  lemma LikelyHeadingExamples(title: string, caption: string, sentence: string)
    requires title == "SUMMARY" && caption == "Notes:" && sentence == "See below."
    ensures IsLikelyHeading(title) && IsLikelyHeading(caption) && !IsLikelyHeading(sentence)
  {
    UpperUnchanged(title);
    assert sentence[9] == '.';
  }

  // ---------------------------------------------------------------------
  // Page navigation
  // ---------------------------------------------------------------------

  /** `goToPreviousPage`: one page back unless already on page 1 or before. */
  function PreviousPage(currentPage: int, totalPages: int): (page: int)
    ensures page == currentPage || page == currentPage - 1
    ensures page < currentPage <==> currentPage > 1
    ensures 1 <= currentPage <= totalPages ==> 1 <= page <= totalPages
  {
    if currentPage > 1 then currentPage - 1 else currentPage
  }

  /** `goToNextPage`: one page on unless already on the last page or after. */
  function NextPage(currentPage: int, totalPages: int): (page: int)
    ensures page == currentPage || page == currentPage + 1
    ensures page > currentPage <==> currentPage < totalPages
    ensures 1 <= currentPage <= totalPages ==> 1 <= page <= totalPages
  {
    if currentPage < totalPages then currentPage + 1 else currentPage
  }

  /** Going back from a page past the end moves towards it, never below page 1. */
  lemma PreviousFromPastEnd(currentPage: int, totalPages: int)
    requires currentPage > totalPages && currentPage > 1
    ensures PreviousPage(currentPage, totalPages) == currentPage - 1 >= 1
    ensures NextPage(currentPage, totalPages) == currentPage
  {
  }

  /** The viewer's page state: the page shown and the document's page count. */
  class PageNavigator {
    var currentPage: int
    var totalPages: int

    /** Page 1 of a document not loaded yet. */
    constructor ()
      ensures currentPage == 1 && totalPages == 0
    {
      currentPage := 1;
      totalPages := 0;
    }

    predicate InRange()
      reads this
    {
      1 <= currentPage <= totalPages
    }

    /** A loaded document sets the page count and keeps the current page. */
    method SetTotalPages(numPages: nat)
      modifies this
      ensures totalPages == numPages && currentPage == old(currentPage)
    {
      totalPages := numPages;
    }

    method GoToPreviousPage()
      modifies this
      ensures currentPage == PreviousPage(old(currentPage), old(totalPages))
      ensures totalPages == old(totalPages)
      ensures old(InRange()) ==> InRange()
    {
      if currentPage > 1 {
        currentPage := currentPage - 1;
      }
    }

    method GoToNextPage()
      modifies this
      ensures currentPage == NextPage(old(currentPage), old(totalPages))
      ensures totalPages == old(totalPages)
      ensures old(InRange()) ==> InRange()
    {
      if currentPage < totalPages {
        currentPage := currentPage + 1;
      }
    }
  }
}
