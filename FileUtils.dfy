/**
 * `diffTexts`, the hand-written line diff: two cursors walk the lines of the
 * original and the modified text, skipping matching lines, jumping over at
 * most two original lines when the current modified line shows up just
 * ahead, and otherwise recording the modified line as an addition.
 */
module FileUtils {
  import opened Text

  /**
   * `lines.indexOf(x, from)`: the first index at or after `from` holding
   * `x`, or -1 when there is none.
   */
  function IndexOf(lines: seq<string>, x: string, from: nat): (r: int)
    ensures r == -1 || (from <= r < |lines| && lines[r] == x)
    ensures r == -1 ==> forall k :: from <= k < |lines| ==> lines[k] != x
    ensures r != -1 ==> forall k :: from <= k < r ==> lines[k] != x
    decreases |lines| - from
  {
    if from >= |lines| then -1
    else if lines[from] == x then from
    else IndexOf(lines, x, from + 1)
  }

  /**
   * The look-ahead test of `diffTexts` when `original[i]` differs from the
   * current modified line `x`: it succeeds exactly when `x` occurs at index
   * `i + 1` or `i + 2`, and then it names the first of them.
   */
  lemma LookAhead(original: seq<string>, i: nat, x: string)
    requires i < |original| && original[i] != x
    ensures (IndexOf(original, x, i) != -1 && IndexOf(original, x, i) < i + 3)
      <==> (exists k :: i < k < i + 3 && k < |original| && original[k] == x)
    ensures IndexOf(original, x, i) != -1 && IndexOf(original, x, i) < i + 3 ==>
      (IndexOf(original, x, i) == i + 1 || IndexOf(original, x, i) == i + 2)
      && forall k :: i <= k < IndexOf(original, x, i) ==> original[k] != x
  {
    var n := IndexOf(original, x, i);
    if exists k :: i < k < i + 3 && k < |original| && original[k] == x {
      var k :| i < k < i + 3 && k < |original| && original[k] == x;
      assert n != -1 && n <= k;
    }
  }

  /**
   * The lines of `s` before index `n` whose index is not in `removed`, in
   * order: what is left of a side up to a cursor once its reported lines
   * are taken out.
   */
  function Kept(s: seq<string>, n: nat, removed: set<nat>): seq<string>
    requires n <= |s|
  {
    if n == 0 then [] else Kept(s, n - 1, removed) + (if n - 1 in removed then [] else [s[n - 1]])
  }

  /** Indices at or past `n` make no difference. */
  lemma {:induction false} KeptIgnoresBeyond(s: seq<string>, n: nat, removed: set<nat>, m: nat)
    requires n <= |s| && m >= n
    ensures Kept(s, n, removed + {m}) == Kept(s, n, removed)
  {
    if n > 0 {
      KeptIgnoresBeyond(s, n - 1, removed, m);
    }
  }

  /**
   * What holds of the `diffTexts` loop with its cursors at `i` and `j`: the
   * records are valid, increasing and below the cursors, and the lines
   * before the cursors, less the reported ones, agree.
   */
  predicate Walked(original: seq<string>, modified: seq<string>, i: nat, j: nat,
                   additions: seq<LineChange>, deletions: seq<LineChange>)
  {
    i <= |original| && j <= |modified|
    && AllValid(additions, modified) && AllValid(deletions, original)
    && Below(additions, j) && Below(deletions, i)
    && StrictlyIncreasing(additions) && StrictlyIncreasing(deletions)
    && Kept(original, i, Lines(deletions)) == Kept(modified, j, Lines(additions))
    && i - |deletions| == j - |additions|
  }

  /** Recording `lines[n]` at the cursor `n` keeps a side's part of `Walked`. */
  lemma {:induction false} Push(lines: seq<string>, changes: seq<LineChange>, n: nat)
    requires n < |lines| && AllValid(changes, lines) && Below(changes, n) && StrictlyIncreasing(changes)
    ensures AllValid(changes + [LineChange(n, lines[n])], lines)
    ensures Below(changes + [LineChange(n, lines[n])], n + 1)
    ensures StrictlyIncreasing(changes + [LineChange(n, lines[n])])
    ensures Kept(lines, n + 1, Lines(changes + [LineChange(n, lines[n])])) == Kept(lines, n, Lines(changes))
  {
    var c := LineChange(n, lines[n]);
    var changes' := changes + [c];
    assert forall k :: 0 <= k < |changes| ==> changes'[k] == changes[k];
    assert changes'[|changes|] == c;
    LinesAppend(changes, c);
    KeptIgnoresBeyond(lines, n, Lines(changes), n);
  }

  /** A line not reported is kept. */
  lemma Keep(lines: seq<string>, changes: seq<LineChange>, n: nat)
    requires n < |lines| && Below(changes, n)
    ensures Kept(lines, n + 1, Lines(changes)) == Kept(lines, n, Lines(changes)) + [lines[n]]
  {
    LinesMembership(changes, n);
  }

  lemma RecordAddition(original: seq<string>, modified: seq<string>, i: nat, j: nat,
                       additions: seq<LineChange>, deletions: seq<LineChange>)
    requires Walked(original, modified, i, j, additions, deletions) && j < |modified|
    ensures Walked(original, modified, i, j + 1, additions + [LineChange(j, modified[j])], deletions)
  {
    Push(modified, additions, j);
  }

  lemma RecordDeletion(original: seq<string>, modified: seq<string>, i: nat, j: nat,
                       additions: seq<LineChange>, deletions: seq<LineChange>)
    requires Walked(original, modified, i, j, additions, deletions) && i < |original|
    ensures Walked(original, modified, i + 1, j, additions, deletions + [LineChange(i, original[i])])
  {
    Push(original, deletions, i);
  }

  lemma MatchLines(original: seq<string>, modified: seq<string>, i: nat, j: nat,
                   additions: seq<LineChange>, deletions: seq<LineChange>)
    requires Walked(original, modified, i, j, additions, deletions)
    requires i < |original| && j < |modified| && original[i] == modified[j]
    ensures Walked(original, modified, i + 1, j + 1, additions, deletions)
  {
    Keep(original, deletions, i);
    Keep(modified, additions, j);
  }

  /** The records of the lines of `lines` from `lo` up to `hi`, in order. */
  function Run(lines: seq<string>, lo: nat, hi: nat): seq<LineChange>
    requires lo <= hi <= |lines|
    decreases hi
  {
    if lo == hi then [] else Run(lines, lo, hi - 1) + [LineChange(hi - 1, lines[hi - 1])]
  }

  /** A run holds one record per line between the bounds, each naming its line and carrying its text. */
  lemma {:induction false} RunShape(lines: seq<string>, lo: nat, hi: nat)
    requires lo <= hi <= |lines|
    ensures |Run(lines, lo, hi)| == hi - lo
    ensures forall k :: 0 <= k < hi - lo ==> Run(lines, lo, hi)[k] == LineChange(lo + k, lines[lo + k])
    decreases hi
  {
    if hi > lo {
      RunShape(lines, lo, hi - 1);
    }
  }

  /** Where one pass of the `diffTexts` loop leaves the cursors, and what it records. */
  datatype Move = Move(i: nat, j: nat, added: seq<LineChange>, deleted: seq<LineChange>)

  /**
   * One pass of the `diffTexts` loop with the cursors at `i` and `j`: the
   * four branches of the source, in order.
   */
  function Pass(original: seq<string>, modified: seq<string>, i: nat, j: nat): (m: Move)
    requires i <= |original| && j <= |modified| && (i < |original| || j < |modified|)
    ensures m.i <= |original| && m.j <= |modified|
    ensures (|original| - m.i) + (|modified| - m.j) < (|original| - i) + (|modified| - j)
  {
    if i >= |original| then Move(i, j + 1, [LineChange(j, modified[j])], [])
    else if j >= |modified| then Move(i + 1, j, [], [LineChange(i, original[i])])
    else if original[i] == modified[j] then Move(i + 1, j + 1, [], [])
    else
      var n := IndexOf(original, modified[j], i);
      if n != -1 && n < i + 3 then Move(n, j, [], Run(original, i, n))
      else Move(i, j + 1, [LineChange(j, modified[j])], [])
  }

  /**
   * What a pass records. Past the end of the original, it adds the modified
   * line; past the end of the modified text, it deletes the original line;
   * on equal lines, it records nothing and moves both cursors. On differing
   * lines, when the modified line occurs one or two lines further in the
   * original, it deletes the original lines up to its first such place;
   * otherwise it adds the modified line.
   */
  lemma PassCases(original: seq<string>, modified: seq<string>, i: nat, j: nat)
    requires i <= |original| && j <= |modified| && (i < |original| || j < |modified|)
    ensures i == |original| ==> Pass(original, modified, i, j) == Move(i, j + 1, [LineChange(j, modified[j])], [])
    ensures i < |original| && j == |modified| ==>
      Pass(original, modified, i, j) == Move(i + 1, j, [], [LineChange(i, original[i])])
    ensures i < |original| && j < |modified| && original[i] == modified[j] ==>
      Pass(original, modified, i, j) == Move(i + 1, j + 1, [], [])
    ensures (i < |original| && j < |modified| && original[i] != modified[j]
             && exists k :: i < k < i + 3 && k < |original| && original[k] == modified[j]) ==>
        i < Pass(original, modified, i, j).i < i + 3
        && original[Pass(original, modified, i, j).i] == modified[j]
        && (forall k :: i <= k < Pass(original, modified, i, j).i ==> original[k] != modified[j])
        && Pass(original, modified, i, j) == Move(Pass(original, modified, i, j).i, j, [], Run(original, i, Pass(original, modified, i, j).i))
    ensures (i < |original| && j < |modified| && original[i] != modified[j]
             && !exists k :: i < k < i + 3 && k < |original| && original[k] == modified[j]) ==>
        Pass(original, modified, i, j) == Move(i, j + 1, [LineChange(j, modified[j])], [])
  {
    if i < |original| && j < |modified| && original[i] != modified[j] {
      LookAhead(original, i, modified[j]);
    }
  }

  /** The records of the `diffTexts` loop from the cursors `i` and `j` to the end. */
  datatype LineDiff = LineDiff(additions: seq<LineChange>, deletions: seq<LineChange>)

  function WalkFrom(original: seq<string>, modified: seq<string>, i: nat, j: nat): LineDiff
    requires i <= |original| && j <= |modified|
    decreases (|original| - i) + (|modified| - j)
  {
    if i == |original| && j == |modified| then LineDiff([], [])
    else
      var m := Pass(original, modified, i, j);
      var rest := WalkFrom(original, modified, m.i, m.j);
      LineDiff(m.added + rest.additions, m.deleted + rest.deletions)
  }

  /** Records so far, then one pass, then the rest of the walk: the records so far, then the walk from here. */
  lemma WalkStep(original: seq<string>, modified: seq<string>, i: nat, j: nat,
                 additions: seq<LineChange>, deletions: seq<LineChange>)
    requires i <= |original| && j <= |modified| && (i < |original| || j < |modified|)
    ensures (additions + Pass(original, modified, i, j).added)
        + WalkFrom(original, modified, Pass(original, modified, i, j).i, Pass(original, modified, i, j).j).additions
      == additions + WalkFrom(original, modified, i, j).additions
    ensures (deletions + Pass(original, modified, i, j).deleted)
        + WalkFrom(original, modified, Pass(original, modified, i, j).i, Pass(original, modified, i, j).j).deletions
      == deletions + WalkFrom(original, modified, i, j).deletions
  {
    var m := Pass(original, modified, i, j);
    var rest := WalkFrom(original, modified, m.i, m.j);
    SeqAssoc(additions, m.added, rest.additions);
    SeqAssoc(deletions, m.deleted, rest.deletions);
  }

  /**
   * The inner `for` loop of the look-ahead branch: reports the original
   * lines from the cursor `i` up to `n` as deleted.
   */
  method DeleteUpTo(originalLines: seq<string>, modifiedLines: seq<string>, i: nat, j: nat,
                    additions: seq<LineChange>, deletions: seq<LineChange>, n: nat)
    returns (deletions': seq<LineChange>)
    requires Walked(originalLines, modifiedLines, i, j, additions, deletions)
    requires i <= n <= |originalLines|
    ensures Walked(originalLines, modifiedLines, n, j, additions, deletions')
    ensures deletions' == deletions + Run(originalLines, i, n)
  {
    deletions' := deletions;
    for k := i to n
      invariant Walked(originalLines, modifiedLines, k, j, additions, deletions')
      invariant deletions' == deletions + Run(originalLines, i, k)
    {
      RecordDeletion(originalLines, modifiedLines, k, j, additions, deletions');
      SeqAssoc(deletions, Run(originalLines, i, k), [LineChange(k, originalLines[k])]);
      deletions' := deletions' + [LineChange(k, originalLines[k])];
    }
  }

  /**
   * One pass of the `diffTexts` loop: records what the cursors point at and
   * moves at least one of them forward, as `Pass` says.
   */
  method Advance(originalLines: seq<string>, modifiedLines: seq<string>, i: nat, j: nat,
                 additions: seq<LineChange>, deletions: seq<LineChange>)
    returns (i': nat, j': nat, additions': seq<LineChange>, deletions': seq<LineChange>)
    requires Walked(originalLines, modifiedLines, i, j, additions, deletions)
    requires i < |originalLines| || j < |modifiedLines|
    ensures Walked(originalLines, modifiedLines, i', j', additions', deletions')
    ensures i' == Pass(originalLines, modifiedLines, i, j).i && j' == Pass(originalLines, modifiedLines, i, j).j
    ensures additions' == additions + Pass(originalLines, modifiedLines, i, j).added
    ensures deletions' == deletions + Pass(originalLines, modifiedLines, i, j).deleted
  {
    i', j', additions', deletions' := i, j, additions, deletions;
    if i >= |originalLines| {
      RecordAddition(originalLines, modifiedLines, i, j, additions, deletions);
      additions' := additions + [LineChange(j, modifiedLines[j])];
      j' := j + 1;
    } else if j >= |modifiedLines| {
      RecordDeletion(originalLines, modifiedLines, i, j, additions, deletions);
      deletions' := deletions + [LineChange(i, originalLines[i])];
      i' := i + 1;
    } else if originalLines[i] == modifiedLines[j] {
      MatchLines(originalLines, modifiedLines, i, j, additions, deletions);
      i', j' := i + 1, j + 1;
    } else {
      i', j', additions', deletions' := Mismatch(originalLines, modifiedLines, i, j, additions, deletions);
    }
  }

  /**
   * The step of `diffTexts` on two differing lines: when the modified line
   * occurs again within the next two original lines, the original lines up to
   * it are deleted; otherwise the modified line is an addition.
   */
  method Mismatch(originalLines: seq<string>, modifiedLines: seq<string>, i: nat, j: nat,
                  additions: seq<LineChange>, deletions: seq<LineChange>)
    returns (i': nat, j': nat, additions': seq<LineChange>, deletions': seq<LineChange>)
    requires Walked(originalLines, modifiedLines, i, j, additions, deletions)
    requires i < |originalLines| && j < |modifiedLines| && originalLines[i] != modifiedLines[j]
    ensures Walked(originalLines, modifiedLines, i', j', additions', deletions')
    ensures i' == Pass(originalLines, modifiedLines, i, j).i && j' == Pass(originalLines, modifiedLines, i, j).j
    ensures additions' == additions + Pass(originalLines, modifiedLines, i, j).added
    ensures deletions' == deletions + Pass(originalLines, modifiedLines, i, j).deleted
  {
    i', j', additions', deletions' := i, j, additions, deletions;
    var nextOrigIndex := IndexOf(originalLines, modifiedLines[j], i);
    LookAhead(originalLines, i, modifiedLines[j]);
    if nextOrigIndex != -1 && nextOrigIndex < i + 3 {
      deletions' := DeleteUpTo(originalLines, modifiedLines, i, j, additions, deletions, nextOrigIndex);
      i' := nextOrigIndex;
    } else {
      RecordAddition(originalLines, modifiedLines, i, j, additions, deletions);
      additions' := additions + [LineChange(j, modifiedLines[j])];
      j' := j + 1;
    }
  }

  /**
   * `diffTexts`: the records of the walk from the first lines of both texts.
   * Every record names a line of its side and carries its text; each list
   * reports its lines in increasing order, so none twice; and taking the
   * deleted lines out of the original and the added lines out of the
   * modified text leaves the same sequence of lines, so both lose the same
   * number of lines.
   */
  method DiffTexts(original: string, modified: string)
    returns (additions: seq<LineChange>, deletions: seq<LineChange>)
    ensures LineDiff(additions, deletions) == WalkFrom(Split(original), Split(modified), 0, 0)
    ensures AllValid(additions, Split(modified)) && AllValid(deletions, Split(original))
    ensures StrictlyIncreasing(additions) && StrictlyIncreasing(deletions)
    ensures Kept(Split(original), |Split(original)|, Lines(deletions))
      == Kept(Split(modified), |Split(modified)|, Lines(additions))
    ensures |Split(original)| - |deletions| == |Split(modified)| - |additions|
    ensures original == modified ==> additions == [] && deletions == []
  {
    var originalLines := Split(original);
    var modifiedLines := Split(modified);
    additions, deletions := [], [];
    var i: nat, j: nat := 0, 0;
    ghost var walk := WalkFrom(originalLines, modifiedLines, 0, 0);
    assert [] + walk.additions == walk.additions && [] + walk.deletions == walk.deletions;
    while i < |originalLines| || j < |modifiedLines|
      invariant Walked(originalLines, modifiedLines, i, j, additions, deletions)
      invariant additions + WalkFrom(originalLines, modifiedLines, i, j).additions == walk.additions
      invariant deletions + WalkFrom(originalLines, modifiedLines, i, j).deletions == walk.deletions
      invariant originalLines == modifiedLines ==> i == j && additions == [] && deletions == []
      decreases (|originalLines| - i) + (|modifiedLines| - j)
    {
      WalkStep(originalLines, modifiedLines, i, j, additions, deletions);
      i, j, additions, deletions := Advance(originalLines, modifiedLines, i, j, additions, deletions);
    }
    assert WalkFrom(originalLines, modifiedLines, i, j) == LineDiff([], []);
    assert additions + [] == additions && deletions + [] == deletions;
  }

  /**
   * The walk on small inputs: two single differing lines give one addition
   * and one deletion; a line missing in the middle is one deletion.
   */
  lemma WalkExamples()
    ensures WalkFrom(["a"], ["b"], 0, 0) == LineDiff([LineChange(0, "b")], [LineChange(0, "a")])
    ensures WalkFrom(["a", "b", "c"], ["a", "c"], 0, 0) == LineDiff([], [LineChange(1, "b")])
  {
  }

  /**
   * The look-ahead reaches two lines: a modified line found one line further
   * deletes the line in between, one found three lines further is added
   * instead, and the original lines are deleted at the end.
   */
  lemma WalkLookAheadExamples()
    ensures WalkFrom(["x", "w"], ["w"], 0, 0) == LineDiff([], [LineChange(0, "x")])
    ensures WalkFrom(["x", "y", "z", "w"], ["w"], 0, 0)
      == LineDiff([LineChange(0, "w")], [LineChange(0, "x"), LineChange(1, "y"), LineChange(2, "z"), LineChange(3, "w")])
  {
  }
}
