/**
 * The text pipeline of the comparison engine: normalisation of the two
 * inputs, the line map built from a character-level edit script, the
 * per-side HTML rendering of that script, and the composition of the three.
 * The edit script itself comes from an external diff library and enters the
 * model as a parameter.
 */
module ComparisonEngine {
  import opened Wrappers
  import opened Text

  // ---------------------------------------------------------------------
  // Edits
  // ---------------------------------------------------------------------

  /** The operation tag of a `[number, string]` diff: -1, 0 and 1 in the source. */
  datatype Op = Delete | Equal | Insert

  /** One edit of the script: an operation and the run of characters it covers. */
  datatype Edit = Edit(op: Op, text: string)

  /** The text on the left side of the script: its Delete and Equal runs, in order. */
  function LeftText(edits: seq<Edit>): string
  {
    if edits == [] then []
    else (if edits[0].op != Insert then edits[0].text else []) + LeftText(edits[1..])
  }

  /** The text on the right side of the script: its Equal and Insert runs, in order. */
  function RightText(edits: seq<Edit>): string
  {
    if edits == [] then []
    else (if edits[0].op != Delete then edits[0].text else []) + RightText(edits[1..])
  }

  // ---------------------------------------------------------------------
  // Normalisation
  // ---------------------------------------------------------------------

  /** The comparison options; an option the caller leaves out is false. */
  datatype Options = Options(ignoreWhitespace: bool, ignoreCase: bool)

  /** `trimStart`: a suffix of `s` that does not start with whitespace. */
  function TrimStart(s: string): (r: string)
    ensures |r| <= |s| && r == s[|s| - |r|..]
    ensures r == [] || !IsWhitespace(r[0])
  {
    if s != [] && IsWhitespace(s[0]) then TrimStart(s[1..]) else s
  }

  /** `trimStart` drops whitespace only. */
  lemma {:induction false} TrimStartDropsWhitespace(s: string)
    ensures forall i :: 0 <= i < |s| - |TrimStart(s)| ==> IsWhitespace(s[i])
  {
    if s != [] && IsWhitespace(s[0]) {
      TrimStartDropsWhitespace(s[1..]);
      assert forall i :: 1 <= i < |s| ==> s[i] == s[1..][i - 1];
    }
  }

  /** `trimEnd`: a prefix of `s` that does not end with whitespace. */
  function TrimEnd(s: string): (r: string)
    ensures |r| <= |s| && r == s[..|r|]
    ensures r == [] || !IsWhitespace(r[|r| - 1])
  {
    if s != [] && IsWhitespace(s[|s| - 1]) then TrimEnd(s[..|s| - 1]) else s
  }

  /** `trimEnd` drops whitespace only. */
  lemma {:induction false} TrimEndDropsWhitespace(s: string)
    ensures forall i :: |TrimEnd(s)| <= i < |s| ==> IsWhitespace(s[i])
  {
    if s != [] && IsWhitespace(s[|s| - 1]) {
      TrimEndDropsWhitespace(s[..|s| - 1]);
      assert forall i :: 0 <= i < |s| - 1 ==> s[i] == s[..|s| - 1][i];
    }
  }

  /** `trim`. */
  function Trim(s: string): string
  {
    TrimEnd(TrimStart(s))
  }

  /** No two neighbouring characters are both whitespace. */
  predicate NoWhitespaceRuns(t: string)
  {
    forall i :: 0 <= i < |t| - 1 ==> !(IsWhitespace(t[i]) && IsWhitespace(t[i + 1]))
  }

  /** Every whitespace character is a plain space. */
  predicate OnlySpaces(t: string)
  {
    forall i :: 0 <= i < |t| ==> IsWhitespace(t[i]) ==> t[i] == ' '
  }

  /** Neither end is whitespace. */
  predicate Trimmed(t: string)
  {
    t == [] || (!IsWhitespace(t[0]) && !IsWhitespace(t[|t| - 1]))
  }

  /** The non-whitespace characters of `s`, in order. */
  function VisibleChars(s: string): string
  {
    if s == [] then [] else (if IsWhitespace(s[0]) then [] else [s[0]]) + VisibleChars(s[1..])
  }

  /**
   * `s.replace(/\s+/g, ' ')`: every maximal run of whitespace becomes one
   * space.
   */
  function ReplaceWhitespaceRuns(s: string): (r: string)
    decreases |s|
  {
    if s == [] then []
    else if IsWhitespace(s[0]) then [' '] + ReplaceWhitespaceRuns(TrimStart(s))
    else [s[0]] + ReplaceWhitespaceRuns(s[1..])
  }

  /** The collapsed text starts with whitespace exactly when `s` does. */
  lemma ReplaceWhitespaceRunsFirst(s: string)
    requires s != []
    ensures ReplaceWhitespaceRuns(s) != []
    ensures IsWhitespace(ReplaceWhitespaceRuns(s)[0]) <==> IsWhitespace(s[0])
  {
  }

  /** The collapsed text has no whitespace other than single spaces. */
  lemma {:induction false} ReplaceWhitespaceRunsShape(s: string)
    ensures NoWhitespaceRuns(ReplaceWhitespaceRuns(s)) && OnlySpaces(ReplaceWhitespaceRuns(s))
    decreases |s|
  {
    if s != [] {
      var t := if IsWhitespace(s[0]) then TrimStart(s) else s[1..];
      var x := if IsWhitespace(s[0]) then ' ' else s[0];
      ReplaceWhitespaceRunsShape(t);
      var rt := ReplaceWhitespaceRuns(t);
      assert ReplaceWhitespaceRuns(s) == [x] + rt;
      if t != [] {
        ReplaceWhitespaceRunsFirst(t);
      }
      ConsNoRuns(x, rt);
      ConsOnlySpaces(x, rt);
    }
  }

  lemma ConsNoRuns(x: char, t: string)
    requires NoWhitespaceRuns(t)
    requires IsWhitespace(x) && t != [] ==> !IsWhitespace(t[0])
    ensures NoWhitespaceRuns([x] + t)
  {
    var r := [x] + t;
    forall i | 0 <= i < |r| - 1 ensures !(IsWhitespace(r[i]) && IsWhitespace(r[i + 1])) {
      if i > 0 { assert r[i] == t[i - 1] && r[i + 1] == t[i]; }
    }
  }

  lemma ConsOnlySpaces(x: char, t: string)
    requires OnlySpaces(t)
    requires IsWhitespace(x) ==> x == ' '
    ensures OnlySpaces([x] + t)
  {
    var r := [x] + t;
    forall i | 0 <= i < |r| ensures IsWhitespace(r[i]) ==> r[i] == ' ' {
      if i > 0 { assert r[i] == t[i - 1]; }
    }
  }

  /** Leading whitespace is invisible. */
  lemma {:induction false} VisibleTrimStart(s: string)
    ensures VisibleChars(TrimStart(s)) == VisibleChars(s)
  {
    if s != [] && IsWhitespace(s[0]) {
      VisibleTrimStart(s[1..]);
    }
  }

  /** Collapsing whitespace runs keeps every other character, in order. */
  lemma {:induction false} ReplaceWhitespaceRunsKeepsVisible(s: string)
    ensures VisibleChars(ReplaceWhitespaceRuns(s)) == VisibleChars(s)
    decreases |s|
  {
    if s != [] {
      var r := ReplaceWhitespaceRuns(s);
      if IsWhitespace(s[0]) {
        ReplaceWhitespaceRunsKeepsVisible(TrimStart(s));
        VisibleTrimStart(s);
        assert r[1..] == ReplaceWhitespaceRuns(TrimStart(s));
      } else {
        ReplaceWhitespaceRunsKeepsVisible(s[1..]);
        assert r[1..] == ReplaceWhitespaceRuns(s[1..]);
      }
    }
  }

  /** Single plain spaces stay single plain spaces after the first character. */
  lemma SingleSpacesTail(t: string)
    requires t != [] && NoWhitespaceRuns(t) && OnlySpaces(t)
    ensures NoWhitespaceRuns(t[1..]) && OnlySpaces(t[1..])
  {
    var tail := t[1..];
    forall i | 0 <= i < |tail| - 1 ensures !(IsWhitespace(tail[i]) && IsWhitespace(tail[i + 1])) {
      assert tail[i] == t[i + 1] && tail[i + 1] == t[i + 2];
    }
    forall i | 0 <= i < |tail| ensures IsWhitespace(tail[i]) ==> tail[i] == ' ' {
      assert tail[i] == t[i + 1];
    }
  }

  /** A single space is all `trimStart` removes from text without whitespace runs. */
  lemma SingleSpaceTrimStart(t: string)
    requires t != [] && IsWhitespace(t[0]) && NoWhitespaceRuns(t)
    ensures TrimStart(t) == t[1..]
  {
    var tail := t[1..];
    assert tail == [] || !IsWhitespace(tail[0]) by {
      if tail != [] {
        assert tail[0] == t[1];
      }
    }
    assert TrimStart(t) == TrimStart(tail);
  }

  /** Text that already has only single spaces is left as it is. */
  lemma {:induction false} ReplaceWhitespaceRunsFixpoint(t: string)
    requires NoWhitespaceRuns(t) && OnlySpaces(t)
    ensures ReplaceWhitespaceRuns(t) == t
    decreases |t|
  {
    if t != [] {
      SingleSpacesTail(t);
      ReplaceWhitespaceRunsFixpoint(t[1..]);
      if IsWhitespace(t[0]) {
        SingleSpaceTrimStart(t);
        assert t[0] == ' ';
      }
      assert ReplaceWhitespaceRuns(t) == [t[0]] + ReplaceWhitespaceRuns(t[1..]);
      assert t == [t[0]] + t[1..];
    }
  }

  /** The case folding of `normalizeText`: ASCII `toLowerCase` when asked for. */
  function Fold(text: string, options: Options): string
  {
    if options.ignoreCase then ToLower(text) else text
  }

  /** No ASCII upper-case letter occurs. */
  predicate NoUpper(t: string)
  {
    forall i :: 0 <= i < |t| ==> !IsUpper(t[i])
  }

  /**
   * `normalizeText`: case folding first, then, with `ignoreWhitespace`,
   * every whitespace run becomes one space and the ends are trimmed.
   */
  function NormalizeText(text: string, options: Options): (r: string)
    ensures !options.ignoreCase && !options.ignoreWhitespace ==> r == text
    ensures options.ignoreCase && !options.ignoreWhitespace ==> r == ToLower(text)
  {
    var folded := Fold(text, options);
    if options.ignoreWhitespace then Trim(ReplaceWhitespaceRuns(folded)) else folded
  }

  /**
   * The shape of a normalised text: with `ignoreWhitespace`, no whitespace at
   * either end, no two neighbouring whitespace characters and none but plain
   * spaces (so no '\n'); with `ignoreCase`, no upper-case letter.
   */
  predicate Normalized(r: string, options: Options)
  {
    (options.ignoreWhitespace ==> Trimmed(r) && NoWhitespaceRuns(r) && OnlySpaces(r) && '\n' !in r)
    && (options.ignoreCase ==> NoUpper(r))
  }

  /** A piece of text keeps the shape properties of the text it is cut from. */
  lemma SliceKeepsShape(c: string, a: nat, b: nat)
    requires a <= b <= |c|
    ensures NoWhitespaceRuns(c) ==> NoWhitespaceRuns(c[a..b])
    ensures OnlySpaces(c) ==> OnlySpaces(c[a..b])
    ensures NoUpper(c) ==> NoUpper(c[a..b])
  {
    var t := c[a..b];
    assert forall i :: 0 <= i < |t| ==> t[i] == c[a + i];
  }

  /** Trailing whitespace is invisible. */
  lemma {:induction false} VisibleTrimEnd(s: string)
    ensures VisibleChars(TrimEnd(s)) == VisibleChars(s)
  {
    if s != [] && IsWhitespace(s[|s| - 1]) {
      var init := s[..|s| - 1];
      VisibleTrimEnd(init);
      VisibleAppend(init, [s[|s| - 1]]);
      assert s == init + [s[|s| - 1]];
    }
  }

  lemma {:induction false} VisibleAppend(a: string, b: string)
    ensures VisibleChars(a + b) == VisibleChars(a) + VisibleChars(b)
  {
    if a == [] {
      assert a + b == b;
    } else {
      assert (a + b)[0] == a[0] && (a + b)[1..] == a[1..] + b;
      VisibleAppend(a[1..], b);
    }
  }

  /** `trim` cuts a piece out of the middle. */
  lemma TrimIsSlice(c: string) returns (a: nat, b: nat)
    ensures a <= b <= |c| && Trim(c) == c[a..b]
  {
    a := |c| - |TrimStart(c)|;
    TrimEndOfSuffix(c, a);
    b := a + |TrimEnd(c[a..])|;
  }

  lemma TrimEndOfSuffix(c: string, a: nat)
    requires a <= |c|
    ensures TrimEnd(c[a..]) == c[a..a + |TrimEnd(c[a..])|]
  {
    var s := c[a..];
    var t := TrimEnd(s);
    assert t == s[..|t|];
    SuffixPrefix(c, a, |t|);
  }

  lemma SuffixPrefix(c: string, a: nat, k: nat)
    requires a + k <= |c|
    ensures c[a..][..k] == c[a..a + k]
  {
  }

  /** `trim` leaves no whitespace at either end. */
  lemma TrimTrimmed(c: string)
    ensures Trimmed(Trim(c))
  {
    var s := TrimStart(c);
    var t := TrimEnd(s);
    if t != [] {
      assert t == s[..|t|];
      assert t[0] == s[0];
    }
  }

  /** `trim` keeps every visible character. */
  lemma TrimKeepsVisible(c: string)
    ensures VisibleChars(Trim(c)) == VisibleChars(c)
  {
    VisibleTrimStart(c);
    VisibleTrimEnd(TrimStart(c));
  }

  /** Collapsing whitespace introduces no upper-case letter. */
  lemma {:induction false} NoUpperSurvives(s: string)
    requires NoUpper(s)
    ensures NoUpper(ReplaceWhitespaceRuns(s))
    decreases |s|
  {
    if s != [] {
      var r := ReplaceWhitespaceRuns(s);
      if IsWhitespace(s[0]) {
        var t := TrimStart(s);
        SliceKeepsShape(s, |s| - |t|, |s|);
        NoUpperSurvives(t);
        assert r == [' '] + ReplaceWhitespaceRuns(t);
      } else {
        SliceKeepsShape(s, 1, |s|);
        NoUpperSurvives(s[1..]);
        assert r == [s[0]] + ReplaceWhitespaceRuns(s[1..]);
      }
    }
  }

  /**
   * Whatever the options, the result of `normalizeText` has the normalised
   * shape they ask for.
   */
  lemma NormalizeTextShape(text: string, options: Options)
    ensures Normalized(NormalizeText(text, options), options)
  {
    var folded := Fold(text, options);
    var r := NormalizeText(text, options);
    if options.ignoreWhitespace {
      assert r == Trim(ReplaceWhitespaceRuns(folded));
      CollapsedShape(folded);
      OnlySpacesHasNoNewline(r);
      if options.ignoreCase {
        CollapsedNoUpper(folded);
      }
    }
  }

  /** Collapsing and trimming leaves single spaces and clean ends. */
  lemma CollapsedShape(s: string)
    ensures Trimmed(Trim(ReplaceWhitespaceRuns(s)))
    ensures NoWhitespaceRuns(Trim(ReplaceWhitespaceRuns(s))) && OnlySpaces(Trim(ReplaceWhitespaceRuns(s)))
  {
    var c := ReplaceWhitespaceRuns(s);
    ReplaceWhitespaceRunsShape(s);
    TrimTrimmed(c);
    var a, b := TrimIsSlice(c);
    SliceKeepsShape(c, a, b);
  }

  /** Collapsing and trimming introduces no upper-case letter. */
  lemma CollapsedNoUpper(s: string)
    requires NoUpper(s)
    ensures NoUpper(Trim(ReplaceWhitespaceRuns(s)))
  {
    var c := ReplaceWhitespaceRuns(s);
    NoUpperSurvives(s);
    var a, b := TrimIsSlice(c);
    SliceKeepsShape(c, a, b);
  }

  lemma OnlySpacesHasNoNewline(t: string)
    requires OnlySpaces(t)
    ensures '\n' !in t
  {
    forall i | 0 <= i < |t| ensures t[i] != '\n' {
      assert IsWhitespace(t[i]) ==> t[i] == ' ';
    }
  }

  /** With `ignoreWhitespace`, the result keeps the visible characters of the folded input. */
  lemma NormalizeTextKeepsVisible(text: string, options: Options)
    ensures options.ignoreWhitespace ==> VisibleChars(NormalizeText(text, options)) == VisibleChars(Fold(text, options))
  {
    if options.ignoreWhitespace {
      var folded := Fold(text, options);
      ReplaceWhitespaceRunsKeepsVisible(folded);
      TrimKeepsVisible(ReplaceWhitespaceRuns(folded));
    }
  }

  /** `normalizeText` is idempotent for every combination of options. */
  lemma NormalizeTextIdempotent(text: string, options: Options)
    ensures NormalizeText(NormalizeText(text, options), options) == NormalizeText(text, options)
  {
    var n := NormalizeText(text, options);
    NormalizeTextShape(text, options);
    assert Normalized(n, options);
    var folded := Fold(n, options);
    if options.ignoreCase {
      assert folded == n;
    }
    if options.ignoreWhitespace {
      ReplaceWhitespaceRunsFixpoint(n);
      assert TrimStart(n) == n;
      assert TrimEnd(n) == n;
    }
  }

  // ---------------------------------------------------------------------
  // Normalisation as words joined by single spaces
  // ---------------------------------------------------------------------

  /** The words of `s`: its maximal runs of non-whitespace characters, in order. */
  function Words(s: string): (ws: seq<string>)
    ensures s != [] && !IsWhitespace(s[0]) ==> ws != []
  {
    if s == [] then []
    else if IsWhitespace(s[0]) then Words(s[1..])
    else
      var rest := Words(s[1..]);
      if |s| > 1 && !IsWhitespace(s[1]) then [[s[0]] + rest[0]] + rest[1..] else [[s[0]]] + rest
  }

  /** `words.join(' ')`. */
  function JoinWords(ws: seq<string>): string
  {
    if |ws| == 0 then [] else if |ws| == 1 then ws[0] else ws[0] + [' '] + JoinWords(ws[1..])
  }

  /** Every word is non-empty and holds no whitespace. */
  lemma {:induction false} WordsShape(s: string)
    ensures forall k :: 0 <= k < |Words(s)| ==> Words(s)[k] != []
    ensures forall k, i :: 0 <= k < |Words(s)| && 0 <= i < |Words(s)[k]| ==> !IsWhitespace(Words(s)[k][i])
  {
    if s != [] {
      WordsShape(s[1..]);
      var rest := Words(s[1..]);
      if !IsWhitespace(s[0]) && |s| > 1 && !IsWhitespace(s[1]) {
        var w := [s[0]] + rest[0];
        assert forall i :: 0 < i < |w| ==> w[i] == rest[0][i - 1];
      }
    }
  }

  /** Leading whitespace holds no word. */
  lemma {:induction false} WordsTrimStart(s: string)
    ensures Words(TrimStart(s)) == Words(s)
  {
    if s != [] && IsWhitespace(s[0]) {
      WordsTrimStart(s[1..]);
    }
  }

  /** A character in front of the first word joins it. */
  lemma JoinWordsCons(c: char, ws: seq<string>)
    requires ws != []
    ensures JoinWords([[c] + ws[0]] + ws[1..]) == [c] + JoinWords(ws)
  {
    var ws' := [[c] + ws[0]] + ws[1..];
    if |ws| > 1 {
      assert ws'[1..] == ws[1..];
      assert ([c] + ws[0]) + [' '] + JoinWords(ws[1..]) == [c] + (ws[0] + [' '] + JoinWords(ws[1..]));
    }
  }

  /** A word in front of further words is followed by one space. */
  lemma JoinWordsFront(w: string, ws: seq<string>)
    requires ws != []
    ensures JoinWords([w] + ws) == w + [' '] + JoinWords(ws)
  {
    assert ([w] + ws)[1..] == ws;
  }

  /** `trim` drops a leading space. */
  lemma TrimLeadingSpace(y: string)
    ensures Trim([' '] + y) == Trim(y)
  {
    assert ([' '] + y)[1..] == y;
  }

  /** Text starting with a visible character has something left after `trimEnd`. */
  lemma TrimEndNonEmpty(y: string)
    requires y != [] && !IsWhitespace(y[0])
    ensures TrimEnd(y) != []
  {
    TrimEndDropsWhitespace(y);
  }

  /** `trimEnd` leaves a prefix alone when the rest keeps something. */
  lemma {:induction false} TrimEndKeepsFront(a: string, y: string)
    requires TrimEnd(y) != []
    ensures TrimEnd(a + y) == a + TrimEnd(y)
    decreases |y|
  {
    var ay := a + y;
    if IsWhitespace(y[|y| - 1]) {
      var y' := y[..|y| - 1];
      assert ay[|ay| - 1] == y[|y| - 1];
      assert ay[..|ay| - 1] == a + y';
      TrimEndKeepsFront(a, y');
    } else {
      assert ay[|ay| - 1] == y[|y| - 1];
    }
  }

  /** Trimming text after a prefix that starts with a visible character keeps the prefix. */
  lemma TrimFront(a: string, y: string)
    requires a != [] && !IsWhitespace(a[0])
    requires y != [] && !IsWhitespace(y[0])
    ensures Trim(a + y) == a + Trim(y)
  {
    TrimEndNonEmpty(y);
    assert (a + y)[0] == a[0];
    assert TrimStart(a + y) == a + y;
    assert TrimStart(y) == y;
    TrimEndKeepsFront(a, y);
  }

  /** Collapsing and trimming text that starts with a visible character keeps it in front. */
  lemma TrimCollapsedFront(a: string, u: string)
    requires a != [] && !IsWhitespace(a[0])
    requires u != [] && !IsWhitespace(u[0])
    ensures Trim(a + ReplaceWhitespaceRuns(u)) == a + Trim(ReplaceWhitespaceRuns(u))
  {
    ReplaceWhitespaceRunsFirst(u);
    TrimFront(a, ReplaceWhitespaceRuns(u));
  }

  /** Two visible characters in a row: the first joins the first word. */
  lemma CollapsedWordsJoin(s: string)
    requires |s| > 1 && !IsWhitespace(s[0]) && !IsWhitespace(s[1])
    requires Trim(ReplaceWhitespaceRuns(s[1..])) == JoinWords(Words(s[1..]))
    ensures Trim(ReplaceWhitespaceRuns(s)) == JoinWords(Words(s))
  {
    assert ReplaceWhitespaceRuns(s) == [s[0]] + ReplaceWhitespaceRuns(s[1..]);
    TrimCollapsedFront([s[0]], s[1..]);
    JoinWordsCons(s[0], Words(s[1..]));
  }

  /** A visible character before whitespace: one space, then the rest. */
  lemma GapUnfold(s: string)
    requires |s| > 1 && !IsWhitespace(s[0]) && IsWhitespace(s[1])
    ensures ReplaceWhitespaceRuns(s) == [s[0], ' '] + ReplaceWhitespaceRuns(TrimStart(s[1..]))
    ensures Words(s) == [[s[0]]] + Words(TrimStart(s[1..]))
  {
    GapUnfoldRuns(s);
    GapUnfoldWords(s);
  }

  lemma GapUnfoldRuns(s: string)
    requires |s| > 1 && !IsWhitespace(s[0]) && IsWhitespace(s[1])
    ensures ReplaceWhitespaceRuns(s) == [s[0], ' '] + ReplaceWhitespaceRuns(TrimStart(s[1..]))
  {
    var t := s[1..];
    var rest := ReplaceWhitespaceRuns(TrimStart(t));
    assert t[0] == s[1];
    assert ReplaceWhitespaceRuns(t) == [' '] + rest;
    assert ReplaceWhitespaceRuns(s) == [s[0]] + ReplaceWhitespaceRuns(t);
    assert [s[0]] + ([' '] + rest) == [s[0], ' '] + rest;
  }

  lemma GapUnfoldWords(s: string)
    requires |s| > 1 && !IsWhitespace(s[0]) && IsWhitespace(s[1])
    ensures Words(s) == [[s[0]]] + Words(TrimStart(s[1..]))
  {
    assert Words(s) == [[s[0]]] + Words(s[1..]);
    WordsTrimStart(s[1..]);
  }

  /** A visible character followed by one space trims to itself. */
  lemma TrimTrailingSpace(c: char)
    requires !IsWhitespace(c)
    ensures Trim([c, ' ']) == [c]
  {
    assert IsWhitespace(' ');
    assert TrimStart([c, ' ']) == [c, ' '];
    assert [c, ' '][..1] == [c];
    assert TrimEnd([c]) == [c];
  }

  /** A visible character before whitespace ends a word. */
  lemma CollapsedWordsGap(s: string)
    requires |s| > 1 && !IsWhitespace(s[0]) && IsWhitespace(s[1])
    requires Trim(ReplaceWhitespaceRuns(TrimStart(s[1..]))) == JoinWords(Words(TrimStart(s[1..])))
    ensures Trim(ReplaceWhitespaceRuns(s)) == JoinWords(Words(s))
  {
    GapUnfold(s);
    CollapsedWordsAfterGap(s[0], TrimStart(s[1..]));
  }

  /** One visible character, one space, then collapsed text that starts with no whitespace. */
  lemma CollapsedWordsAfterGap(c: char, u: string)
    requires !IsWhitespace(c) && (u == [] || !IsWhitespace(u[0]))
    requires Trim(ReplaceWhitespaceRuns(u)) == JoinWords(Words(u))
    ensures Trim([c, ' '] + ReplaceWhitespaceRuns(u)) == JoinWords([[c]] + Words(u))
  {
    if u == [] {
      AfterGapEnd(c);
    } else {
      AfterGapMore(c, u);
    }
  }

  lemma AfterGapEnd(c: char)
    requires !IsWhitespace(c)
    ensures Trim([c, ' '] + ReplaceWhitespaceRuns([])) == JoinWords([[c]] + Words([]))
  {
    assert [c, ' '] + ReplaceWhitespaceRuns([]) == [c, ' '];
    assert [[c]] + Words([]) == [[c]];
    TrimTrailingSpace(c);
  }

  lemma AfterGapMore(c: char, u: string)
    requires !IsWhitespace(c) && u != [] && !IsWhitespace(u[0])
    requires Trim(ReplaceWhitespaceRuns(u)) == JoinWords(Words(u))
    ensures Trim([c, ' '] + ReplaceWhitespaceRuns(u)) == JoinWords([[c]] + Words(u))
  {
    ReplaceWhitespaceRunsFirst(u);
    SpaceBeforeWords(c, ReplaceWhitespaceRuns(u), Words(u));
  }

  /** A word and a space in front of text that trims to `ws` joined. */
  lemma SpaceBeforeWords(c: char, r: string, ws: seq<string>)
    requires !IsWhitespace(c) && r != [] && !IsWhitespace(r[0]) && ws != []
    requires Trim(r) == JoinWords(ws)
    ensures Trim([c, ' '] + r) == JoinWords([[c]] + ws)
  {
    TrimFront([c, ' '], r);
    JoinWordsFront([c], ws);
    assert [c] + [' '] + JoinWords(ws) == [c, ' '] + JoinWords(ws);
  }

  /** Leading whitespace collapses to one space, which the trim drops; the words skip it too. */
  lemma CollapsedWordsLead(s: string)
    requires s != [] && IsWhitespace(s[0])
    requires Trim(ReplaceWhitespaceRuns(TrimStart(s))) == JoinWords(Words(TrimStart(s)))
    ensures Trim(ReplaceWhitespaceRuns(s)) == JoinWords(Words(s))
  {
    var t := TrimStart(s);
    var rest := ReplaceWhitespaceRuns(t);
    assert ReplaceWhitespaceRuns(s) == [' '] + rest;
    TrimLeadingSpace(rest);
    WordsTrimStart(s);
  }

  /** One visible character is its own single word. */
  lemma CollapsedWordsSingle(s: string)
    requires |s| == 1 && !IsWhitespace(s[0])
    ensures Trim(ReplaceWhitespaceRuns(s)) == JoinWords(Words(s))
  {
    assert s[1..] == [] && [s[0]] == s;
    assert ReplaceWhitespaceRuns(s) == [s[0]] + ReplaceWhitespaceRuns(s[1..]);
    assert Words(s) == [[s[0]]] + Words(s[1..]);
  }

  /** Collapsing whitespace runs and trimming joins the words of the text with single spaces. */
  lemma {:induction false} CollapsedWords(s: string)
    ensures Trim(ReplaceWhitespaceRuns(s)) == JoinWords(Words(s))
    decreases |s|
  {
    if s != [] {
      if IsWhitespace(s[0]) {
        CollapsedWords(TrimStart(s));
        CollapsedWordsLead(s);
      } else if |s| == 1 {
        CollapsedWordsSingle(s);
      } else if !IsWhitespace(s[1]) {
        CollapsedWords(s[1..]);
        CollapsedWordsJoin(s);
      } else {
        CollapsedWords(TrimStart(s[1..]));
        CollapsedWordsGap(s);
      }
    }
  }

  lemma WordsExample()
    ensures Words(" ab  c ") == ["ab", "c"]
    ensures JoinWords(["ab", "c"]) == "ab c"
  {
    assert IsWhitespace(' ') && !IsWhitespace('a') && !IsWhitespace('b') && !IsWhitespace('c');
    assert Words(" ") == [];
    assert Words("c ") == ["c"];
    assert Words(" c ") == ["c"];
    assert Words("  c ") == ["c"];
    assert Words("b  c ") == ["b", "c"];
    assert "ab  c "[1..] == "b  c ";
    assert ['a'] + "b" == "ab";
    assert Words("ab  c ") == ["ab", "c"];
    assert " ab  c "[1..] == "ab  c ";
  }

  /**
   * With `ignoreWhitespace`, `normalizeText` gives the words of the
   * case-folded text joined by single spaces.
   */
  lemma NormalizeTextWords(text: string, options: Options)
    ensures options.ignoreWhitespace ==> NormalizeText(text, options) == JoinWords(Words(Fold(text, options)))
  {
    CollapsedWords(Fold(text, options));
  }

  /** Whitespace-free text in front of a collapse passes through unchanged. */
  lemma {:induction false} ReplaceWhitespaceRunsWordFirst(w: string, x: string)
    requires forall i :: 0 <= i < |w| ==> !IsWhitespace(w[i])
    ensures ReplaceWhitespaceRuns(w + x) == w + ReplaceWhitespaceRuns(x)
  {
    if w == [] {
      assert w + x == x;
    } else {
      assert (w + x)[0] == w[0] && (w + x)[1..] == w[1..] + x;
      ReplaceWhitespaceRunsWordFirst(w[1..], x);
    }
  }

  /** A whitespace run in front of a word is exactly what `trimStart` drops. */
  lemma {:induction false} TrimStartGap(gap: string, w: string)
    requires forall i :: 0 <= i < |gap| ==> IsWhitespace(gap[i])
    requires w == [] || !IsWhitespace(w[0])
    ensures TrimStart(gap + w) == w
  {
    if gap == [] {
      assert gap + w == w;
    } else {
      assert (gap + w)[0] == gap[0] && (gap + w)[1..] == gap[1..] + w;
      TrimStartGap(gap[1..], w);
    }
  }

  /** A word has nothing to collapse. */
  lemma WordKept(w: string)
    requires forall i :: 0 <= i < |w| ==> !IsWhitespace(w[i])
    ensures ReplaceWhitespaceRuns(w) == w
  {
    ReplaceWhitespaceRunsWordFirst(w, []);
    assert w + [] == w;
  }

  /** A whitespace run in front of a word becomes one space. */
  lemma GapCollapses(gap: string, w: string)
    requires gap != [] && forall i :: 0 <= i < |gap| ==> IsWhitespace(gap[i])
    requires forall i :: 0 <= i < |w| ==> !IsWhitespace(w[i])
    ensures ReplaceWhitespaceRuns(gap + w) == [' '] + w
  {
    assert (gap + w)[0] == gap[0];
    TrimStartGap(gap, w);
    WordKept(w);
  }

  /** Between two words, a whitespace run of any length becomes one space. */
  lemma WordsCollapse(u: string, gap: string, w: string)
    requires forall i :: 0 <= i < |u| ==> !IsWhitespace(u[i])
    requires gap != [] && forall i :: 0 <= i < |gap| ==> IsWhitespace(gap[i])
    requires forall i :: 0 <= i < |w| ==> !IsWhitespace(w[i])
    ensures ReplaceWhitespaceRuns(u + gap + w) == u + [' '] + w
  {
    assert u + gap + w == u + (gap + w);
    ReplaceWhitespaceRunsWordFirst(u, gap + w);
    GapCollapses(gap, w);
    assert u + ([' '] + w) == u + [' '] + w;
  }

  lemma HelloWorldCollapses()
    ensures ReplaceWhitespaceRuns("hello" + "  " + "world") == "hello world"
    ensures ReplaceWhitespaceRuns("hello" + " " + "world") == "hello world"
  {
    WordsCollapse("hello", "  ", "world");
    WordsCollapse("hello", " ", "world");
  }

  lemma HelloWorldTrimmed()
    ensures Trim("hello world") == "hello world"
  {
    assert !IsWhitespace('h') && !IsWhitespace('d');
  }

  lemma HelloWorldFolded()
    ensures Fold("Hello  World", Options(true, true)) == "hello" + "  " + "world"
  {
  }

  lemma HelloWorldFoldedAgain()
    ensures Fold("hello world", Options(true, true)) == "hello" + " " + "world"
  {
  }

  lemma NormalizeMixedCase()
    ensures NormalizeText("Hello  World", Options(true, true)) == "hello world"
  {
    HelloWorldFolded();
    HelloWorldCollapses();
    HelloWorldTrimmed();
    assert ReplaceWhitespaceRuns(Fold("Hello  World", Options(true, true))) == "hello world";
  }

  lemma NormalizeLowerCase()
    ensures NormalizeText("hello world", Options(true, true)) == "hello world"
  {
    HelloWorldFoldedAgain();
    HelloWorldCollapses();
    HelloWorldTrimmed();
    assert ReplaceWhitespaceRuns(Fold("hello world", Options(true, true))) == "hello world";
  }

  /** Case and spacing differences vanish under both options. */
  lemma NormalizeTextExample()
    ensures NormalizeText("Hello  World", Options(true, true)) == NormalizeText("hello world", Options(true, true))
  {
    NormalizeMixedCase();
    NormalizeLowerCase();
  }

  // ---------------------------------------------------------------------
  // Line alignment
  // ---------------------------------------------------------------------

  /**
   * The number of lines an edit spans, as `generateLineMap` counts them:
   * the pieces of `text.split('\n')`, less a trailing empty piece. That is
   * one per newline, plus one for a non-empty unterminated last line.
   */
  function LineCount(text: string): (n: nat)
    ensures n == Count(text, '\n') + (if text != [] && text[|text| - 1] != '\n' then 1 else 0)
  {
    var lines := Split(text);
    SplitShape(text);
    SplitLastEmpty(text);
    |lines| - (if lines[|lines| - 1] == [] then 1 else 0)
  }

  /** How far an edit moves the left cursor: its line count unless it is an Insert. */
  function LeftAdvance(e: Edit): nat
  {
    if e.op != Insert then LineCount(e.text) else 0
  }

  /** How far an edit moves the right cursor: its line count unless it is a Delete. */
  function RightAdvance(e: Edit): nat
  {
    if e.op != Delete then LineCount(e.text) else 0
  }

  /** Where the left cursor ends: the line counts of the Delete and Equal edits. */
  function LeftLines(edits: seq<Edit>): nat
  {
    if edits == [] then 0 else LeftAdvance(edits[0]) + LeftLines(edits[1..])
  }

  /** Where the right cursor ends: the line counts of the Equal and Insert edits. */
  function RightLines(edits: seq<Edit>): nat
  {
    if edits == [] then 0 else RightAdvance(edits[0]) + RightLines(edits[1..])
  }

  /** The two maps of a line alignment, from 0-based line to 0-based line. */
  datatype LineMap = LineMap(left: map<nat, nat>, right: map<nat, nat>)

  /**
   * `m` after the entries `from -> to`, `from + 1 -> to`, ..., one for each
   * of `n` lines, are set in that order: a deleted or inserted run.
   */
  function RunInto(m: map<nat, nat>, from: nat, to: nat, n: nat): map<nat, nat>
    decreases n
  {
    if n == 0 then m else RunInto(m[from := to], from + 1, to, n - 1)
  }

  /**
   * `m` after the entries `from -> to`, `from + 1 -> to + 1`, ..., one for
   * each of `n` lines, are set in that order: an unchanged run.
   */
  function ShiftInto(m: map<nat, nat>, from: nat, to: nat, n: nat): map<nat, nat>
    decreases n
  {
    if n == 0 then m else ShiftInto(m[from := to], from + 1, to + 1, n - 1)
  }

  /**
   * The maps after one edit is applied with the cursors at `l` and `r`: an
   * Equal edit of n lines pairs the next n lines of both sides, a Delete
   * sends its n left lines to the current right line and an Insert its n
   * right lines to the current left line.
   */
  function Step(e: Edit, l: nat, r: nat, maps: LineMap): LineMap
  {
    var n := LineCount(e.text);
    match e.op
    case Delete => LineMap(RunInto(maps.left, l, r, n), maps.right)
    case Equal => LineMap(ShiftInto(maps.left, l, r, n), ShiftInto(maps.right, r, l, n))
    case Insert => LineMap(maps.left, RunInto(maps.right, r, l, n))
  }

  /**
   * The maps `generateLineMap` holds after the `edits` are applied to
   * `maps` with its cursors at `l` (left) and `r` (right). The source starts
   * from empty maps and both cursors at 0. Later entries overwrite earlier
   * ones, as later `Map.set` calls do.
   */
  function Fill(edits: seq<Edit>, l: nat, r: nat, maps: LineMap): LineMap
    decreases |edits|
  {
    if edits == [] then maps
    else Fill(edits[1..], l + LeftAdvance(edits[0]), r + RightAdvance(edits[0]), Step(edits[0], l, r, maps))
  }

  /** The alignment of a whole script: `Fill` from empty maps and line 0 on both sides. */
  function MapsOf(edits: seq<Edit>): LineMap
  {
    Fill(edits, 0, 0, LineMap(map[], map[]))
  }

  lemma {:induction false} RunIntoEntries(m: map<nat, nat>, from: nat, to: nat, n: nat)
    ensures forall k :: k in RunInto(m, from, to, n) <==> k in m || from <= k < from + n
    ensures forall k :: k in RunInto(m, from, to, n) ==> RunInto(m, from, to, n)[k] == if from <= k < from + n then to else m[k]
    decreases n
  {
    if n > 0 {
      var m1 := m[from := to];
      RunIntoEntries(m1, from + 1, to, n - 1);
      var m' := RunInto(m, from, to, n);
      assert m' == RunInto(m1, from + 1, to, n - 1);
    }
  }

  lemma {:induction false} ShiftIntoEntries(m: map<nat, nat>, from: nat, to: nat, n: nat)
    ensures forall k :: k in ShiftInto(m, from, to, n) <==> k in m || from <= k < from + n
    ensures forall k :: k in ShiftInto(m, from, to, n) ==> ShiftInto(m, from, to, n)[k] == if from <= k < from + n then to + (k - from) else m[k]
    decreases n
  {
    if n > 0 {
      var m1 := m[from := to];
      ShiftIntoEntries(m1, from + 1, to + 1, n - 1);
      var m' := ShiftInto(m, from, to, n);
      assert m' == ShiftInto(m1, from + 1, to + 1, n - 1);
    }
  }

  /**
   * A map filled up to cursor `l` against the other side's cursor `r`: every
   * key lies below `l`, no value exceeds `r`, and values never decrease as
   * keys grow.
   */
  predicate Aligned(m: map<nat, nat>, l: nat, r: nat)
  {
    (forall k :: k in m ==> k < l && m[k] <= r)
    && (forall a, b :: a in m && b in m && a <= b ==> m[a] <= m[b])
  }

  lemma StepAligned(e: Edit, l: nat, r: nat, maps: LineMap)
    requires Aligned(maps.left, l, r) && Aligned(maps.right, r, l)
    ensures Aligned(Step(e, l, r, maps).left, l + LeftAdvance(e), r + RightAdvance(e))
    ensures Aligned(Step(e, l, r, maps).right, r + RightAdvance(e), l + LeftAdvance(e))
  {
    var n := LineCount(e.text);
    RunIntoEntries(maps.left, l, r, n);
    RunIntoEntries(maps.right, r, l, n);
    ShiftIntoEntries(maps.left, l, r, n);
    ShiftIntoEntries(maps.right, r, l, n);
  }

  lemma StepKeys(e: Edit, l: nat, r: nat, maps: LineMap)
    ensures forall k :: k in Step(e, l, r, maps).left <==> k in maps.left || l <= k < l + LeftAdvance(e)
    ensures forall k :: k in Step(e, l, r, maps).right <==> k in maps.right || r <= k < r + RightAdvance(e)
  {
    var n := LineCount(e.text);
    match e.op
    case Delete =>
      assert Step(e, l, r, maps) == LineMap(RunInto(maps.left, l, r, n), maps.right);
      RunIntoEntries(maps.left, l, r, n);
    case Equal =>
      assert Step(e, l, r, maps) == LineMap(ShiftInto(maps.left, l, r, n), ShiftInto(maps.right, r, l, n));
      ShiftIntoEntries(maps.left, l, r, n);
      ShiftIntoEntries(maps.right, r, l, n);
    case Insert =>
      assert Step(e, l, r, maps) == LineMap(maps.left, RunInto(maps.right, r, l, n));
      RunIntoEntries(maps.right, r, l, n);
  }

  /** The keys `Fill` adds are exactly the lines the cursors pass over. */
  lemma {:induction false} FillKeys(edits: seq<Edit>, l: nat, r: nat, maps: LineMap)
    ensures forall k :: k in Fill(edits, l, r, maps).left <==> k in maps.left || l <= k < l + LeftLines(edits)
    ensures forall k :: k in Fill(edits, l, r, maps).right <==> k in maps.right || r <= k < r + RightLines(edits)
    decreases |edits|
  {
    if edits != [] {
      var e := edits[0];
      var l', r' := l + LeftAdvance(e), r + RightAdvance(e);
      StepKeys(e, l, r, maps);
      FillKeys(edits[1..], l', r', Step(e, l, r, maps));
      assert Fill(edits, l, r, maps) == Fill(edits[1..], l', r', Step(e, l, r, maps));
      assert l + LeftLines(edits) == l' + LeftLines(edits[1..]);
      assert r + RightLines(edits) == r' + RightLines(edits[1..]);
    }
  }

  /** `Fill` keeps both maps aligned with the cursors. */
  lemma {:induction false} FillAligned(edits: seq<Edit>, l: nat, r: nat, maps: LineMap)
    requires Aligned(maps.left, l, r) && Aligned(maps.right, r, l)
    ensures Aligned(Fill(edits, l, r, maps).left, l + LeftLines(edits), r + RightLines(edits))
    ensures Aligned(Fill(edits, l, r, maps).right, r + RightLines(edits), l + LeftLines(edits))
    decreases |edits|
  {
    if edits != [] {
      var e := edits[0];
      var l', r' := l + LeftAdvance(e), r + RightAdvance(e);
      StepAligned(e, l, r, maps);
      FillAligned(edits[1..], l', r', Step(e, l, r, maps));
      assert Fill(edits, l, r, maps) == Fill(edits[1..], l', r', Step(e, l, r, maps));
      assert l + LeftLines(edits) == l' + LeftLines(edits[1..]);
      assert r + RightLines(edits) == r' + RightLines(edits[1..]);
    }
  }

  /** Every key of `m` lies below the cursor `c`. */
  predicate KeysBelow(m: map<nat, nat>, c: nat)
  {
    forall k :: k in m ==> k < c
  }

  /** Every entry of `m` is still in `m'`, with the same value. */
  predicate Keeps(m: map<nat, nat>, m': map<nat, nat>)
  {
    forall k :: k in m ==> k in m' && m'[k] == m[k]
  }

  /**
   * `m` holds the entries of a run of `count` lines from `from`: all sent to
   * `to` for a Delete or an Insert, paired off from `to` on for an Equal.
   */
  predicate Wrote(m: map<nat, nat>, op: Op, from: nat, to: nat, count: nat)
  {
    forall k :: from <= k < from + count ==> k in m && m[k] == if op == Equal then to + (k - from) else to
  }

  /** One edit leaves an entry below its side's cursor as it was. */
  lemma StepKeepsKey(e: Edit, l: nat, r: nat, maps: LineMap, k: nat)
    ensures k in maps.left && k < l ==> k in Step(e, l, r, maps).left && Step(e, l, r, maps).left[k] == maps.left[k]
    ensures k in maps.right && k < r ==> k in Step(e, l, r, maps).right && Step(e, l, r, maps).right[k] == maps.right[k]
  {
    var n := LineCount(e.text);
    RunIntoEntries(maps.left, l, r, n);
    RunIntoEntries(maps.right, r, l, n);
    ShiftIntoEntries(maps.left, l, r, n);
    ShiftIntoEntries(maps.right, r, l, n);
  }

  /**
   * What one edit writes: its left lines go to the right cursor (Delete) or
   * pair off with the right lines from it (Equal), and its right lines go to
   * the left cursor (Insert) or pair off with the left lines (Equal).
   */
  lemma StepWritesKey(e: Edit, l: nat, r: nat, maps: LineMap, k: nat)
    ensures l <= k < l + LeftAdvance(e) ==>
      k in Step(e, l, r, maps).left && Step(e, l, r, maps).left[k] == if e.op == Equal then r + (k - l) else r
    ensures r <= k < r + RightAdvance(e) ==>
      k in Step(e, l, r, maps).right && Step(e, l, r, maps).right[k] == if e.op == Equal then l + (k - r) else l
  {
    var n := LineCount(e.text);
    RunIntoEntries(maps.left, l, r, n);
    RunIntoEntries(maps.right, r, l, n);
    ShiftIntoEntries(maps.left, l, r, n);
    ShiftIntoEntries(maps.right, r, l, n);
  }

  /** An entry below its side's cursor keeps its value through the rest of the script. */
  lemma FillKeepsKey(edits: seq<Edit>, l: nat, r: nat, maps: LineMap, k: nat)
    ensures k in maps.left && k < l ==> k in Fill(edits, l, r, maps).left && Fill(edits, l, r, maps).left[k] == maps.left[k]
    ensures k in maps.right && k < r ==> k in Fill(edits, l, r, maps).right && Fill(edits, l, r, maps).right[k] == maps.right[k]
  {
    if k in maps.left && k < l {
      FillKeepsLeft(edits, l, r, maps, k);
    }
    if k in maps.right && k < r {
      FillKeepsRight(edits, l, r, maps, k);
    }
  }

  lemma {:induction false} FillKeepsLeft(edits: seq<Edit>, l: nat, r: nat, maps: LineMap, k: nat)
    requires k in maps.left && k < l
    ensures k in Fill(edits, l, r, maps).left && Fill(edits, l, r, maps).left[k] == maps.left[k]
    decreases |edits|
  {
    if edits != [] {
      var e := edits[0];
      var maps' := Step(e, l, r, maps);
      var l', r' := l + LeftAdvance(e), r + RightAdvance(e);
      assert Fill(edits, l, r, maps) == Fill(edits[1..], l', r', maps');
      StepKeepsKey(e, l, r, maps, k);
      FillKeepsLeft(edits[1..], l', r', maps', k);
    }
  }

  lemma {:induction false} FillKeepsRight(edits: seq<Edit>, l: nat, r: nat, maps: LineMap, k: nat)
    requires k in maps.right && k < r
    ensures k in Fill(edits, l, r, maps).right && Fill(edits, l, r, maps).right[k] == maps.right[k]
    decreases |edits|
  {
    if edits != [] {
      var e := edits[0];
      var maps' := Step(e, l, r, maps);
      var l', r' := l + LeftAdvance(e), r + RightAdvance(e);
      assert Fill(edits, l, r, maps) == Fill(edits[1..], l', r', maps');
      StepKeepsKey(e, l, r, maps, k);
      FillKeepsRight(edits[1..], l', r', maps', k);
    }
  }

  /** No key is written twice: every entry below the cursors keeps its value through the rest of the script. */
  lemma FillKeeps(edits: seq<Edit>, l: nat, r: nat, maps: LineMap)
    requires KeysBelow(maps.left, l) && KeysBelow(maps.right, r)
    ensures Keeps(maps.left, Fill(edits, l, r, maps).left) && Keeps(maps.right, Fill(edits, l, r, maps).right)
  {
    forall k: nat {
      FillKeepsKey(edits, l, r, maps, k);
    }
  }

  /** The cursors before the edit at `d + 1`: those before the edit at `d` of the tail, moved by the first edit. */
  lemma PrefixLines(edits: seq<Edit>, d: nat)
    requires 0 < d <= |edits|
    ensures LeftLines(edits[..d]) == LeftAdvance(edits[0]) + LeftLines(edits[1..][..d - 1])
    ensures RightLines(edits[..d]) == RightAdvance(edits[0]) + RightLines(edits[1..][..d - 1])
  {
    assert edits[..d][0] == edits[0] && edits[..d][1..] == edits[1..][..d - 1];
  }

  /**
   * A line the edit at position `d` covers, with the cursors where the edits
   * before it leave them, ends with the value that edit wrote.
   */
  lemma {:induction false} FillWritesKey(edits: seq<Edit>, d: nat, l: nat, r: nat, maps: LineMap, k: nat)
    requires d < |edits|
    ensures l + LeftLines(edits[..d]) <= k < l + LeftLines(edits[..d]) + LeftAdvance(edits[d]) ==>
      k in Fill(edits, l, r, maps).left
      && Fill(edits, l, r, maps).left[k]
         == if edits[d].op == Equal then r + RightLines(edits[..d]) + (k - l - LeftLines(edits[..d])) else r + RightLines(edits[..d])
    ensures r + RightLines(edits[..d]) <= k < r + RightLines(edits[..d]) + RightAdvance(edits[d]) ==>
      k in Fill(edits, l, r, maps).right
      && Fill(edits, l, r, maps).right[k]
         == if edits[d].op == Equal then l + LeftLines(edits[..d]) + (k - r - RightLines(edits[..d])) else l + LeftLines(edits[..d])
    decreases d
  {
    var e := edits[0];
    var l', r' := l + LeftAdvance(e), r + RightAdvance(e);
    var maps' := Step(e, l, r, maps);
    assert Fill(edits, l, r, maps) == Fill(edits[1..], l', r', maps');
    if d == 0 {
      assert edits[..d] == [];
      StepWritesKey(e, l, r, maps, k);
      FillKeepsKey(edits[1..], l', r', maps', k);
    } else {
      PrefixLines(edits, d);
      assert edits[1..][d - 1] == edits[d];
      FillWritesKey(edits[1..], d - 1, l', r', maps', k);
    }
  }

  /** The entries the edit at position `d` writes are the ones `Fill` ends with. */
  lemma FillWrites(edits: seq<Edit>, d: nat, l: nat, r: nat, maps: LineMap)
    requires d < |edits|
    ensures Wrote(Fill(edits, l, r, maps).left, edits[d].op,
                  l + LeftLines(edits[..d]), r + RightLines(edits[..d]), LeftAdvance(edits[d]))
    ensures Wrote(Fill(edits, l, r, maps).right, edits[d].op,
                  r + RightLines(edits[..d]), l + LeftLines(edits[..d]), RightAdvance(edits[d]))
  {
    forall k: nat {
      FillWritesKey(edits, d, l, r, maps, k);
    }
  }

  /**
   * The left map of a script has exactly the keys 0 .. L-1, where L counts
   * the lines of its Delete and Equal edits; its values never decrease and
   * never pass the final right cursor. Each left line ends with the value
   * the edit covering it wrote. The right map is the mirror image.
   */
  lemma LineMapShape(edits: seq<Edit>)
    ensures forall k: nat :: k in MapsOf(edits).left <==> k < LeftLines(edits)
    ensures forall k: nat :: k in MapsOf(edits).right <==> k < RightLines(edits)
    ensures Aligned(MapsOf(edits).left, LeftLines(edits), RightLines(edits))
    ensures Aligned(MapsOf(edits).right, RightLines(edits), LeftLines(edits))
    ensures forall d :: 0 <= d < |edits| ==>
      Wrote(MapsOf(edits).left, edits[d].op, LeftLines(edits[..d]), RightLines(edits[..d]), LeftAdvance(edits[d]))
      && Wrote(MapsOf(edits).right, edits[d].op, RightLines(edits[..d]), LeftLines(edits[..d]), RightAdvance(edits[d]))
  {
    var empty: map<nat, nat> := map[];
    assert Aligned(empty, 0, 0);
    FillKeys(edits, 0, 0, LineMap(map[], map[]));
    FillAligned(edits, 0, 0, LineMap(map[], map[]));
    LineMapEntries(edits);
  }

  /** Each edit's entries, written with the cursors the edits before it leave, survive to the end. */
  lemma LineMapEntries(edits: seq<Edit>)
    ensures forall d :: 0 <= d < |edits| ==>
      Wrote(MapsOf(edits).left, edits[d].op, LeftLines(edits[..d]), RightLines(edits[..d]), LeftAdvance(edits[d]))
      && Wrote(MapsOf(edits).right, edits[d].op, RightLines(edits[..d]), LeftLines(edits[..d]), RightAdvance(edits[d]))
  {
    forall d | 0 <= d < |edits|
      ensures Wrote(MapsOf(edits).left, edits[d].op, LeftLines(edits[..d]), RightLines(edits[..d]), LeftAdvance(edits[d]))
      ensures Wrote(MapsOf(edits).right, edits[d].op, RightLines(edits[..d]), LeftLines(edits[..d]), RightAdvance(edits[d]))
    {
      FillWrites(edits, d, 0, 0, LineMap(map[], map[]));
    }
  }

  /** Every key is sent to itself. */
  predicate Identity(m: map<nat, nat>)
  {
    forall k :: k in m ==> m[k] == k
  }

  predicate AllEqual(edits: seq<Edit>)
  {
    forall i :: 0 <= i < |edits| ==> edits[i].op == Equal
  }

  lemma StepIdentity(e: Edit, l: nat, maps: LineMap)
    requires e.op == Equal && Identity(maps.left) && Identity(maps.right)
    ensures Identity(Step(e, l, l, maps).left) && Identity(Step(e, l, l, maps).right)
  {
    ShiftIntoEntries(maps.left, l, l, LineCount(e.text));
    ShiftIntoEntries(maps.right, l, l, LineCount(e.text));
  }

  lemma {:induction false} FillIdentity(edits: seq<Edit>, l: nat, maps: LineMap)
    requires AllEqual(edits) && Identity(maps.left) && Identity(maps.right)
    ensures LeftLines(edits) == RightLines(edits)
    ensures Identity(Fill(edits, l, l, maps).left) && Identity(Fill(edits, l, l, maps).right)
    decreases |edits|
  {
    if edits != [] {
      var e := edits[0];
      assert e.op == Equal;
      assert forall i :: 0 <= i < |edits| - 1 ==> edits[1..][i] == edits[i + 1];
      StepIdentity(e, l, maps);
      FillIdentity(edits[1..], l + LineCount(e.text), Step(e, l, l, maps));
    }
  }

  /** A script with no changes aligns every line with itself, on both sides. */
  lemma UnchangedLineMap(edits: seq<Edit>)
    requires AllEqual(edits)
    ensures LeftLines(edits) == RightLines(edits)
    ensures Identity(MapsOf(edits).left) && Identity(MapsOf(edits).right)
  {
    FillIdentity(edits, 0, LineMap(map[], map[]));
  }

  /** One step of `Fill`, read at position `d` of the script. */
  lemma FillAt(diffs: seq<Edit>, d: nat, l: nat, r: nat, maps: LineMap)
    requires d < |diffs|
    ensures Fill(diffs[d..], l, r, maps)
      == Fill(diffs[d + 1..], l + LeftAdvance(diffs[d]), r + RightAdvance(diffs[d]), Step(diffs[d], l, r, maps))
  {
    assert diffs[d..][0] == diffs[d] && diffs[d..][1..] == diffs[d + 1..];
  }

  /** `Fill` after one more edit, with the cursors and maps that edit leaves. */
  lemma FillNext(diffs: seq<Edit>, d: nat, l: nat, r: nat, maps: LineMap, l': nat, r': nat, maps': LineMap)
    requires d < |diffs| && maps' == Step(diffs[d], l, r, maps)
    requires l' == l + LeftAdvance(diffs[d]) && r' == r + RightAdvance(diffs[d])
    ensures Fill(diffs[d + 1..], l', r', maps') == Fill(diffs[d..], l, r, maps)
  {
    FillAt(diffs, d, l, r, maps);
  }

  /** The inner loop of a deleted or inserted run: `n` lines from `from` on, all set to `to`. */
  method SetRun(m: map<nat, nat>, from: nat, to: nat, n: nat) returns (m': map<nat, nat>)
    ensures m' == RunInto(m, from, to, n)
  {
    m' := m;
    for i := 0 to n
      invariant RunInto(m', from + i, to, n - i) == RunInto(m, from, to, n)
    {
      m' := m'[from + i := to];
    }
  }

  /** The inner loop of an unchanged run: line `from + i` set to `to + i` for each i < n. */
  method SetShifted(m: map<nat, nat>, from: nat, to: nat, n: nat) returns (m': map<nat, nat>)
    ensures m' == ShiftInto(m, from, to, n)
  {
    m' := m;
    for i := 0 to n
      invariant ShiftInto(m', from + i, to + i, n - i) == ShiftInto(m, from, to, n)
    {
      m' := m'[from + i := to + i];
    }
  }

  /**
   * Counting the lines of two texts separately counts one line twice exactly
   * when the first ends mid-line and the second goes on with it.
   */
  lemma LineCountAppend(a: string, b: string)
    ensures LineCount(a + b) + (if a != [] && b != [] && a[|a| - 1] != '\n' then 1 else 0)
      == LineCount(a) + LineCount(b)
  {
    CountAppend(a, b, '\n');
    if b == [] {
      assert a + b == a;
    } else {
      assert (a + b)[|a + b| - 1] == b[|b| - 1];
    }
  }

  /** Every non-empty edit text ends with a newline. */
  predicate WholeLines(edits: seq<Edit>)
  {
    forall i :: 0 <= i < |edits| && edits[i].text != [] ==> edits[i].text[|edits[i].text| - 1] == '\n'
  }

  /**
   * The left cursor counts edit pieces, not lines of the left text: it never
   * falls short of the left text's line count and matches it when every piece
   * ends in a newline. The right cursor behaves the same way.
   */
  lemma {:induction false} CursorLineCounts(edits: seq<Edit>)
    ensures LineCount(LeftText(edits)) <= LeftLines(edits)
    ensures LineCount(RightText(edits)) <= RightLines(edits)
    ensures WholeLines(edits) ==> LineCount(LeftText(edits)) == LeftLines(edits)
    ensures WholeLines(edits) ==> LineCount(RightText(edits)) == RightLines(edits)
  {
    LeftCursorLineCount(edits);
    RightCursorLineCount(edits);
  }

  lemma WholeLinesTail(edits: seq<Edit>)
    requires edits != [] && WholeLines(edits)
    ensures WholeLines(edits[1..])
  {
    assert forall i :: 0 <= i < |edits| - 1 ==> edits[1..][i] == edits[i + 1];
  }

  lemma {:induction false} LeftCursorLineCount(edits: seq<Edit>)
    ensures LineCount(LeftText(edits)) <= LeftLines(edits)
    ensures WholeLines(edits) ==> LineCount(LeftText(edits)) == LeftLines(edits)
  {
    if edits != [] {
      var e := edits[0];
      LeftCursorLineCount(edits[1..]);
      var t := if e.op != Insert then e.text else [];
      assert LeftText(edits) == t + LeftText(edits[1..]);
      assert LeftLines(edits) == LineCount(t) + LeftLines(edits[1..]);
      LineCountAppend(t, LeftText(edits[1..]));
      if WholeLines(edits) {
        WholeLinesTail(edits);
        assert t != [] ==> t[|t| - 1] == '\n';
      }
    }
  }

  lemma {:induction false} RightCursorLineCount(edits: seq<Edit>)
    ensures LineCount(RightText(edits)) <= RightLines(edits)
    ensures WholeLines(edits) ==> LineCount(RightText(edits)) == RightLines(edits)
  {
    if edits != [] {
      var e := edits[0];
      RightCursorLineCount(edits[1..]);
      var t := if e.op != Delete then e.text else [];
      assert RightText(edits) == t + RightText(edits[1..]);
      assert RightLines(edits) == LineCount(t) + RightLines(edits[1..]);
      LineCountAppend(t, RightText(edits[1..]));
      if WholeLines(edits) {
        WholeLinesTail(edits);
        assert t != [] ==> t[|t| - 1] == '\n';
      }
    }
  }

  /**
   * A script whose pieces split a line: the left text "abcd\n" is one line,
   * but the left cursor passes three.
   */
  lemma CursorOvercountExample()
    ensures var edits := [Edit(Equal, "ab"), Edit(Delete, "c"), Edit(Equal, "d\n")];
      LeftText(edits) == "abcd\n" && LineCount(LeftText(edits)) == 1 && LeftLines(edits) == 3
  {
    var edits := [Edit(Equal, "ab"), Edit(Delete, "c"), Edit(Equal, "d\n")];
    assert edits[1..] == [Edit(Delete, "c"), Edit(Equal, "d\n")];
    assert edits[1..][1..] == [Edit(Equal, "d\n")];
    assert edits[1..][1..][1..] == [];
    assert LeftText(edits) == "abcd\n";
    assert Count("abcd\n", '\n') == 1 && Count("ab", '\n') == 0 && Count("c", '\n') == 0 && Count("d\n", '\n') == 1;
  }

  /** An empty edit spans no line; a terminated or an unterminated line spans one. */
  lemma LineCountExamples()
    ensures LineCount("") == 0 && LineCount("a\n") == 1 && LineCount("c") == 1
    ensures LineCount("a\nb") == 2 && LineCount("a\nb\n") == 2
  {
    assert Count("a\n", '\n') == 1;
    assert Count("a\nb", '\n') == 1;
    assert Count("a\nb\n", '\n') == 2;
  }

  lemma LineMapExampleSteps()
    ensures Step(Edit(Equal, "a\n"), 0, 0, LineMap(map[], map[])) == LineMap(map[0 := 0], map[0 := 0])
    ensures Step(Edit(Delete, "b\n"), 1, 1, LineMap(map[0 := 0], map[0 := 0])) == LineMap(map[0 := 0, 1 := 1], map[0 := 0])
    ensures Step(Edit(Equal, "c"), 2, 1, LineMap(map[0 := 0, 1 := 1], map[0 := 0])) == LineMap(map[0 := 0, 1 := 1, 2 := 1], map[0 := 0, 1 := 2])
  {
    assert LineCount("a\n") == 1 && LineCount("b\n") == 1 && LineCount("c") == 1 by {
      assert Count("a\n", '\n') == 1 && Count("b\n", '\n') == 1 && Count("c", '\n') == 0;
    }
    var empty: map<nat, nat> := map[];
    assert ShiftInto(empty, 0, 0, 1) == ShiftInto(map[0 := 0], 1, 1, 0);
    assert RunInto(map[0 := 0], 1, 1, 1) == RunInto(map[0 := 0, 1 := 1], 2, 1, 0);
    assert ShiftInto(map[0 := 0, 1 := 1], 2, 1, 1) == ShiftInto(map[0 := 0, 1 := 1, 2 := 1], 3, 2, 0);
    assert ShiftInto(map[0 := 0], 1, 2, 1) == ShiftInto(map[0 := 0, 1 := 2], 2, 3, 0);
  }

  /** An unchanged line, a deleted line and an unchanged unterminated line. */
  lemma LineMapExample()
    ensures MapsOf([Edit(Equal, "a\n"), Edit(Delete, "b\n"), Edit(Equal, "c")])
      == LineMap(map[0 := 0, 1 := 1, 2 := 1], map[0 := 0, 1 := 2])
  {
    var edits := [Edit(Equal, "a\n"), Edit(Delete, "b\n"), Edit(Equal, "c")];
    LineMapExampleSteps();
    LineCountExamples();
    assert edits[1..] == [Edit(Delete, "b\n"), Edit(Equal, "c")];
    assert edits[1..][1..] == [Edit(Equal, "c")];
    assert edits[1..][1..][1..] == [];
  }

  /**
   * One pass of the `generateLineMap` loop: counts the edit's lines, sets
   * the entries the edit's operation calls for and moves the cursors.
   */
  method ApplyEdit(leftMap: map<nat, nat>, rightMap: map<nat, nat>, leftLine: nat, rightLine: nat, e: Edit)
    returns (leftMap': map<nat, nat>, rightMap': map<nat, nat>, leftLine': nat, rightLine': nat)
    ensures LineMap(leftMap', rightMap') == Step(e, leftLine, rightLine, LineMap(leftMap, rightMap))
    ensures leftLine' == leftLine + LeftAdvance(e) && rightLine' == rightLine + RightAdvance(e)
  {
    var lines := Split(e.text);
    var lineCount := |lines| - (if lines[|lines| - 1] == [] then 1 else 0);
    assert lineCount == LineCount(e.text);
    leftMap', rightMap', leftLine', rightLine' := leftMap, rightMap, leftLine, rightLine;
    match e.op
    case Delete =>
      leftMap' := SetRun(leftMap, leftLine, rightLine, lineCount);
      leftLine' := leftLine + lineCount;
    case Equal =>
      leftMap' := SetShifted(leftMap, leftLine, rightLine, lineCount);
      rightMap' := SetShifted(rightMap, rightLine, leftLine, lineCount);
      leftLine' := leftLine + lineCount;
      rightLine' := rightLine + lineCount;
    case Insert =>
      rightMap' := SetRun(rightMap, rightLine, leftLine, lineCount);
      rightLine' := rightLine + lineCount;
  }

  /**
   * `generateLineMap`: walks the edits with a left and a right line cursor
   * and fills the two maps entry by entry. The line arrays it is given are
   * never read.
   */
  method GenerateLineMap(leftLines: seq<string>, rightLines: seq<string>, diffs: seq<Edit>)
    returns (lineMap: LineMap)
    ensures lineMap == MapsOf(diffs)
  {
    var leftMap: map<nat, nat> := map[];
    var rightMap: map<nat, nat> := map[];
    var leftLine: nat := 0;
    var rightLine: nat := 0;
    assert diffs[0..] == diffs;
    for d := 0 to |diffs|
      invariant Fill(diffs[d..], leftLine, rightLine, LineMap(leftMap, rightMap)) == MapsOf(diffs)
    {
      var leftMap', rightMap', leftLine', rightLine' := ApplyEdit(leftMap, rightMap, leftLine, rightLine, diffs[d]);
      FillNext(diffs, d, leftLine, rightLine, LineMap(leftMap, rightMap), leftLine', rightLine', LineMap(leftMap', rightMap'));
      leftMap, rightMap, leftLine, rightLine := leftMap', rightMap', leftLine', rightLine';
    }
    assert diffs[|diffs|..] == [];
    lineMap := LineMap(leftMap, rightMap);
  }

  // ---------------------------------------------------------------------
  // HTML escaping
  // ---------------------------------------------------------------------

  /** `s.replace(/c/g, rep)` for a one-character pattern. */
  function ReplaceAll(s: string, c: char, rep: string): string
  {
    if s == [] then [] else (if s[0] == c then rep else [s[0]]) + ReplaceAll(s[1..], c, rep)
  }

  lemma {:induction false} ReplaceAllAppend(a: string, b: string, c: char, rep: string)
    ensures ReplaceAll(a + b, c, rep) == ReplaceAll(a, c, rep) + ReplaceAll(b, c, rep)
  {
    if a == [] {
      assert a + b == b;
    } else {
      assert (a + b)[0] == a[0] && (a + b)[1..] == a[1..] + b;
      ReplaceAllAppend(a[1..], b, c, rep);
    }
  }

  /** The escaping chain of `formatDiffs`: `&` first, then `<`, then `>`. */
  function EscapeHtml(text: string): string
  {
    ReplaceAll(ReplaceAll(ReplaceAll(text, '&', "&amp;"), '<', "&lt;"), '>', "&gt;")
  }

  /** The entity each special character stands for, and every other character as itself. */
  function EscapeChar(c: char): string
  {
    if c == '&' then "&amp;" else if c == '<' then "&lt;" else if c == '>' then "&gt;" else [c]
  }

  /** Escaping one character at a time. */
  function EscapeEach(s: string): string
  {
    if s == [] then [] else EscapeChar(s[0]) + EscapeEach(s[1..])
  }

  lemma {:induction false} EscapeEachAppend(a: string, b: string)
    ensures EscapeEach(a + b) == EscapeEach(a) + EscapeEach(b)
  {
    if a == [] {
      assert a + b == b;
    } else {
      assert (a + b)[0] == a[0] && (a + b)[1..] == a[1..] + b;
      EscapeEachAppend(a[1..], b);
    }
  }

  /** A pattern that does not occur leaves the text as it is. */
  lemma {:induction false} ReplaceAllAbsent(s: string, c: char, rep: string)
    requires c !in s
    ensures ReplaceAll(s, c, rep) == s
  {
    if s != [] {
      assert s[0] != c && c !in s[1..];
      ReplaceAllAbsent(s[1..], c, rep);
    }
  }

  lemma ReplaceAllOne(c: char, p: char, rep: string)
    ensures ReplaceAll([c], p, rep) == if c == p then rep else [c]
  {
    assert [c][0] == c && [c][1..] == [];
  }

  lemma EscapeHtmlChar(c: char)
    ensures EscapeHtml([c]) == EscapeChar(c)
  {
    ReplaceAllOne(c, '&', "&amp;");
    var r1 := ReplaceAll([c], '&', "&amp;");
    if c == '&' {
      ReplaceAllAbsent("&amp;", '<', "&lt;");
      ReplaceAllAbsent("&amp;", '>', "&gt;");
    } else if c == '<' {
      ReplaceAllOne(c, '<', "&lt;");
      ReplaceAllAbsent("&lt;", '>', "&gt;");
    } else {
      ReplaceAllOne(c, '<', "&lt;");
      ReplaceAllOne(c, '>', "&gt;");
    }
  }

  /**
   * Because `&` is replaced first, the three passes never re-escape the
   * entities an earlier pass wrote: together they escape each character on
   * its own.
   */
  lemma {:induction false} EscapeHtmlIsEachChar(text: string)
    ensures EscapeHtml(text) == EscapeEach(text)
  {
    if text != [] {
      var c, rest := text[0], text[1..];
      assert text == [c] + rest;
      EscapeHtmlIsEachChar(rest);
      var r1 := ReplaceAll([c], '&', "&amp;");
      ReplaceAllAppend([c], rest, '&', "&amp;");
      var r2 := ReplaceAll(r1, '<', "&lt;");
      ReplaceAllAppend(r1, ReplaceAll(rest, '&', "&amp;"), '<', "&lt;");
      ReplaceAllAppend(r2, ReplaceAll(ReplaceAll(rest, '&', "&amp;"), '<', "&lt;"), '>', "&gt;");
      EscapeHtmlChar(c);
    }
  }

  /** Escaped text holds no angle bracket, so it can never open or close a tag. */
  lemma {:induction false} EscapedHasNoBrackets(text: string)
    ensures '<' !in EscapeEach(text) && '>' !in EscapeEach(text)
  {
    if text != [] {
      EscapedHasNoBrackets(text[1..]);
    }
  }

  /** Decoding the three entities `&amp;`, `&lt;` and `&gt;`, as an HTML viewer does. */
  function Unescape(t: string): string
  {
    if t == [] then []
    else if |t| >= 5 && t[..5] == "&amp;" then "&" + Unescape(t[5..])
    else if |t| >= 4 && t[..4] == "&lt;" then "<" + Unescape(t[4..])
    else if |t| >= 4 && t[..4] == "&gt;" then ">" + Unescape(t[4..])
    else [t[0]] + Unescape(t[1..])
  }

  lemma UnescapeChar(c: char, t: string)
    ensures Unescape(EscapeChar(c) + t) == [c] + Unescape(t)
  {
    if c == '&' {
      UnescapeAmp(t);
    } else if c == '<' {
      UnescapeLt(t);
    } else if c == '>' {
      UnescapeGt(t);
    } else {
      UnescapePlain(c, t);
    }
  }

  lemma UnescapeAmp(t: string)
    ensures Unescape("&amp;" + t) == "&" + Unescape(t)
  {
    var u := "&amp;" + t;
    assert u[..5] == "&amp;" && u[5..] == t;
  }

  lemma UnescapeLt(t: string)
    ensures Unescape("&lt;" + t) == "<" + Unescape(t)
  {
    var u := "&lt;" + t;
    assert u[..4] == "&lt;" && u[4..] == t;
    assert |u| >= 5 ==> u[..5][1] == 'l';
  }

  lemma UnescapeGt(t: string)
    ensures Unescape("&gt;" + t) == ">" + Unescape(t)
  {
    var u := "&gt;" + t;
    assert u[..4] == "&gt;" && u[4..] == t;
    assert u[..4][1] == 'g';
    assert |u| >= 5 ==> u[..5][1] == 'g';
  }

  lemma UnescapePlain(c: char, t: string)
    requires c != '&'
    ensures Unescape([c] + t) == [c] + Unescape(t)
  {
    var u := [c] + t;
    assert u[0] == c && u[1..] == t;
    assert |u| >= 4 ==> u[..4][0] == c;
    assert |u| >= 5 ==> u[..5][0] == c;
  }

  /** Unescaping gives back exactly the text that was escaped. */
  lemma {:induction false} UnescapeEscape(text: string)
    ensures Unescape(EscapeEach(text)) == text
  {
    if text != [] {
      UnescapeEscape(text[1..]);
      UnescapeChar(text[0], EscapeEach(text[1..]));
      assert text == [text[0]] + text[1..];
    }
  }

  /** Text without special characters is its own escape. */
  lemma {:induction false} EscapeEachPlain(s: string)
    requires '&' !in s && '<' !in s && '>' !in s
    ensures EscapeEach(s) == s
  {
    if s != [] {
      assert s[0] != '&' && s[0] != '<' && s[0] != '>';
      assert s == [s[0]] + s[1..];
      EscapeEachPlain(s[1..]);
    }
  }

  lemma EscapeTagExample(text: string)
    requires text == "<b>"
    ensures EscapeHtml(text) == "&lt;b&gt;"
  {
    EscapeHtmlIsEachChar(text);
    EscapeEachAppend("<", "b>");
    EscapeEachAppend("b", ">");
    EscapeEachPlain("b");
    assert "<" + "b>" == "<b>" && "b" + ">" == "b>";
    assert EscapeEach("<") == "&lt;" + EscapeEach([]);
    assert EscapeEach(">") == "&gt;" + EscapeEach([]);
  }

  lemma EntityEscapedEach(text: string)
    requires text == "&lt;"
    ensures EscapeEach(text) == "&amp;lt;"
  {
    assert EscapeEach(text) == "&amp;" + "lt;" by {
      assert text == "&" + "lt;";
      EscapeEachAppend("&", "lt;");
      EscapeEachPlain("lt;");
      assert EscapeEach("&") == "&amp;" + EscapeEach([]);
    }
    assert "&amp;" + "lt;" == "&amp;lt;";
  }

  /** Escaping is not applied twice: an entity in the input is written out as text. */
  lemma EscapeEntityExample(text: string)
    requires text == "&lt;"
    ensures EscapeHtml(text) == "&amp;lt;"
  {
    EscapeHtmlIsEachChar(text);
    EntityEscapedEach(text);
  }

  // ---------------------------------------------------------------------
  // HTML rendering of the script
  // ---------------------------------------------------------------------

  /** The class attribute of a deleted run's span, written in two pieces. */
  const DeletionClass := "bg-red-100 dark:bg-red-900/30" + " text-red-800 dark:text-red-200"

  /** The class attribute of an inserted run's span, written in two pieces. */
  const InsertionClass := "bg-green-100 dark:bg-green-900/30" + " text-green-800 dark:text-green-200"

  /** What lies between '<' and '>' in the opening tag of a deleted run. */
  const DeletionTag := "span class=\"" + DeletionClass + "\""

  /** What lies between '<' and '>' in the opening tag of an inserted run. */
  const InsertionTag := "span class=\"" + InsertionClass + "\""

  const DeletionOpen := "<" + DeletionTag + ">"
  const InsertionOpen := "<" + InsertionTag + ">"
  const SpanClose := "<" + "/span" + ">"

  /** What a run contributes to the left HTML: Equal text as is, Delete text in a red span. */
  function LeftFragment(e: Edit): string
  {
    match e.op
    case Delete => DeletionOpen + EscapeHtml(e.text) + SpanClose
    case Equal => EscapeHtml(e.text)
    case Insert => []
  }

  /** What a run contributes to the right HTML: Equal text as is, Insert text in a green span. */
  function RightFragment(e: Edit): string
  {
    match e.op
    case Delete => []
    case Equal => EscapeHtml(e.text)
    case Insert => InsertionOpen + EscapeHtml(e.text) + SpanClose
  }

  /** The left HTML of a script: the left fragments in edit order. */
  function LeftHtml(edits: seq<Edit>): string
  {
    if edits == [] then [] else LeftFragment(edits[0]) + LeftHtml(edits[1..])
  }

  /** The right HTML of a script: the right fragments in edit order. */
  function RightHtml(edits: seq<Edit>): string
  {
    if edits == [] then [] else RightFragment(edits[0]) + RightHtml(edits[1..])
  }

  /** The two HTML strings of a rendered script. */
  datatype FormattedDiffs = FormattedDiffs(left: string, right: string)

  /** One step of the rendering, read at position `d` of the script. */
  lemma HtmlAt(diffs: seq<Edit>, d: nat)
    requires d < |diffs|
    ensures LeftHtml(diffs[d..]) == LeftFragment(diffs[d]) + LeftHtml(diffs[d + 1..])
    ensures RightHtml(diffs[d..]) == RightFragment(diffs[d]) + RightHtml(diffs[d + 1..])
  {
    assert diffs[d..][0] == diffs[d] && diffs[d..][1..] == diffs[d + 1..];
  }

  /**
   * One pass of the `formatDiffs` loop: escapes the run and appends it to
   * the HTML of the side (or sides) it belongs to.
   */
  method AppendRun(leftHtml: string, rightHtml: string, e: Edit) returns (leftHtml': string, rightHtml': string)
    ensures leftHtml' == leftHtml + LeftFragment(e) && rightHtml' == rightHtml + RightFragment(e)
  {
    var escapedText := EscapeHtml(e.text);
    leftHtml', rightHtml' := leftHtml, rightHtml;
    match e.op
    case Delete =>
      leftHtml' := leftHtml + (DeletionOpen + escapedText + SpanClose);
    case Equal =>
      leftHtml' := leftHtml + escapedText;
      rightHtml' := rightHtml + escapedText;
    case Insert =>
      rightHtml' := rightHtml + (InsertionOpen + escapedText + SpanClose);
  }

  /**
   * `formatDiffs`: renders the runs one after the other into a left and a
   * right HTML string.
   */
  method FormatDiffs(diffs: seq<Edit>) returns (formatted: FormattedDiffs)
    ensures formatted == FormattedDiffs(LeftHtml(diffs), RightHtml(diffs))
  {
    var leftHtml, rightHtml := "", "";
    assert diffs[0..] == diffs;
    for d := 0 to |diffs|
      invariant leftHtml + LeftHtml(diffs[d..]) == LeftHtml(diffs)
      invariant rightHtml + RightHtml(diffs[d..]) == RightHtml(diffs)
    {
      HtmlAt(diffs, d);
      SeqAssoc(leftHtml, LeftFragment(diffs[d]), LeftHtml(diffs[d + 1..]));
      SeqAssoc(rightHtml, RightFragment(diffs[d]), RightHtml(diffs[d + 1..]));
      leftHtml, rightHtml := AppendRun(leftHtml, rightHtml, diffs[d]);
    }
    assert diffs[|diffs|..] == [];
    formatted := FormattedDiffs(leftHtml, rightHtml);
  }

  lemma {:induction false} LeftHtmlAppend(a: seq<Edit>, b: seq<Edit>)
    ensures LeftHtml(a + b) == LeftHtml(a) + LeftHtml(b)
    ensures RightHtml(a + b) == RightHtml(a) + RightHtml(b)
  {
    if a == [] {
      assert a + b == b;
    } else {
      assert (a + b)[0] == a[0] && (a + b)[1..] == a[1..] + b;
      LeftHtmlAppend(a[1..], b);
    }
  }

  /** The edits of a script whose operation is not `op`, in order. */
  function Without(edits: seq<Edit>, op: Op): seq<Edit>
  {
    if edits == [] then [] else (if edits[0].op == op then [] else [edits[0]]) + Without(edits[1..], op)
  }

  /** Inserted runs never reach the left HTML, nor deleted runs the right HTML. */
  lemma {:induction false} HtmlIgnoresOtherSide(edits: seq<Edit>)
    ensures LeftHtml(Without(edits, Insert)) == LeftHtml(edits)
    ensures RightHtml(Without(edits, Delete)) == RightHtml(edits)
  {
    if edits != [] {
      var e := edits[0];
      HtmlIgnoresOtherSide(edits[1..]);
      var l := if e.op == Insert then [] else [e];
      var r := if e.op == Delete then [] else [e];
      LeftHtmlAppend(l, Without(edits[1..], Insert));
      LeftHtmlAppend(r, Without(edits[1..], Delete));
      assert LeftHtml([e]) == LeftFragment(e) + LeftHtml([]) by { assert [e][1..] == []; }
      assert RightHtml([e]) == RightFragment(e) + RightHtml([]) by { assert [e][1..] == []; }
    }
  }

  /**
   * The text a browser shows for an HTML string: every character outside a
   * tag, where a tag runs from '<' to the next '>'. `inTag` says whether
   * `s` starts inside one.
   */
  function VisibleText(s: string, inTag: bool): string
  {
    if s == [] then []
    else if inTag then VisibleText(s[1..], s[0] != '>')
    else if s[0] == '<' then VisibleText(s[1..], true)
    else [s[0]] + VisibleText(s[1..], false)
  }

  /** Text without '<' shows as itself. */
  lemma {:induction false} VisiblePlain(x: string, t: string)
    requires '<' !in x
    ensures VisibleText(x + t, false) == x + VisibleText(t, false)
  {
    if x == [] {
      assert x + t == t;
    } else {
      assert (x + t)[0] == x[0] && (x + t)[1..] == x[1..] + t;
      VisiblePlain(x[1..], t);
    }
  }

  /** A tag shows nothing. */
  lemma {:induction false} VisibleTagBody(body: string, t: string)
    requires '>' !in body
    ensures VisibleText(body + ">" + t, true) == VisibleText(t, false)
  {
    if body == [] {
      assert body + ">" + t == ">" + t;
      assert (">" + t)[1..] == t;
    } else {
      assert (body + ">" + t)[0] == body[0] && (body + ">" + t)[1..] == body[1..] + ">" + t;
      VisibleTagBody(body[1..], t);
    }
  }

  lemma VisibleTag(body: string, t: string)
    requires '>' !in body
    ensures VisibleText("<" + body + ">" + t, false) == VisibleText(t, false)
  {
    var s := "<" + body + ">" + t;
    assert s[0] == '<' && s[1..] == body + ">" + t;
    VisibleTagBody(body, t);
  }

  /** No character of `s` closes a tag. */
  predicate NoTagEnd(s: string)
  {
    forall i :: 0 <= i < |s| ==> s[i] != '>'
  }

  lemma NoTagEndAppend(a: string, b: string)
    requires NoTagEnd(a) && NoTagEnd(b)
    ensures NoTagEnd(a + b)
  {
    forall i | 0 <= i < |a + b| ensures (a + b)[i] != '>' {
      if i >= |a| { assert (a + b)[i] == b[i - |a|]; }
    }
  }

  lemma DeletionPiecesNoTagEnd()
    ensures NoTagEnd("bg-red-100 dark:bg-red-900/30") && NoTagEnd(" text-red-800 dark:text-red-200")
  {
  }

  lemma InsertionPiecesNoTagEnd()
    ensures NoTagEnd("bg-green-100 dark:bg-green-900/30") && NoTagEnd(" text-green-800 dark:text-green-200")
  {
  }

  /** Between its '<' and its '>', no tag the renderer writes holds another '>'. */
  lemma TagsNoTagEnd()
    ensures NoTagEnd(DeletionTag) && NoTagEnd(InsertionTag) && NoTagEnd("/span")
  {
    DeletionPiecesNoTagEnd();
    InsertionPiecesNoTagEnd();
    NoTagEndAppend("bg-red-100 dark:bg-red-900/30", " text-red-800 dark:text-red-200");
    NoTagEndAppend("bg-green-100 dark:bg-green-900/30", " text-green-800 dark:text-green-200");
    assert NoTagEnd("span class=\"") && NoTagEnd("\"");
    NoTagEndAppend("span class=\"", DeletionClass);
    NoTagEndAppend("span class=\"" + DeletionClass, "\"");
    NoTagEndAppend("span class=\"", InsertionClass);
    NoTagEndAppend("span class=\"" + InsertionClass, "\"");
  }

  /** A run wrapped in an opening and a closing tag shows as the run. */
  lemma VisibleSpan(openTag: string, closeTag: string, x: string, t: string)
    requires NoTagEnd(openTag) && NoTagEnd(closeTag) && '<' !in x
    ensures VisibleText("<" + openTag + ">" + x + ("<" + closeTag + ">") + t, false) == x + VisibleText(t, false)
  {
    var close := "<" + closeTag + ">";
    var rest := x + (close + t);
    assert "<" + openTag + ">" + x + close + t == "<" + openTag + ">" + rest;
    VisibleTag(openTag, rest);
    VisiblePlain(x, close + t);
    VisibleTag(closeTag, t);
  }

  lemma LeftFragmentVisible(e: Edit, t: string)
    ensures VisibleText(LeftFragment(e) + t, false) == EscapeEach(if e.op != Insert then e.text else []) + VisibleText(t, false)
  {
    EscapeHtmlIsEachChar(e.text);
    EscapedHasNoBrackets(e.text);
    var x := EscapeHtml(e.text);
    match e.op
    case Delete =>
      TagsNoTagEnd();
      VisibleSpan(DeletionTag, "/span", x, t);
      assert LeftFragment(e) + t == "<" + DeletionTag + ">" + x + ("<" + "/span" + ">") + t;
    case Equal =>
      VisiblePlain(x, t);
    case Insert =>
      assert LeftFragment(e) + t == t;
  }

  lemma RightFragmentVisible(e: Edit, t: string)
    ensures VisibleText(RightFragment(e) + t, false) == EscapeEach(if e.op != Delete then e.text else []) + VisibleText(t, false)
  {
    EscapeHtmlIsEachChar(e.text);
    EscapedHasNoBrackets(e.text);
    var x := EscapeHtml(e.text);
    match e.op
    case Delete =>
      assert RightFragment(e) + t == t;
    case Equal =>
      VisiblePlain(x, t);
    case Insert =>
      TagsNoTagEnd();
      VisibleSpan(InsertionTag, "/span", x, t);
      assert RightFragment(e) + t == "<" + InsertionTag + ">" + x + ("<" + "/span" + ">") + t;
  }

  /** The left HTML shows the escaped left text, and the right HTML the escaped right text. */
  lemma {:induction false} VisibleHtml(edits: seq<Edit>)
    ensures VisibleText(LeftHtml(edits), false) == EscapeEach(LeftText(edits))
    ensures VisibleText(RightHtml(edits), false) == EscapeEach(RightText(edits))
  {
    if edits != [] {
      var e := edits[0];
      VisibleHtml(edits[1..]);
      LeftFragmentVisible(e, LeftHtml(edits[1..]));
      RightFragmentVisible(e, RightHtml(edits[1..]));
      EscapeEachAppend(if e.op != Insert then e.text else [], LeftText(edits[1..]));
      EscapeEachAppend(if e.op != Delete then e.text else [], RightText(edits[1..]));
    }
  }

  /**
   * The text a viewer reads off each side of the rendering, once tags are
   * dropped and entities decoded, is exactly that side of the script.
   */
  lemma RenderedText(edits: seq<Edit>)
    ensures Unescape(VisibleText(LeftHtml(edits), false)) == LeftText(edits)
    ensures Unescape(VisibleText(RightHtml(edits), false)) == RightText(edits)
  {
    VisibleHtml(edits);
    UnescapeEscape(LeftText(edits));
    UnescapeEscape(RightText(edits));
  }

  // ---------------------------------------------------------------------
  // The comparison
  // ---------------------------------------------------------------------

  /** `DiffResult`: the script, and the rendering and line map, which the source leaves optional. */
  datatype DiffResult = DiffResult(diffs: seq<Edit>, formattedDiffs: Option<FormattedDiffs>, lineMap: Option<LineMap>)

  /**
   * `compareTexts`. Both texts are normalised with the same options and the
   * external diff library turns them into `diffs`: whatever script it
   * returns, its Delete and Equal runs spell the normalised left text and
   * its Equal and Insert runs the normalised right text. The rendering and
   * the line map depend on the script alone.
   */
  method CompareTexts(leftText: string, rightText: string, options: Options, diffs: seq<Edit>)
    returns (result: DiffResult)
    requires LeftText(diffs) == NormalizeText(leftText, options)
    requires RightText(diffs) == NormalizeText(rightText, options)
    ensures result.diffs == diffs
    ensures result.formattedDiffs == Some(FormattedDiffs(LeftHtml(diffs), RightHtml(diffs)))
    ensures result.lineMap == Some(MapsOf(diffs))
    ensures Unescape(VisibleText(result.formattedDiffs.value.left, false)) == NormalizeText(leftText, options)
    ensures Unescape(VisibleText(result.formattedDiffs.value.right, false)) == NormalizeText(rightText, options)
  {
    var normalizedLeft := NormalizeText(leftText, options);
    var normalizedRight := NormalizeText(rightText, options);
    // `diffs` stands for the library's cleaned-up diff of the two normalised texts.
    assert LeftText(diffs) == normalizedLeft && RightText(diffs) == normalizedRight;
    var lineMap := GenerateLineMap(Split(leftText), Split(rightText), diffs);
    var formatted := FormatDiffs(diffs);
    RenderedText(diffs);
    result := DiffResult(diffs, Some(formatted), Some(lineMap));
  }
}
