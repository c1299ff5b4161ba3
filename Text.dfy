/**
 * The JavaScript string built-ins the core relies on, over `seq<char>`:
 * `split('\n')`, its inverse, and the ASCII reading of case and `\s`.
 */
module Text {

  /** Concatenation is associative; named so that callers can regroup a sum of sequences. */
  lemma SeqAssoc<T>(a: seq<T>, b: seq<T>, c: seq<T>)
    ensures (a + b) + c == a + (b + c)
  {
  }

  /** Number of occurrences of `c` in `s`. */
  function Count(s: string, c: char): nat
  {
    if s == [] then 0 else (if s[0] == c then 1 else 0) + Count(s[1..], c)
  }

  lemma {:induction false} CountAppend(a: string, b: string, c: char)
    ensures Count(a + b, c) == Count(a, c) + Count(b, c)
  {
    if a != [] {
      assert (a + b)[0] == a[0] && (a + b)[1..] == a[1..] + b;
      CountAppend(a[1..], b, c);
    } else {
      assert a + b == b;
    }
  }

  /** Joins lines with '\n' between neighbours: `lines.join('\n')`. */
  function Join(lines: seq<string>): string
  {
    if |lines| == 0 then []
    else if |lines| == 1 then lines[0]
    else lines[0] + "\n" + Join(lines[1..])
  }

  /**
   * `s.split('\n')`: the maximal '\n'-free pieces between separators. The
   * result is never empty: the empty string is one empty line.
   */
  function Split(s: string): (lines: seq<string>)
    ensures |lines| >= 1
  {
    if s == [] then [[]]
    else
      var rest := Split(s[1..]);
      if s[0] == '\n' then [[]] + rest else [[s[0]] + rest[0]] + rest[1..]
  }

  /**
   * A split has one piece more than the text has newlines, no piece holds a
   * newline, and joining the pieces gives the text back.
   */
  lemma {:induction false} SplitShape(s: string)
    ensures |Split(s)| == Count(s, '\n') + 1
    ensures forall k :: 0 <= k < |Split(s)| ==> '\n' !in Split(s)[k]
    ensures Join(Split(s)) == s
  {
    if s != [] {
      var rest := Split(s[1..]);
      SplitShape(s[1..]);
      if s[0] == '\n' {
        assert ([[]] + rest)[1..] == rest;
      } else {
        var lines := [[s[0]] + rest[0]] + rest[1..];
        assert lines[1..] == rest[1..];
        assert s == [s[0]] + s[1..];
        forall k | 0 <= k < |lines| ensures '\n' !in lines[k] {
          if k > 0 { assert lines[k] == rest[k]; }
        }
      }
    }
  }

  /** The last piece of a split is empty exactly when the text is empty or ends in '\n'. */
  lemma {:induction false} SplitLastEmpty(s: string)
    ensures Split(s)[|Split(s)| - 1] == [] <==> (s == [] || s[|s| - 1] == '\n')
  {
    if s != [] {
      var rest := Split(s[1..]);
      var lines := Split(s);
      SplitLastEmpty(s[1..]);
      if s[0] == '\n' || |rest| > 1 {
        assert lines[|lines| - 1] == rest[|rest| - 1];
        if s[1..] != [] {
          assert s[|s| - 1] == s[1..][|s[1..]| - 1];
        }
      } else {
        SplitShape(s[1..]);
        assert lines == [[s[0]] + rest[0]];
        assert Join(rest) == rest[0] == s[1..];
        if rest[0] != [] {
          assert s[|s| - 1] == rest[0][|rest[0]| - 1];
        }
      }
    }
  }

  /** JavaScript's `\s`, restricted to ASCII: space, tab, '\n', vertical tab, form feed, '\r'. */
  predicate IsWhitespace(c: char)
  {
    c == ' ' || c == '\t' || c == '\n' || c == '\r' || c as int == 11 || c as int == 12
  }

  predicate IsUpper(c: char) { 'A' <= c <= 'Z' }

  predicate IsLower(c: char) { 'a' <= c <= 'z' }

  /** `toLowerCase` on one ASCII character. */
  function LowerChar(c: char): (d: char)
    ensures !IsUpper(d)
    ensures IsWhitespace(d) <==> IsWhitespace(c)
    ensures !IsUpper(c) ==> d == c
    ensures IsUpper(c) ==> d as int == c as int + 32 && IsLower(d)
  {
    if IsUpper(c) then (c as int + 32) as char else c
  }

  /** `toUpperCase` on one ASCII character. */
  function UpperChar(c: char): (d: char)
    ensures !IsLower(d)
    ensures d == c <==> !IsLower(c)
    ensures IsLower(c) ==> d as int == c as int - 32 && IsUpper(d)
  {
    if IsLower(c) then (c as int - 32) as char else c
  }

  function ToLower(s: string): (r: string)
  {
    seq(|s|, i requires 0 <= i < |s| => LowerChar(s[i]))
  }

  function ToUpper(s: string): (r: string)
  {
    seq(|s|, i requires 0 <= i < |s| => UpperChar(s[i]))
  }

  /** One `{ line, content }` record of a line diff. */
  datatype LineChange = LineChange(line: nat, content: string)

  /** The set of line numbers a list of records reports. */
  function Lines(changes: seq<LineChange>): set<nat>
  {
    if changes == [] then {} else Lines(changes[..|changes| - 1]) + {changes[|changes| - 1].line}
  }

  lemma LinesAppend(changes: seq<LineChange>, c: LineChange)
    ensures Lines(changes + [c]) == Lines(changes) + {c.line}
  {
    assert (changes + [c])[..|changes|] == changes;
  }

  lemma {:induction false} LinesMembership(changes: seq<LineChange>, n: nat)
    ensures n in Lines(changes) <==> exists k :: 0 <= k < |changes| && changes[k].line == n
  {
    if changes != [] {
      var init := changes[..|changes| - 1];
      LinesMembership(init, n);
      if n in Lines(init) {
        var k :| 0 <= k < |init| && init[k].line == n;
        assert changes[k].line == n;
      }
      if exists k :: 0 <= k < |changes| && changes[k].line == n {
        var k :| 0 <= k < |changes| && changes[k].line == n;
        if k < |init| { assert init[k].line == n; }
      }
    }
  }

  /** Line numbers strictly increase along the list, so none is reported twice. */
  predicate StrictlyIncreasing(changes: seq<LineChange>)
  {
    forall a, b :: 0 <= a < b < |changes| ==> changes[a].line < changes[b].line
  }

  /** A record names a line of `lines` and carries exactly that line. */
  predicate Valid(c: LineChange, lines: seq<string>)
  {
    c.line < |lines| && c.content == lines[c.line]
  }

  predicate AllValid(changes: seq<LineChange>, lines: seq<string>)
  {
    forall k :: 0 <= k < |changes| ==> Valid(changes[k], lines)
  }

  /** Every record names a line below `n`. */
  predicate Below(changes: seq<LineChange>, n: nat)
  {
    forall k :: 0 <= k < |changes| ==> changes[k].line < n
  }
}
