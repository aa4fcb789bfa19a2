/**
 * String helpers of the jsUnity runner (js/common/modules/jsunity/jsunity.js): JavaScript's
 * `split`/`join`, `trim`-blankness, the stack-frame filter and `reduceStack`, and `plural`.
 */
module JsUnityText {
  import opened Wrappers
  import Decimal

  /** Index of the first occurrence of c in s. */
  function IndexOf(s: string, c: char): (i: nat)
    requires c in s
    ensures i < |s| && s[i] == c && c !in s[..i]
  {
    if s[0] == c then 0 else 1 + IndexOf(s[1..], c)
  }

  /** The first c after a c-free prefix is the one right behind the prefix. */
  lemma {:induction false} IndexOfAfterPrefix(a: string, c: char, b: string)
    requires c !in a
    ensures c in a + [c] + b && IndexOf(a + [c] + b, c) == |a|
    decreases |a|
  {
    var s := a + [c] + b;
    assert s[|a|] == c;
    if |a| > 0 {
      assert s[1..] == a[1..] + [c] + b;
      IndexOfAfterPrefix(a[1..], c, b);
    }
  }

  /** `s.split(c)` for a one-character separator: the pieces between the separators, one
      more piece than there are separators, empty pieces included. */
  function Split(s: string, c: char): (parts: seq<string>)
    ensures |parts| >= 1
    ensures forall k :: 0 <= k < |parts| ==> c !in parts[k]
    decreases |s|
  {
    if c !in s then [s]
    else
      var i := IndexOf(s, c);
      [s[..i]] + Split(s[i + 1..], c)
  }

  /** `parts.join(sep)`. */
  function Join(parts: seq<string>, sep: string): string {
    if |parts| == 0 then ""
    else if |parts| == 1 then parts[0]
    else parts[0] + sep + Join(parts[1..], sep)
  }

  /** Joining the pieces of a split with the separator gives back the string. */
  lemma {:induction false} SplitThenJoin(s: string, c: char)
    ensures Join(Split(s, c), [c]) == s
    decreases |s|
  {
    if c in s {
      var i := IndexOf(s, c);
      var rest := s[i + 1..];
      SplitThenJoin(rest, c);
      var parts := Split(s, c);
      assert parts == [s[..i]] + Split(rest, c);
      assert parts[1..] == Split(rest, c);
      assert Join(parts, [c]) == s[..i] + [c] + Join(Split(rest, c), [c]);
      assert s == s[..i] + [c] + rest;
    }
  }

  /** Splitting a join of separator-free pieces gives back the pieces. */
  lemma {:induction false} JoinThenSplit(parts: seq<string>, c: char)
    requires |parts| >= 1
    requires forall k :: 0 <= k < |parts| ==> c !in parts[k]
    ensures Split(Join(parts, [c]), c) == parts
    decreases |parts|
  {
    if |parts| > 1 {
      var s := Join(parts, [c]);
      assert s == parts[0] + [c] + Join(parts[1..], [c]);
      IndexOfAfterPrefix(parts[0], c, Join(parts[1..], [c]));
      var i := IndexOf(s, c);
      assert s[..i] == parts[0];
      assert s[i + 1..] == Join(parts[1..], [c]);
      JoinThenSplit(parts[1..], c);
    } else {
      assert Join(parts, [c]) == parts[0];
    }
  }

  /** The characters JavaScript's `trim` removes: WhiteSpace and LineTerminator of
      section 12.2 and 12.3 of ECMA-262. */
  predicate IsJsWhitespace(c: char) {
    c == '\t' || c == '\U{000B}' || c == '\U{000C}' || c == ' ' || c == '\U{00A0}' || c == '\U{FEFF}'
    || c == '\n' || c == '\r' || c == '\U{2028}' || c == '\U{2029}'
    || c == '\U{1680}' || ('\U{2000}' <= c <= '\U{200A}') || c == '\U{202F}' || c == '\U{205F}' || c == '\U{3000}'
  }

  /** `line.trim() === ''`. */
  predicate IsBlank(line: string) {
    forall k :: 0 <= k < |line| ==> IsJsWhitespace(line[k])
  }

  predicate OccursAt(s: string, t: string, i: nat) {
    i + |t| <= |s| && s[i..i + |t|] == t
  }

  predicate ContainsText(s: string, t: string) {
    exists i :: 0 <= i <= |s| && OccursAt(s, t, i)
  }

  /** A character the regular-expression `.` does not match. */
  predicate IsLineTerminator(c: char) {
    c == '\n' || c == '\r' || c == '\U{2028}' || c == '\U{2029}'
  }

  /** `run.*Runner\.run`: "run", then any characters other than line terminators, then
      "Runner.run". */
  predicate RunnerFrame(s: string) {
    exists i, j :: 0 <= i <= j <= |s| &&
      OccursAt(s, "run", i) && OccursAt(s, "Runner.run", j) && i + 3 <= j
      && forall k :: i + 3 <= k < j ==> !IsLineTerminator(s[k])
  }

  /** The frames of the test framework itself, which stack traces leave out. */
  predicate IsFrameworkLine(line: string) {
    || ContainsText(line, "jsunity.js")
    || ContainsText(line, "unknown source")
    || ContainsText(line, "RunTest")
    || ContainsText(line, "Object.run")
    || ContainsText(line, "<anonymous>")
    || RunnerFrame(line)
  }

  predicate Retain(line: string) {
    !IsBlank(line) && !IsFrameworkLine(line)
  }

  /** The two `filter` calls: retained lines in their original order. */
  function Retained(lines: seq<string>): (r: seq<string>)
    ensures |r| <= |lines|
    ensures forall k :: 0 <= k < |r| ==> Retain(r[k])
    ensures forall x :: x in r <==> x in lines && Retain(x)
  {
    if |lines| == 0 then []
    else if Retain(lines[0]) then [lines[0]] + Retained(lines[1..])
    else Retained(lines[1..])
  }

  /** A single line is kept exactly when it passes the filters. */
  lemma RetainedSingle(x: string)
    ensures Retained([x]) == if Retain(x) then [x] else []
  {
    assert [x][1..] == [];
  }

  /** Retained is the order-preserving filter: filtering a concatenation concatenates the
      filtered parts, so order and repetitions of the kept lines are those of the input. */
  lemma {:induction false} RetainedConcat(a: seq<string>, b: seq<string>)
    ensures Retained(a + b) == Retained(a) + Retained(b)
    decreases |a|
  {
    if |a| > 0 {
      RetainedConcat(a[1..], b);
      assert (a + b)[0] == a[0];
      assert (a + b)[1..] == a[1..] + b;
    } else {
      assert a + b == b;
    }
  }

  const MaxLines: nat := 5

  /** The `forEach` state: text so far, lines looked at, and the last line printed in full. */
  datatype ReduceState = ReduceState(ret: string, numPrinted: nat, last: Option<string>)

  /** One `forEach` callback: past the first `MaxLines` lines every line except the last
      becomes '.', a line equal to the last one printed becomes '.', any other line is
      printed with its newline. */
  function ReduceStep(lines: seq<string>, index: nat, st: ReduceState): ReduceState
    requires index < |lines|
  {
    var line := lines[index];
    if st.numPrinted >= MaxLines && index != |lines| - 1 then
      st.(ret := st.ret + ".", numPrinted := st.numPrinted + 1)
    else if st.last == Some(line) then
      st.(ret := st.ret + ".", numPrinted := st.numPrinted + 1)
    else
      ReduceState(st.ret + line + "\n", st.numPrinted + 1, Some(line))
  }

  function ReduceFrom(lines: seq<string>, index: nat, st: ReduceState): string
    requires index <= |lines|
    decreases |lines| - index
  {
    if index == |lines| then st.ret else ReduceFrom(lines, index + 1, ReduceStep(lines, index, st))
  }

  /** `reduceStack(errstack)` for a stack text. */
  function ReduceStack(stack: string): string {
    ReduceFrom(Retained(Split(stack, '\n')), 0, ReduceState("", 0, None))
  }

  /** Reference description of `reduceStack`'s output, position by position: line i
      (0-based, of n retained lines) is printed in full when it is among the first five or
      is the last one, and differs from the line printed before it, which is line
      min(i - 1, 4); every other line is a '.'. */
  function Piece(lines: seq<string>, i: nat): string
    requires i < |lines|
  {
    if i >= MaxLines && i != |lines| - 1 then "."
    else if i > 0 && lines[i] == lines[if i - 1 < MaxLines - 1 then i - 1 else MaxLines - 1] then "."
    else lines[i] + "\n"
  }

  function Pieces(lines: seq<string>, k: nat): string
    requires k <= |lines|
  {
    if k == 0 then "" else Pieces(lines, k - 1) + Piece(lines, k - 1)
  }

  /** The state the `forEach` has reached before line i. */
  ghost predicate ReducedUpTo(lines: seq<string>, i: nat, st: ReduceState)
    requires i <= |lines|
  {
    && st.ret == Pieces(lines, i)
    && st.numPrinted == i
    && (i == 0 ==> st.last == None)
    && (0 < i < |lines| ==> st.last == Some(lines[if i - 1 < MaxLines - 1 then i - 1 else MaxLines - 1]))
  }

  lemma ReduceStepAdvances(lines: seq<string>, i: nat, st: ReduceState)
    requires i < |lines| && ReducedUpTo(lines, i, st)
    ensures ReducedUpTo(lines, i + 1, ReduceStep(lines, i, st))
  {
  }

  lemma {:induction false} ReduceFromIsPieces(lines: seq<string>, i: nat, st: ReduceState)
    requires i <= |lines| && ReducedUpTo(lines, i, st)
    ensures ReduceFrom(lines, i, st) == Pieces(lines, |lines|)
    decreases |lines| - i
  {
    if i < |lines| {
      ReduceStepAdvances(lines, i, st);
      ReduceFromIsPieces(lines, i + 1, ReduceStep(lines, i, st));
    }
  }

  /** `reduceStack` agrees with the position-by-position description. */
  lemma ReduceStackIsPieces(stack: string)
    ensures var lines := Retained(Split(stack, '\n'));
      ReduceStack(stack) == Pieces(lines, |lines|)
  {
    var lines := Retained(Split(stack, '\n'));
    ReduceFromIsPieces(lines, 0, ReduceState("", 0, None));
  }

  function CountChar(s: string, c: char): nat {
    if |s| == 0 then 0 else CountChar(s[..|s| - 1], c) + (if s[|s| - 1] == c then 1 else 0)
  }

  lemma {:induction false} CountCharConcat(a: string, b: string, c: char)
    ensures CountChar(a + b, c) == CountChar(a, c) + CountChar(b, c)
    decreases |b|
  {
    if |b| > 0 {
      assert (a + b)[..|a + b| - 1] == a + b[..|b| - 1];
      CountCharConcat(a, b[..|b| - 1], c);
    } else {
      assert a + b == a;
    }
  }

  lemma {:induction false} CountCharAbsent(s: string, c: char)
    requires c !in s
    ensures CountChar(s, c) == 0
    decreases |s|
  {
    if |s| > 0 {
      assert c !in s[..|s| - 1];
      CountCharAbsent(s[..|s| - 1], c);
    }
  }

  /** A piece is a '.' or one line with its newline. */
  lemma PieceNewlines(lines: seq<string>, i: nat)
    requires i < |lines| && '\n' !in lines[i]
    ensures CountChar(Piece(lines, i), '\n') == if Piece(lines, i) == "." then 0 else 1
    ensures i >= MaxLines && i != |lines| - 1 ==> Piece(lines, i) == "."
  {
    if Piece(lines, i) != "." {
      CountCharAbsent(lines[i], '\n');
      CountCharConcat(lines[i], "\n", '\n');
      assert CountChar("\n", '\n') == 1;
    }
  }

  /** Among the first k pieces at most min(k, 5) lines, plus the last line once k reaches
      it, are printed in full. */
  lemma {:induction false} PiecesNewlines(lines: seq<string>, k: nat)
    requires k <= |lines|
    requires forall j :: 0 <= j < |lines| ==> '\n' !in lines[j]
    ensures CountChar(Pieces(lines, k), '\n') <= (if k < MaxLines then k else MaxLines) + (if k == |lines| && k > MaxLines then 1 else 0)
  {
    if k > 0 {
      PiecesNewlines(lines, k - 1);
      CountCharConcat(Pieces(lines, k - 1), Piece(lines, k - 1), '\n');
      PieceNewlines(lines, k - 1);
    }
  }

  /** At most six stack lines survive in full: the first five retained lines and the last. */
  lemma ReduceStackShowsAtMostSixLines(stack: string)
    ensures CountChar(ReduceStack(stack), '\n') <= MaxLines + 1
  {
    var lines := Retained(Split(stack, '\n'));
    ReduceStackIsPieces(stack);
    forall j | 0 <= j < |lines| ensures '\n' !in lines[j] {
      assert lines[j] in lines;
    }
    PiecesNewlines(lines, |lines|);
  }

  /** `plural(cnt, unit)`: the count, a space, the unit, and "s" unless the count is 1. */
  function Plural(cnt: int, unit: string): string {
    Decimal.IntToString(cnt) + " " + unit + (if cnt == 1 then "" else "s")
  }

  /** The count can be read back from the text in front of the first space, and the unit
      follows with a plural "s" exactly when the count is not 1. */
  lemma PluralReadsBack(cnt: int, unit: string)
    ensures var s := Plural(cnt, unit);
      && ' ' in s
      && Decimal.ParseInt(s[..IndexOf(s, ' ')]) == Some(cnt)
      && (s[IndexOf(s, ' ') + 1..] == unit + "s" <==> cnt != 1)
      && (s[IndexOf(s, ' ') + 1..] == unit <==> cnt == 1)
  {
    var s := Plural(cnt, unit);
    var d := Decimal.IntToString(cnt);
    assert s == d + [' '] + (unit + (if cnt == 1 then "" else "s"));
    IndexOfAfterPrefix(d, ' ', unit + (if cnt == 1 then "" else "s"));
    var i := IndexOf(s, ' ');
    assert s[..i] == d;
    Decimal.IntToStringRoundTrip(cnt);
    assert s[i + 1..] == unit + (if cnt == 1 then "" else "s");
    if cnt == 1 {
      assert |unit + "s"| != |unit|;
    }
  }
}
