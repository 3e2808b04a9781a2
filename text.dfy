/**
 * The JavaScript string operations the pipeline relies on, on `seq<char>`:
 * decimal digits and their values (`Number` on a digit string, template
 * interpolation of a natural number), `indexOf`, `split` and `join` with a
 * string separator, and `replace` with a string pattern (first occurrence only).
 */
module Text {
  import opened Wrappers

  // ---------------------------------------------------------------------------
  // Decimal digits

  /** `\d` in a JavaScript regular expression: an ASCII digit. */
  predicate IsDigit(c: char) {
    '0' <= c <= '9'
  }

  predicate AllDigits(s: string) {
    forall i :: 0 <= i < |s| ==> IsDigit(s[i])
  }

  function DigitValue(c: char): (d: nat)
    requires IsDigit(c)
    ensures d < 10
  {
    c as int - '0' as int
  }

  function DigitChar(d: nat): (c: char)
    requires d < 10
    ensures IsDigit(c) && DigitValue(c) == d
  {
    ('0' as int + d) as char
  }

  /** The number a string of decimal digits denotes (leading zeros allowed). */
  function DecimalValue(s: string): nat
    requires AllDigits(s)
  {
    if s == [] then 0 else 10 * DecimalValue(s[..|s| - 1]) + DigitValue(s[|s| - 1])
  }

  /**
   * The decimal text of a natural number, as a template literal `${n}` prints it:
   * no leading zero, one digit for n < 10, two for n < 100, three or more beyond.
   */
  function NatToDecimal(n: nat): (r: string)
    ensures |r| > 0 && AllDigits(r)
    ensures DecimalValue(r) == n
    ensures r[0] == '0' ==> n == 0
    ensures n < 10 <==> |r| == 1
    ensures 10 <= n < 100 <==> |r| == 2
  {
    if n < 10 then [DigitChar(n)]
    else
      var r := NatToDecimal(n / 10) + [DigitChar(n % 10)];
      assert r[..|r| - 1] == NatToDecimal(n / 10);
      r
  }

  /** Two-digit zero-padded decimal, as in the fields of an ISO time of day. */
  function Pad2(n: nat): (r: string)
    requires n < 100
    ensures |r| == 2 && AllDigits(r) && DecimalValue(r) == n
  {
    var r := [DigitChar(n / 10), DigitChar(n % 10)];
    assert r[..1] == [DigitChar(n / 10)] && r[..1][..0] == [];
    assert DecimalValue(r[..1]) == n / 10;
    r
  }

  // ---------------------------------------------------------------------------
  // Searching

  /** `p` occurs in `s` starting at position `k`. */
  predicate OccursAt(s: string, p: string, k: nat) {
    k + |p| <= |s| && s[k..k + |p|] == p
  }

  ghost predicate Contains(s: string, p: string) {
    exists k: nat :: OccursAt(s, p, k)
  }

  /** `s.indexOf(p, from)`: the first occurrence of `p` at or after `from`. */
  function IndexOfFrom(s: string, p: string, from: nat): (r: Option<nat>)
    decreases |s| - from
    ensures r.Some? ==> from <= r.value && OccursAt(s, p, r.value)
    ensures r.Some? ==> forall k: nat :: from <= k < r.value ==> !OccursAt(s, p, k)
    ensures r.None? ==> forall k: nat :: from <= k ==> !OccursAt(s, p, k)
  {
    if from + |p| > |s| then None
    else if s[from..from + |p|] == p then Some(from)
    else IndexOfFrom(s, p, from + 1)
  }

  function IndexOf(s: string, p: string): Option<nat> {
    IndexOfFrom(s, p, 0)
  }

  // ---------------------------------------------------------------------------
  // split, join, replace

  /**
   * `s.split(sep)` for a non-empty string separator: cut at every occurrence
   * found by scanning left to right, occurrences not overlapping.
   */
  function Split(s: string, sep: string): (r: seq<string>)
    requires |sep| > 0
    decreases |s|
    ensures |r| >= 1
  {
    match IndexOf(s, sep)
    case None => [s]
    case Some(k) => [s[..k]] + Split(s[k + |sep|..], sep)
  }

  /** The sequences of `xs` one after another. */
  function Concat<T>(xs: seq<seq<T>>): seq<T> {
    if xs == [] then [] else Concat(xs[..|xs| - 1]) + xs[|xs| - 1]
  }

  /** `xs.join(sep)`; an empty array joins to the empty string. */
  function Join(xs: seq<string>, sep: string): string {
    if |xs| == 0 then ""
    else if |xs| == 1 then xs[0]
    else xs[0] + sep + Join(xs[1..], sep)
  }

  /** `s.replace(pat, rep)` with a string pattern: only the first occurrence is replaced. */
  function ReplaceFirst(s: string, pat: string, rep: string): string {
    match IndexOf(s, pat)
    case None => s
    case Some(k) => s[..k] + rep + s[k + |pat|..]
  }

  // ---------------------------------------------------------------------------
  // Properties

  /** Joining the pieces of a split with the same separator gives back the string. */
  lemma {:induction false} JoinSplit(s: string, sep: string)
    requires |sep| > 0
    ensures Join(Split(s, sep), sep) == s
    decreases |s|
  {
    match IndexOf(s, sep)
    case None =>
    case Some(k) =>
      var rest := Split(s[k + |sep|..], sep);
      JoinSplit(s[k + |sep|..], sep);
      assert Split(s, sep) == [s[..k]] + rest;
      assert ([s[..k]] + rest)[1..] == rest;
      assert s[k..k + |sep|] == sep;
      assert s == s[..k] + sep + s[k + |sep|..];
  }

  /** A join starts with its first piece and ends with its last. */
  lemma {:induction false} JoinEnds(xs: seq<string>, sep: string)
    requires |xs| >= 1
    ensures xs[0] <= Join(xs, sep)
    ensures var whole, last := Join(xs, sep), xs[|xs| - 1];
      |last| <= |whole| && whole[|whole| - |last|..] == last
  {
    if |xs| > 1 {
      var rest := Join(xs[1..], sep);
      JoinEnds(xs[1..], sep);
      assert xs[1..][|xs[1..]| - 1] == xs[|xs| - 1];
      assert Join(xs, sep) == (xs[0] + sep) + rest;
    }
  }

  /** An occurrence inside a prefix is an occurrence in the whole string. */
  lemma OccursInPrefix(s: string, p: string, n: nat, t: nat)
    requires n <= |s| && OccursAt(s[..n], p, t)
    ensures OccursAt(s, p, t)
  {
    assert s[..n][t..t + |p|] == s[t..t + |p|];
  }

  /** No piece of a split contains the separator. */
  lemma {:induction false} SplitPiecesFree(s: string, sep: string)
    requires |sep| > 0
    ensures forall i :: 0 <= i < |Split(s, sep)| ==> !Contains(Split(s, sep)[i], sep)
    decreases |s|
  {
    match IndexOf(s, sep)
    case None =>
    case Some(k) =>
      var rest := Split(s[k + |sep|..], sep);
      SplitPiecesFree(s[k + |sep|..], sep);
      assert Split(s, sep) == [s[..k]] + rest;
      forall t: nat | OccursAt(s[..k], sep, t)
        ensures false
      {
        OccursInPrefix(s, sep, k, t);
      }
  }

  /** A string free of the separator splits into itself alone. */
  lemma SplitWithout(s: string, sep: string)
    requires |sep| > 0 && !Contains(s, sep)
    ensures Split(s, sep) == [s]
  {
    assert forall k: nat :: !OccursAt(s, sep, k);
  }

  /** Splitting `a + [c] + b` on the one-character separator `[c]`, where `a` and `b` lack `c`. */
  lemma SplitAtSingleChar(a: string, c: char, b: string)
    requires c !in a && c !in b
    ensures Split(a + [c] + b, [c]) == [a, b]
  {
    var s := a + [c] + b;
    assert OccursAt(s, [c], |a|);
    forall t: nat | t < |a| ensures !OccursAt(s, [c], t) {
      assert s[t] == a[t];
    }
    assert IndexOf(s, [c]) == Some(|a|);
    assert s[..|a|] == a && s[|a| + 1..] == b;
    forall t: nat ensures !OccursAt(b, [c], t) {
      if t < |b| { assert b[t..t + 1] == [b[t]]; }
    }
    SplitWithout(b, [c]);
    assert Split(s, [c]) == [a] + Split(b, [c]);
  }

  /** Splitting on a one-character separator peels off the text before its first occurrence. */
  lemma SplitAtFirstChar(a: string, c: char, b: string)
    requires c !in a
    ensures Split(a + [c] + b, [c]) == [a] + Split(b, [c])
  {
    var s := a + [c] + b;
    assert OccursAt(s, [c], |a|);
    forall t: nat | t < |a| ensures !OccursAt(s, [c], t) {
      assert s[t] == a[t];
    }
    assert IndexOf(s, [c]) == Some(|a|);
    assert s[..|a|] == a && s[|a| + 1..] == b;
  }

  /** The empty string splits into one empty piece. */
  lemma SplitEmpty(sep: string)
    requires |sep| > 0
    ensures Split("", sep) == [""]
  {
  }

  lemma {:induction false} ConcatAppend<T>(xs: seq<seq<T>>, ys: seq<seq<T>>)
    ensures Concat(xs + ys) == Concat(xs) + Concat(ys)
    decreases |ys|
  {
    if ys == [] {
      assert xs + ys == xs;
    } else {
      var ys' := ys[..|ys| - 1];
      ConcatAppend(xs, ys');
      assert (xs + ys)[..|xs + ys| - 1] == xs + ys';
      assert (xs + ys)[|xs + ys| - 1] == ys[|ys| - 1];
    }
  }

  // ---------------------------------------------------------------------------
  // Lines


  /** A line free of line breaks, a line break, then text that splits into `lines`. */
  lemma LineThen(a: string, rest: string, lines: seq<string>)
    requires '\n' !in a && Split(rest, "\n") == lines
    ensures Split(a + "\n" + rest, "\n") == [a] + lines
  {
    SplitAtFirstChar(a, '\n', rest);
  }
  lemma DecimalHasNoLineBreak(n: nat)
    ensures '\n' !in NatToDecimal(n)
  {
    var r := NatToDecimal(n);
    forall t | 0 <= t < |r| ensures r[t] != '\n' { assert IsDigit(r[t]); }
  }
  /** Three lines free of line breaks, each ended by one. */
  lemma ThreeLines(a: string, b: string, c: string)
    requires '\n' !in a && '\n' !in b && '\n' !in c
    ensures Split(a + "\n" + b + "\n" + c + "\n", "\n") == [a, b, c, ""]
  {
    SplitEmpty("\n");
    LineThen(c, "", [""]);
    LineThen(b, c + "\n" + "", [c] + [""]);
    LineThen(a, b + "\n" + (c + "\n" + ""), [b] + ([c] + [""]));
    Regroup(a, b, c);
  }

  lemma Regroup(a: string, b: string, c: string)
    ensures a + "\n" + b + "\n" + c + "\n" == a + "\n" + (b + "\n" + (c + "\n" + ""))
    ensures [a] + ([b] + ([c] + [""])) == [a, b, c, ""]
  {
  }

  /** Three lines free of line breaks, each ended by one, then a blank line. */
  lemma ThreeLinesThenBlank(a: string, b: string, c: string)
    requires '\n' !in a && '\n' !in b && '\n' !in c
    ensures Split(a + "\n" + b + "\n" + c + "\n\n", "\n") == [a, b, c, "", ""]
  {
    var lines := a + "\n" + b + "\n" + c + "\n";
    assert a + "\n" + b + "\n" + c + "\n\n" == lines + "\n" + "";
    ThreeLines(a, b, c);
    SplitAround(lines, '\n', "");
    SplitEmpty("\n");
  }

  /** Splitting on a one-character separator distributes over an occurrence of it. */
  lemma {:induction false} SplitAround(a: string, c: char, b: string)
    ensures Split(a + [c] + b, [c]) == Split(a, [c]) + Split(b, [c])
    decreases |a|
  {
    match IndexOf(a, [c])
    case None =>
      NoFirstChar(a, c);
      SplitAtFirstChar(a, c, b);
      SplitWithout(a, [c]);
    case Some(k) =>
      var a1, a2 := a[..k], a[k + 1..];
      FirstCharAt(a, c, k);
      calc {
        Split(a + [c] + b, [c]);
        { assert a + [c] + b == a1 + [c] + a2 + [c] + b; }
        Split(a1 + [c] + a2 + [c] + b, [c]);
        { SplitPeel(a1, a2, c, b); }
        [a1] + Split(a2 + [c] + b, [c]);
        { SplitAround(a2, c, b); }
        [a1] + (Split(a2, [c]) + Split(b, [c]));
        ([a1] + Split(a2, [c])) + Split(b, [c]);
        Split(a, [c]) + Split(b, [c]);
      }
  }

  lemma SplitPeel(a1: string, a2: string, c: char, b: string)
    requires c !in a1
    ensures Split(a1 + [c] + a2 + [c] + b, [c]) == [a1] + Split(a2 + [c] + b, [c])
  {
    assert a1 + [c] + a2 + [c] + b == a1 + [c] + (a2 + [c] + b);
    SplitAtFirstChar(a1, c, a2 + [c] + b);
  }

  lemma NoFirstChar(a: string, c: char)
    requires IndexOf(a, [c]).None?
    ensures c !in a && !Contains(a, [c])
  {
    forall t | 0 <= t < |a| ensures a[t] != c {
      assert !OccursAt(a, [c], t);
      assert a[t..t + 1] == [a[t]];
    }
  }

  lemma FirstCharAt(a: string, c: char, k: nat)
    requires IndexOf(a, [c]) == Some(k)
    ensures k < |a| && c !in a[..k]
    ensures a == a[..k] + [c] + a[k + 1..]
    ensures Split(a, [c]) == [a[..k]] + Split(a[k + 1..], [c])
  {
    FirstCharFound(a, c, k);
    FirstCharBefore(a, c, k);
    SplitAroundIndex(a, k);
  }

  lemma FirstCharFound(a: string, c: char, k: nat)
    requires IndexOf(a, [c]) == Some(k)
    ensures k < |a| && a[k] == c
  {
    assert OccursAt(a, [c], k);
    assert a[k] == a[k..k + 1][0];
  }

  lemma SplitAroundIndex(a: string, k: nat)
    requires k < |a|
    ensures a == a[..k] + [a[k]] + a[k + 1..]
  {
  }

  lemma FirstCharBefore(a: string, c: char, k: nat)
    requires IndexOf(a, [c]) == Some(k)
    ensures c !in a[..k]
  {
    forall t | 0 <= t < k ensures a[t] != c {
      assert !OccursAt(a, [c], t);
      assert a[t..t + 1] == [a[t]];
    }
  }

  /** The lines of each text, text by text. */
  function LinesOf(xs: seq<string>): (r: seq<seq<string>>)
    ensures |r| == |xs|
    ensures forall i :: 0 <= i < |xs| ==> r[i] == Split(xs[i], "\n")
  {
    if xs == [] then [] else [Split(xs[0], "\n")] + LinesOf(xs[1..])
  }

  /**
   * The lines of texts joined by line breaks are the lines of each text, one
   * text after another.
   */
  lemma {:induction false} SplitJoin(xs: seq<string>)
    requires |xs| >= 1
    ensures Split(Join(xs, "\n"), "\n") == Concat(LinesOf(xs))
    decreases |xs|
  {
    if |xs| == 1 {
      assert LinesOf(xs) == [] + [Split(xs[0], "\n")];
    } else {
      SplitJoin(xs[1..]);
      SplitJoinStep(xs);
    }
  }

  lemma ConcatSingle<T>(x: seq<T>)
    ensures Concat([x]) == x
  {
    assert [x][..0] == [];
  }

  /** The step of `SplitJoin`: the lines of the first text, then those of the rest. */
  lemma SplitJoinStep(xs: seq<string>)
    requires |xs| >= 2
    requires Split(Join(xs[1..], "\n"), "\n") == Concat(LinesOf(xs[1..]))
    ensures Split(Join(xs, "\n"), "\n") == Concat(LinesOf(xs))
  {
    var first, rest := Split(xs[0], "\n"), LinesOf(xs[1..]);
    assert LinesOf(xs) == [first] + rest;
    calc {
      Split(Join(xs, "\n"), "\n");
      Split(xs[0] + "\n" + Join(xs[1..], "\n"), "\n");
      { SplitAround(xs[0], '\n', Join(xs[1..], "\n")); }
      first + Split(Join(xs[1..], "\n"), "\n");
      first + Concat(rest);
      { ConcatSingle(first); }
      Concat([first]) + Concat(rest);
      { ConcatAppend([first], rest); }
      Concat([first] + rest);
    }
  }

  /** A character absent from a string is absent from every piece of its split. */
  lemma {:induction false} SplitPiecesWithout(s: string, sep: string, c: char)
    requires |sep| > 0 && c !in s
    ensures forall i :: 0 <= i < |Split(s, sep)| ==> c !in Split(s, sep)[i]
    decreases |s|
  {
    match IndexOf(s, sep)
    case None =>
    case Some(k) =>
      SplitPiecesWithout(s[k + |sep|..], sep, c);
      assert Split(s, sep) == [s[..k]] + Split(s[k + |sep|..], sep);
  }
}
