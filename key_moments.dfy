/**
 * The key-moment parser of the process route. The text-generation reply is
 * split on "\n"; a line is kept when the regular expression
 * `^(\d+)-(\d+):\s*(.+)$` matches it as a whole. A kept line contributes the
 * key `"<first>-<second>"` (the two digit groups as written) and the caption
 * (the third group, neither trimmed nor unquoted). Other lines are skipped
 * without error. Also here: how the rest of the route decodes a key again,
 * `key.split("-").map(Number)`.
 */
module KeyMoments {
  import opened Wrappers
  import opened Text

  // ---------------------------------------------------------------------------
  // Character classes of JavaScript regular expressions

  /** The characters `.` does not match. */
  predicate IsLineTerminator(c: char) {
    c == '\n' || c == '\r' || c == '\U{2028}' || c == '\U{2029}'
  }

  /** `\s`: the ECMAScript white space and line terminator characters. */
  predicate IsWhitespace(c: char) {
    || IsLineTerminator(c)
    || c == '\t' || c == '\U{B}' || c == '\U{C}' || c == ' ' || c == '\U{A0}'
    || c == '\U{1680}' || ('\U{2000}' <= c <= '\U{200A}') || c == '\U{202F}'
    || c == '\U{205F}' || c == '\U{3000}' || c == '\U{FEFF}'
  }

  predicate AllWhitespace(s: string) {
    forall i :: 0 <= i < |s| ==> IsWhitespace(s[i])
  }

  /** Every character of `s` can be matched by `.`. */
  predicate NoTerminators(s: string) {
    forall i :: 0 <= i < |s| ==> !IsLineTerminator(s[i])
  }

  // ---------------------------------------------------------------------------
  // Matching one line

  /** What a successful match hands back: the two digit groups and the caption group. */
  datatype LineMatch = LineMatch(first: string, second: string, caption: string)

  /** End of the run of digits that starts at `from`. */
  function DigitsEnd(line: string, from: nat): (e: nat)
    requires from <= |line|
    decreases |line| - from
    ensures from <= e <= |line| && AllDigits(line[from..e])
    ensures e < |line| ==> !IsDigit(line[e])
  {
    if from < |line| && IsDigit(line[from]) then DigitsEnd(line, from + 1) else from
  }

  /** End of the run of `\s` characters that starts at `from`. */
  function WhitespaceEnd(line: string, from: nat): (e: nat)
    requires from <= |line|
    decreases |line| - from
    ensures from <= e <= |line| && AllWhitespace(line[from..e])
    ensures e < |line| ==> !IsWhitespace(line[e])
  {
    if from < |line| && IsWhitespace(line[from]) then WhitespaceEnd(line, from + 1) else from
  }

  /**
   * `line.match(/^(\d+)-(\d+):\s*(.+)$/)`. The digit groups are greedy and
   * end at the first non-digit, which must be `-` and then `:`. The greedy
   * `\s*` takes all leading white space unless that leaves nothing for `.+`,
   * in which case it gives back the last character. `.+$` then needs every
   * remaining character to be a non-terminator.
   */
  function MatchLine(line: string): (r: Option<LineMatch>)
    ensures r.Some? ==>
      && r.value.first != [] && r.value.second != [] && r.value.caption != []
      && |r.value.first| + |r.value.second| + 2 + |r.value.caption| <= |line|
  {
    var i := DigitsEnd(line, 0);
    if i == 0 || i == |line| || line[i] != '-' then None
    else
      var j := DigitsEnd(line, i + 1);
      if j == i + 1 || j == |line| || line[j] != ':' then None
      else
        var w := WhitespaceEnd(line, j + 1);
        var k := if w < |line| then w else |line| - 1;
        if k <= j || !NoTerminators(line[k..]) then None
        else Some(LineMatch(line[..i], line[i + 1..j], line[k..]))
  }

  /**
   * The regular expression accepts `line` with the groups ending at `i`
   * (first digits), `j` (second digits) and the caption starting at `k`:
   * `line[..i]` digits, `-`, `line[i+1..j]` digits, `:`, `line[j+1..k]`
   * white space, `line[k..]` at least one non-terminator.
   */
  predicate RegexAccepts(line: string, i: nat, j: nat, k: nat) {
    && 0 < i && i + 1 < j && j < k < |line|
    && AllDigits(line[..i]) && line[i] == '-'
    && AllDigits(line[i + 1..j]) && line[j] == ':'
    && AllWhitespace(line[j + 1..k]) && NoTerminators(line[k..])
  }

  /**
   * A match is an accepting split of the line into digits, `-`, digits, `:`,
   * white space and caption; the groups are the raw pieces of the line, and
   * the caption starts at the latest position any accepting split allows
   * (greedy `\s*`).
   */
  lemma MatchLineSound(line: string, m: LineMatch)
    requires MatchLine(line) == Some(m)
    ensures var i := |m.first|;
      var j := i + 1 + |m.second|;
      var k := |line| - |m.caption|;
      && RegexAccepts(line, i, j, k)
      && m.first == line[..i] && m.second == line[i + 1..j] && m.caption == line[k..]
      && forall k' :: k < k' ==> !RegexAccepts(line, i, j, k')
  {
    var i := DigitsEnd(line, 0);
    var j := DigitsEnd(line, i + 1);
    var w := WhitespaceEnd(line, j + 1);
    var k := if w < |line| then w else |line| - 1;
    MatchLineFound(line, i, j, w, k);
    AcceptedSplit(line, i, j, w, k);
    GroupsAt(line, m, i, j, k);
  }

  /** The groups of an accepting split with the latest caption start, read back off their lengths. */
  lemma GroupsAt(line: string, m: LineMatch, i: nat, j: nat, k: nat)
    requires RegexAccepts(line, i, j, k) && forall k' :: k < k' ==> !RegexAccepts(line, i, j, k')
    requires m == LineMatch(line[..i], line[i + 1..j], line[k..])
    ensures var i := |m.first|;
      var j := i + 1 + |m.second|;
      var k := |line| - |m.caption|;
      && RegexAccepts(line, i, j, k)
      && m.first == line[..i] && m.second == line[i + 1..j] && m.caption == line[k..]
      && forall k' :: k < k' ==> !RegexAccepts(line, i, j, k')
  {
    assert |m.first| == i && |m.first| + 1 + |m.second| == j && |line| - |m.caption| == k;
  }

  /** When the checks of `MatchLine` pass, it matches with these groups. */
  lemma MatchLineWhen(line: string, i: nat, j: nat, w: nat, k: nat)
    requires i == DigitsEnd(line, 0) && 0 < i < |line| && line[i] == '-'
    requires j == DigitsEnd(line, i + 1) && i + 1 < j < |line| && line[j] == ':'
    requires w == WhitespaceEnd(line, j + 1) && k == (if w < |line| then w else |line| - 1)
    requires j < k && NoTerminators(line[k..])
    ensures MatchLine(line) == Some(LineMatch(line[..i], line[i + 1..j], line[k..]))
  {
  }

  /** What `MatchLine` checked on its way to a match. */
  lemma MatchLineFound(line: string, i: nat, j: nat, w: nat, k: nat)
    requires MatchLine(line).Some?
    requires i == DigitsEnd(line, 0)
    requires i < |line| && j == DigitsEnd(line, i + 1)
    requires j < |line| && w == WhitespaceEnd(line, j + 1) && k == (if w < |line| then w else |line| - 1)
    ensures 0 < i < |line| && line[i] == '-'
    ensures i + 1 < j < |line| && line[j] == ':'
    ensures j < k && NoTerminators(line[k..])
    ensures MatchLine(line).value == LineMatch(line[..i], line[i + 1..j], line[k..])
  {
  }

  /** The positions `MatchLine` finds form an accepting split with the latest caption start. */
  lemma AcceptedSplit(line: string, i: nat, j: nat, w: nat, k: nat)
    requires i == DigitsEnd(line, 0) && 0 < i < |line| && line[i] == '-'
    requires i + 1 <= |line| && j == DigitsEnd(line, i + 1) && i + 1 < j < |line| && line[j] == ':'
    requires w == WhitespaceEnd(line, j + 1) && k == (if w < |line| then w else |line| - 1)
    requires j < k && NoTerminators(line[k..])
    ensures RegexAccepts(line, i, j, k)
    ensures forall k' :: k < k' ==> !RegexAccepts(line, i, j, k')
  {
    assert line[..i] == line[0..i];
    CaptionStartSound(line, j, w, k);
  }

  lemma CaptionStartSound(line: string, j: nat, w: nat, k: nat)
    requires j < |line| && w == WhitespaceEnd(line, j + 1)
    requires k == (if w < |line| then w else |line| - 1) && j < k
    ensures AllWhitespace(line[j + 1..k])
    ensures forall i, k' :: k < k' ==> !RegexAccepts(line, i, j, k')
  {
    var ws, prefix := line[j + 1..w], line[j + 1..k];
    forall t | 0 <= t < |prefix| ensures IsWhitespace(prefix[t]) {
      assert prefix[t] == ws[t];
    }
    forall i, k' | k < k' ensures !RegexAccepts(line, i, j, k') {
      if k' < |line| && w < |line| {
        assert line[j + 1..k'][w - (j + 1)] == line[w];
      }
    }
  }

  /** Any accepting split of the line makes the match succeed, with the same digit groups. */
  lemma MatchLineComplete(line: string, i: nat, j: nat, k: nat)
    requires RegexAccepts(line, i, j, k)
    ensures MatchLine(line).Some?
    ensures MatchLine(line).value.first == line[..i]
    ensures MatchLine(line).value.second == line[i + 1..j]
  {
    assert line[..i][0] == line[0];
    assert !IsDigit(line[i]);
    DigitsEndAt(line, 0, i);
    assert line[i + 1..j][0] == line[i + 1];
    assert !IsDigit(line[j]);
    DigitsEndAt(line, i + 1, j);
    var w := WhitespaceEnd(line, j + 1);
    WhitespaceEndAtLeast(line, j + 1, k);
    var k0 := if w < |line| then w else |line| - 1;
    assert line[k0..] == line[k..][k0 - k..];
    MatchLineWhen(line, i, j, w, k0);
  }

  lemma DigitsEndAt(line: string, from: nat, e: nat)
    requires from <= e < |line| && AllDigits(line[from..e]) && !IsDigit(line[e])
    ensures DigitsEnd(line, from) == e
    decreases e - from
  {
    if from < e {
      assert line[from..e][0] == line[from];
      assert line[from + 1..e] == line[from..e][1..];
      DigitsEndAt(line, from + 1, e);
    }
  }

  lemma WhitespaceEndAtLeast(line: string, from: nat, e: nat)
    requires from <= e <= |line| && AllWhitespace(line[from..e])
    ensures WhitespaceEnd(line, from) >= e
    decreases e - from
  {
    if from < e {
      assert line[from..e][0] == line[from];
      assert line[from + 1..e] == line[from..e][1..];
      WhitespaceEndAtLeast(line, from + 1, e);
    }
  }

  /**
   * Matching a line built in the prompt's format gives back its parts: the two
   * digit strings and the caption, provided the caption is a non-empty run of
   * non-terminators that does not itself start with white space.
   */
  lemma MatchLineOfParts(first: string, second: string, ws: string, caption: string)
    requires |first| > 0 && AllDigits(first) && |second| > 0 && AllDigits(second)
    requires AllWhitespace(ws) && |caption| > 0 && NoTerminators(caption) && !IsWhitespace(caption[0])
    ensures MatchLine(first + "-" + second + ":" + ws + caption) == Some(LineMatch(first, second, caption))
  {
    var line := first + "-" + second + ":" + ws + caption;
    var i := |first|;
    var j := i + 1 + |second|;
    var k := j + 1 + |ws|;
    assert line[..i] == first && line[i] == '-';
    assert line[i + 1..j] == second && line[j] == ':';
    assert line[j + 1..k] == ws && line[k..] == caption;
    MatchLineAt(line, i, j, k);
  }

  /** An accepting split whose caption does not start with white space is the match. */
  lemma MatchLineAt(line: string, i: nat, j: nat, k: nat)
    requires RegexAccepts(line, i, j, k) && !IsWhitespace(line[k])
    ensures MatchLine(line) == Some(LineMatch(line[..i], line[i + 1..j], line[k..]))
  {
    assert DigitsEnd(line, 0) == i by {
      assert line[..i][0] == line[0];
      DigitsEndAt(line, 0, i);
    }
    assert DigitsEnd(line, i + 1) == j by {
      assert line[i + 1..j][0] == line[i + 1];
      DigitsEndAt(line, i + 1, j);
    }
    assert WhitespaceEnd(line, j + 1) == k by {
      WhitespaceEndAtLeast(line, j + 1, k);
      WhitespaceStopsAt(line, j + 1, WhitespaceEnd(line, j + 1), k);
    }
    MatchLineWhen(line, i, j, k, k);
  }

  /** A run of white space cannot reach past a character that is not white space. */
  lemma WhitespaceStopsAt(line: string, from: nat, e: nat, k: nat)
    requires from <= e <= |line| && AllWhitespace(line[from..e])
    requires from <= k < |line| && !IsWhitespace(line[k])
    ensures e <= k
  {
  }

  /** The line format the prompt asks for gives its two numbers and the rest of the line. */
  lemma MatchLineExample()
    ensures MatchLine("10-30: Hello world") == Some(LineMatch("10", "30", "Hello world"))
  {
    assert "10-30: Hello world" == "10" + "-" + "30" + ":" + " " + "Hello world";
    MatchLineOfParts("10", "30", " ", "Hello world");
  }

  /** Quotes stay in the caption, and nothing checks that the end exceeds the start. */
  lemma MatchLineKeepsQuotes()
    ensures MatchLine("30-10: \"Dream big.\"") == Some(LineMatch("30", "10", "\"Dream big.\""))
  {
    assert "30-10: \"Dream big.\"" == "30" + "-" + "10" + ":" + " " + "\"Dream big.\"";
    MatchLineOfParts("30", "10", " ", "\"Dream big.\"");
  }

  /** When only white space follows the colon, `\s*` gives back one character for the caption. */
  lemma MatchLineBacktracks()
    ensures MatchLine("7-9:  ") == Some(LineMatch("7", "9", " "))
  {
    var line := "7-9:  ";
    DigitsEndAt(line, 0, 1);
    DigitsEndAt(line, 2, 3);
    assert WhitespaceEnd(line, 5) == 6;
    assert WhitespaceEnd(line, 4) == 6;
    assert line[..1] == "7" && line[2..3] == "9" && line[5..] == " ";
    assert NoTerminators(line[5..]);
  }

  /** A carriage return at the end of a line defeats `.+$`, so the line is skipped. */
  lemma MatchLineRejectsCarriageReturn()
    ensures MatchLine("10-30: Hello\r") == None
  {
    var line := "10-30: Hello\r";
    DigitsEndAt(line, 0, 2);
    DigitsEndAt(line, 3, 5);
    assert WhitespaceEnd(line, 6) == 7;
    assert line[7..][5] == '\r';
  }

  /** Prose lines are skipped. */
  lemma MatchLineRejectsProse()
    ensures MatchLine("not-a-match") == None
  {
    assert DigitsEnd("not-a-match", 0) == 0;
  }

  // ---------------------------------------------------------------------------
  // Keys

  /** The key a kept line contributes: `${match[1]}-${match[2]}`. */
  function KeyOf(m: LineMatch): (key: string)
    ensures |key| == |m.first| + 1 + |m.second|
    ensures '-' !in m.first && '-' !in m.second ==> Split(key, "-") == [m.first, m.second]
  {
    SplitKey(m.first, m.second);
    m.first + "-" + m.second
  }

  /** A key whose two groups have no `-` splits back into those groups. */
  lemma SplitKey(first: string, second: string)
    ensures '-' !in first && '-' !in second ==> Split(first + "-" + second, "-") == [first, second]
  {
    if '-' !in first && '-' !in second {
      SplitAtSingleChar(first, '-', second);
    }
  }

  /**
   * `Number(part)` for the strings a key splits into: the empty string is 0,
   * a run of ASCII digits is its decimal value, anything else is NaN (`None`).
   */
  function ToNumber(part: string): Option<nat> {
    if part == "" then Some(0)
    else if AllDigits(part) then Some(DecimalValue(part))
    else None
  }

  /**
   * `const [start, end] = key.split("-").map(Number)`: `None` when either
   * value is NaN or missing (an absent second piece is `undefined`).
   */
  function DecodeKey(key: string): (r: Option<(nat, nat)>)
    ensures r.Some? ==> Contains(key, "-")
  {
    KeyWithoutDash(key);
    var parts := Split(key, "-");
    if |parts| < 2 then None
    else
      match (ToNumber(parts[0]), ToNumber(parts[1]))
      case (Some(start), Some(end)) => Some((start, end))
      case _ => None
  }

  /** A key without `-` splits into one piece only, so its second value is `undefined`. */
  lemma KeyWithoutDash(key: string)
    ensures !Contains(key, "-") ==> |Split(key, "-")| == 1
  {
    if !Contains(key, "-") {
      SplitWithout(key, "-");
    }
  }

  /** Decoding a stored key gives back exactly the two integers the line carried. */
  lemma KeyRoundTrip(line: string, m: LineMatch)
    requires MatchLine(line) == Some(m)
    ensures AllDigits(m.first) && AllDigits(m.second)
    ensures DecodeKey(KeyOf(m)) == Some((DecimalValue(m.first), DecimalValue(m.second)))
  {
    MatchLineSound(line, m);
    assert '-' !in m.first by {
      forall t | 0 <= t < |m.first| ensures m.first[t] != '-' {
        assert IsDigit(m.first[t]);
      }
    }
    assert '-' !in m.second by {
      forall t | 0 <= t < |m.second| ensures m.second[t] != '-' {
        assert IsDigit(m.second[t]);
      }
    }
    SplitAtSingleChar(m.first, '-', m.second);
  }

  // ---------------------------------------------------------------------------
  // The whole reply

  /** The match of every line of the reply, in line order. */
  function MatchAll(lines: seq<string>): (ms: seq<Option<LineMatch>>)
    ensures |ms| == |lines| && forall n :: 0 <= n < |lines| ==> ms[n] == MatchLine(lines[n])
  {
    seq(|lines|, n requires 0 <= n < |lines| => MatchLine(lines[n]))
  }

  /** Positions of the matches that succeeded, in line order. */
  function Kept<T>(ms: seq<Option<T>>): (kept: seq<nat>)
    ensures forall k :: 0 <= k < |kept| ==> kept[k] < |ms| && ms[kept[k]].Some?
    ensures forall k, l :: 0 <= k < l < |kept| ==> kept[k] < kept[l]
    ensures forall n :: 0 <= n < |ms| && ms[n].Some? ==> n in kept
  {
    if ms == [] then []
    else
      var last := |ms| - 1;
      var front := Kept(ms[..last]);
      assert forall n :: 0 <= n < last ==> ms[..last][n] == ms[n];
      front + (if ms[last].Some? then [last] else [])
  }

  lemma KeptSnoc<T>(ms: seq<Option<T>>, i: nat)
    requires i < |ms|
    ensures Kept(ms[..i + 1]) == Kept(ms[..i]) + (if ms[i].Some? then [i] else [])
  {
    assert ms[..i + 1][..i] == ms[..i];
  }

  /**
   * `keyMoments` and `captions` hold, in order, the key and the caption of
   * every successful match among the first `i` entries of `ms`.
   */
  ghost predicate Collected(ms: seq<Option<LineMatch>>, i: nat, keyMoments: seq<string>, captions: seq<string>)
    requires i <= |ms|
  {
    var kept := Kept(ms[..i]);
    && |keyMoments| == |kept| && |captions| == |kept|
    && forall k :: 0 <= k < |kept| ==>
         && keyMoments[k] == KeyOf(ms[kept[k]].value)
         && captions[k] == ms[kept[k]].value.caption
  }

  /** One turn of the parse loop keeps `Collected`: a match is pushed, anything else skipped. */
  lemma CollectStep(ms: seq<Option<LineMatch>>, i: nat, keyMoments: seq<string>, captions: seq<string>)
    requires i < |ms| && Collected(ms, i, keyMoments, captions)
    ensures ms[i].Some? ==>
      Collected(ms, i + 1, keyMoments + [KeyOf(ms[i].value)], captions + [ms[i].value.caption])
    ensures ms[i].None? ==> Collected(ms, i + 1, keyMoments, captions)
  {
    KeptSnoc(ms, i);
  }

  /**
   * The parse loop: for each line of the reply, in order, a match pushes its
   * key onto `keyMoments` and its caption onto `captions`.
   */
  method ExtractKeyMoments(reply: string) returns (keyMoments: seq<string>, captions: seq<string>)
    ensures var ms := MatchAll(Split(reply, "\n")); var kept := Kept(ms);
      && |keyMoments| == |kept| && |captions| == |kept|
      && forall k :: 0 <= k < |kept| ==>
           && keyMoments[k] == KeyOf(ms[kept[k]].value)
           && captions[k] == ms[kept[k]].value.caption
  {
    var lines := Split(reply, "\n");
    ghost var ms := MatchAll(lines);
    keyMoments, captions := [], [];
    var i := 0;
    while i < |lines|
      invariant 0 <= i <= |lines|
      invariant Collected(ms, i, keyMoments, captions)
    {
      CollectStep(ms, i, keyMoments, captions);
      var m := MatchLine(lines[i]);
      assert m == ms[i];
      if m.Some? {
        keyMoments := keyMoments + [KeyOf(m.value)];
        captions := captions + [m.value.caption];
      }
      i := i + 1;
    }
    assert ms[..i] == ms;
  }
}
