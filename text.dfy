/** Text primitives shared by the utterance parser and the receipt extractors: the character
    classes of JavaScript regular expressions, ASCII case folding, substring search, `trim`,
    `split('\n')`, and hand-coded pieces of the fixed regular expressions the sources use.

    A fixed pattern is modelled as a matcher on the suffix that starts at a candidate position
    (none of the patterns looks behind or is anchored), so `String.prototype.match` is the
    leftmost position where the matcher succeeds (`FindFirst`) and a global `replace` is
    `ReplaceAll`. */
module Text {

  datatype Option<T> = None | Some(value: T)

  /** `\d` (ASCII digits only, as in JavaScript). */
  predicate IsDigit(c: char) {
    '0' <= c <= '9'
  }

  /** `\s` in a JavaScript regular expression; `String.prototype.trim` strips the same set. */
  predicate IsSpace(c: char) {
    c == '\t' || c == '\n' || c == '\U{000B}' || c == '\U{000C}' || c == '\r' || c == ' ' ||
    c == '\U{00A0}' || c == '\U{1680}' || ('\U{2000}' <= c <= '\U{200A}') ||
    c == '\U{2028}' || c == '\U{2029}' || c == '\U{202F}' || c == '\U{205F}' ||
    c == '\U{3000}' || c == '\U{FEFF}'
  }

  function LowerChar(c: char): char {
    if 'A' <= c <= 'Z' then (c as int + 32) as char else c
  }

  /** `toLowerCase`, restricted to ASCII letters. */
  function Lower(s: string): (r: string)
    ensures |r| == |s|
  {
    seq(|s|, i requires 0 <= i < |s| => LowerChar(s[i]))
  }

  predicate StartsWith(s: string, p: string) {
    |p| <= |s| && s[..|p|] == p
  }

  /** Prefix test under the `i` flag of a regular expression. */
  predicate StartsWithFolded(s: string, p: string) {
    |p| <= |s| && Lower(s[..|p|]) == Lower(p)
  }

  /** `s.includes(p)`. */
  function Contains(s: string, p: string): (b: bool)
    ensures b <==> exists i :: 0 <= i <= |s| && StartsWith(s[i..], p)
    decreases |s|
  {
    if StartsWith(s, p) then
      assert StartsWith(s[0..], p);
      true
    else if s == [] then
      false
    else
      var b := Contains(s[1..], p);
      assert forall i :: 1 <= i <= |s| ==> s[i..] == s[1..][i - 1..];
      b
  }

  /** Number of leading characters of s that satisfy p (a greedy `p*`). */
  function LeadingRun(s: string, p: char -> bool): (n: nat)
    ensures n <= |s|
    ensures forall k :: 0 <= k < n ==> p(s[k])
    ensures n < |s| ==> !p(s[n])
  {
    if s != [] && p(s[0]) then 1 + LeadingRun(s[1..], p) else 0
  }

  /** A run whose every character satisfies p and which is followed by one that does not is the
      leading run. */
  lemma {:induction false} LeadingRunIs(s: string, p: char -> bool, n: nat)
    requires n <= |s| && (forall k :: 0 <= k < n ==> p(s[k])) && (n < |s| ==> !p(s[n]))
    ensures LeadingRun(s, p) == n
  {
    if n > 0 {
      assert p(s[0]);
      assert forall k :: 0 <= k < n - 1 ==> s[1..][k] == s[k + 1];
      LeadingRunIs(s[1..], p, n - 1);
    }
  }

  /** Number of trailing characters of s that satisfy p. */
  function TrailingRun(s: string, p: char -> bool): (n: nat)
    ensures n <= |s|
    ensures forall k :: |s| - n <= k < |s| ==> p(s[k])
    ensures n < |s| ==> !p(s[|s| - n - 1])
  {
    if s != [] && p(s[|s| - 1]) then 1 + TrailingRun(s[..|s| - 1], p) else 0
  }

  /** `String.prototype.trim`. */
  function Trim(s: string): (r: string)
    ensures |r| <= |s|
    ensures r != [] ==> !IsSpace(r[0]) && !IsSpace(r[|r| - 1])
    ensures r == [] <==> forall k :: 0 <= k < |s| ==> IsSpace(s[k])
    ensures s != [] && !IsSpace(s[0]) && !IsSpace(s[|s| - 1]) ==> r == s
  {
    var a := LeadingRun(s, IsSpace);
    if a == |s| then [] else s[a..|s| - TrailingRun(s[a..], IsSpace)]
  }

  /** What Trim removes is white space only: its result is a slice of the input
    * with nothing but white space before and after it. */
  lemma TrimIsSlice(s: string)
    ensures exists a, b :: (0 <= a <= b <= |s| && Trim(s) == s[a..b] &&
                            (forall k :: 0 <= k < a ==> IsSpace(s[k])) &&
                            (forall k :: b <= k < |s| ==> IsSpace(s[k])))
  {
    var a := LeadingRun(s, IsSpace);
    if a == |s| {
      assert Trim(s) == s[a..a];
    } else {
      var b := |s| - TrailingRun(s[a..], IsSpace);
      assert forall k :: b <= k < |s| ==> s[k] == s[a..][k - a];
      assert Trim(s) == s[a..b];
    }
  }

  function DigitValue(c: char): nat
    requires IsDigit(c)
  {
    c as int - '0' as int
  }

  predicate AllDigits(ds: string) {
    forall k :: 0 <= k < |ds| ==> IsDigit(ds[k])
  }

  /** `parseInt` of a string of ASCII digits. */
  function DigitsValue(ds: string): (v: nat)
    requires AllDigits(ds)
    ensures |ds| > 0 && v == 0 ==> DigitValue(ds[|ds| - 1]) == 0
  {
    if ds == [] then 0 else DigitsValue(ds[..|ds| - 1]) * 10 + DigitValue(ds[|ds| - 1])
  }

  /** The value of the digits after a decimal point: 0.d1d2d3… */
  function FractionValue(ds: string): (v: real)
    requires AllDigits(ds)
    ensures 0.0 <= v < 1.0
  {
    if ds == [] then 0.0 else (DigitValue(ds[0]) as real + FractionValue(ds[1..])) / 10.0
  }

  /** A numeral matched by `\d+(?:\.\d+)?`: its value (as `parseFloat` reads it) and its length. */
  datatype Numeral = Numeral(value: real, length: nat)

  /** `\d+(?:\.\d+)?` at the start of s. Greedy matching is final: the character after a
      shorter digit run is a digit, which no continuation used by the sources accepts. */
  function ScanNumeral(s: string): (r: Option<Numeral>)
    ensures r.Some? <==> s != [] && IsDigit(s[0])
    ensures r.Some? ==> 0 < r.value.length <= |s| && r.value.value >= 0.0
    ensures r.Some? ==> r.value.length == |s| || !IsDigit(s[r.value.length])
  {
    var a := LeadingRun(s, IsDigit);
    if a == 0 then None
    else if a + 1 < |s| && s[a] == '.' && IsDigit(s[a + 1]) then
      var b := LeadingRun(s[a + 1..], IsDigit);
      Some(Numeral(DigitsValue(s[..a]) as real + FractionValue(s[a + 1..a + 1 + b]), a + 1 + b))
    else
      Some(Numeral(DigitsValue(s[..a]) as real, a))
  }

  /** Index of the first word in `words` that starts s, compared case-insensitively: an
      alternation `(?:w1|w2|…)` under the `i` flag. */
  function FirstWordAt(s: string, words: seq<string>): (r: Option<nat>)
    ensures r.Some? ==> r.value < |words| && StartsWithFolded(s, words[r.value])
    ensures r.Some? ==> forall j :: 0 <= j < r.value ==> !StartsWithFolded(s, words[j])
    ensures r.None? ==> forall j :: 0 <= j < |words| ==> !StartsWithFolded(s, words[j])
  {
    if words == [] then None
    else if StartsWithFolded(s, words[0]) then Some(0)
    else match FirstWordAt(s, words[1..])
      case None => None
      case Some(k) => Some(k + 1)
  }

  /** `(\d+(?:\.\d+)?)\s*(?:w1|w2|…)` at the start of s: the number and the match length. */
  function NumberThenWord(s: string, words: seq<string>): (r: Option<(real, nat)>)
    ensures r.Some? ==> 0 < r.value.1 <= |s| && IsDigit(s[0]) && r.value.0 >= 0.0
  {
    match ScanNumeral(s)
    case None => None
    case Some(n) =>
      var w := n.length + LeadingRun(s[n.length..], IsSpace);
      match FirstWordAt(s[w..], words)
      case None => None
      case Some(k) => Some((n.value, w + |words[k]|))
  }

  /** A numeral of length len, directly followed by word k of the list, is the match. */
  lemma NumberThenWordAt(s: string, words: seq<string>, len: nat, k: nat)
    requires ScanNumeral(s).Some? && ScanNumeral(s).value.length == len
    requires LeadingRun(s[len..], IsSpace) == 0 && FirstWordAt(s[len..], words) == Some(k)
    ensures NumberThenWord(s, words) == Some((ScanNumeral(s).value.value, len + |words[k]|))
  {
  }

  /** `w\s*(\d+(?:\.\d+)?)` at the start of s, for a fixed word w: the number and the match length. */
  function WordThenNumber(s: string, w: string): (r: Option<(real, nat)>)
    ensures r.Some? ==> StartsWithFolded(s, w) && r.value.1 <= |s| && r.value.0 >= 0.0
  {
    if !StartsWithFolded(s, w) then None
    else
      var k := |w| + LeadingRun(s[|w|..], IsSpace);
      match ScanNumeral(s[k..])
      case None => None
      case Some(n) => Some((n.value, k + n.length))
  }

  /** `(\d{1,2})` read greedily at the start of s: its value and length (0 when s does not
      start with a digit). */
  function OneOrTwoDigits(s: string): (r: (nat, nat))
    ensures r.1 <= 2 && r.1 <= |s|
    ensures r.1 > 0 <==> s != [] && IsDigit(s[0])
  {
    if |s| >= 2 && IsDigit(s[0]) && IsDigit(s[1]) then (DigitsValue(s[..2]), 2)
    else if s != [] && IsDigit(s[0]) then (DigitsValue(s[..1]), 1)
    else (0, 0)
  }

  /** The index of the first element satisfying p: a `for … of` loop returning at the first hit. */
  function FirstWhere<T>(xs: seq<T>, p: T -> bool): (r: Option<nat>)
    ensures r.Some? ==> r.value < |xs| && p(xs[r.value])
    ensures r.Some? ==> forall j :: 0 <= j < r.value ==> !p(xs[j])
    ensures r.None? ==> forall j :: 0 <= j < |xs| ==> !p(xs[j])
  {
    if xs == [] then None
    else if p(xs[0]) then Some(0)
    else
      assert forall k :: 1 <= k < |xs| ==> xs[k] == xs[1..][k - 1];
      match FirstWhere(xs[1..], p)
      case None => None
      case Some(k) => Some(k + 1)
  }

  /** The elements satisfying keep, in their order: `Array.prototype.filter`. */
  function Filter<T>(xs: seq<T>, keep: T -> bool): (r: seq<T>)
    ensures |r| <= |xs|
    ensures forall k :: 0 <= k < |r| ==> keep(r[k])
    ensures forall x :: x in r ==> x in xs
    ensures forall x :: x in xs && keep(x) ==> x in r
  {
    if xs == [] then []
    else
      assert forall x :: x in xs ==> x == xs[0] || x in xs[1..];
      (if keep(xs[0]) then [xs[0]] else []) + Filter(xs[1..], keep)
  }

  /** Filtering a concatenation filters each part and keeps their order. */
  lemma {:induction false} FilterAppend<T>(a: seq<T>, b: seq<T>, keep: T -> bool)
    ensures Filter(a + b, keep) == Filter(a, keep) + Filter(b, keep)
    decreases |a|
  {
    if a == [] {
      assert a + b == b;
    } else {
      assert (a + b)[0] == a[0];
      assert (a + b)[1..] == a[1..] + b;
      FilterAppend(a[1..], b, keep);
    }
  }

  /** The values f finds in the elements, in their order, none for an element it skips. */
  function Collect<T, U>(xs: seq<T>, f: T -> Option<U>): (r: seq<U>)
    ensures |r| <= |xs|
    ensures forall k :: 0 <= k < |r| ==> exists j :: 0 <= j < |xs| && f(xs[j]) == Some(r[k])
  {
    if xs == [] then []
    else
      var init := Collect(xs[..|xs| - 1], f);
      assert forall j :: 0 <= j < |xs| - 1 ==> xs[..|xs| - 1][j] == xs[j];
      var last := f(xs[|xs| - 1]);
      init + (if last.Some? then [last.value] else [])
  }
  /** Collecting one more element adds that element's result, if any, at the end. */
  lemma CollectStep<T, U>(xs: seq<T>, i: nat, f: T -> Option<U>)
    requires i < |xs|
    ensures Collect(xs[..i + 1], f) == Collect(xs[..i], f) + (if f(xs[i]).Some? then [f(xs[i]).value] else [])
  {
    assert xs[..i + 1][..i] == xs[..i];
    assert xs[..i + 1][i] == xs[i];
  }


  /** Collecting over a concatenation collects over each part, in order. */
  lemma {:induction false} CollectAppend<T, U>(a: seq<T>, b: seq<T>, f: T -> Option<U>)
    ensures Collect(a + b, f) == Collect(a, f) + Collect(b, f)
    decreases |b|
  {
    if b == [] {
      assert a + b == a;
    } else {
      var b' := b[..|b| - 1];
      assert (a + b)[..|a + b| - 1] == a + b';
      assert (a + b)[|a + b| - 1] == b[|b| - 1];
      CollectAppend(a, b', f);
    }
  }

  /** The first element satisfying p is the one found. */
  lemma {:induction false} FirstWhereIs<T>(xs: seq<T>, p: T -> bool, k: nat)
    requires k < |xs| && p(xs[k])
    requires forall j :: 0 <= j < k ==> !p(xs[j])
    ensures FirstWhere(xs, p) == Some(k)
  {
    if k > 0 {
      assert !p(xs[0]);
      assert forall j :: 0 <= j < k ==> xs[1..][j] == xs[j + 1];
      FirstWhereIs(xs[1..], p, k - 1);
    }
  }

  /** The leftmost position at or after `from` at which matcher m succeeds on the remaining
      suffix, and what it found there: `String.prototype.match` for a non-global pattern. */
  function FindFirst<T>(s: string, m: string -> Option<T>, from: nat): (r: Option<(nat, T)>)
    requires from <= |s|
    ensures r.Some? ==> from <= r.value.0 <= |s| && m(s[r.value.0..]) == Some(r.value.1)
    ensures r.Some? ==> forall j :: from <= j < r.value.0 ==> m(s[j..]).None?
    ensures r.None? ==> forall j :: from <= j <= |s| ==> m(s[j..]).None?
    decreases |s| - from
  {
    match m(s[from..])
    case Some(t) => Some((from, t))
    case None => if from == |s| then None else FindFirst(s, m, from + 1)
  }

  /** A global `replace(pattern, rep)`: scanning left to right, each match (of the length m
      reports at that position, 0 meaning none) is replaced by rep and scanning resumes after it. */
  function ReplaceAll(s: string, m: string -> nat, rep: string): (r: string)
    decreases |s|
  {
    if s == [] then []
    else if 0 < m(s) <= |s| then rep + ReplaceAll(s[m(s)..], m, rep)
    else [s[0]] + ReplaceAll(s[1..], m, rep)
  }

  /** Where the pattern matches nowhere, a global replace changes nothing. */
  lemma {:induction false} ReplaceAllNoMatch(s: string, m: string -> nat, rep: string)
    requires forall i :: 0 <= i < |s| ==> m(s[i..]) == 0
    ensures ReplaceAll(s, m, rep) == s
    decreases |s|
  {
    if s != [] {
      assert m(s[0..]) == 0;
      assert s[0..] == s;
      forall i | 0 <= i < |s[1..]|
        ensures m(s[1..][i..]) == 0
      {
        assert s[1..][i..] == s[i + 1..];
      }
      ReplaceAllNoMatch(s[1..], m, rep);
    }
  }

  /** A prefix at none of whose positions the matcher fires passes through unchanged. */
  lemma {:induction false} ReplaceAllSkip(a: string, t: string, m: string -> nat, rep: string)
    requires forall i :: 0 <= i < |a| ==> m((a + t)[i..]) == 0
    ensures ReplaceAll(a + t, m, rep) == a + ReplaceAll(t, m, rep)
    decreases |a|
  {
    var s := a + t;
    if a == [] {
      assert s == t;
    } else {
      assert s[0..] == s;
      assert s[1..] == a[1..] + t;
      forall i | 0 <= i < |a[1..]|
        ensures m((a[1..] + t)[i..]) == 0
      {
        assert (a[1..] + t)[i..] == s[i + 1..];
      }
      ReplaceAllSkip(a[1..], t, m, rep);
      assert ReplaceAll(s, m, rep) == [a[0]] + ReplaceAll(s[1..], m, rep);
      assert a == [a[0]] + a[1..];
    }
  }

  /** Number of occurrences of c in s. */
  function Count(s: string, c: char): nat {
    if s == [] then 0 else (if s[0] == c then 1 else 0) + Count(s[1..], c)
  }

  predicate NotBreak(c: char) {
    c != '\n'
  }

  /** `s.split('\n')`: the pieces between line breaks, in order; always at least one. */
  function SplitLines(s: string): (r: seq<string>)
    ensures |r| == Count(s, '\n') + 1
    ensures forall i :: 0 <= i < |r| ==> '\n' !in r[i]
    decreases |s|
  {
    var k := LeadingRun(s, NotBreak);
    if k == |s| then
      assert '\n' !in s by {
        forall i | 0 <= i < |s| ensures s[i] != '\n' { }
      }
      NoBreakCount(s);
      [s]
    else
      BreakCount(s, k);
      [s[..k]] + SplitLines(s[k + 1..])
  }

  lemma {:induction false} NoBreakCount(s: string)
    requires '\n' !in s
    ensures Count(s, '\n') == 0
  {
    if s != [] {
      assert '\n' !in s[1..];
      NoBreakCount(s[1..]);
    }
  }

  lemma {:induction false} BreakCount(s: string, k: nat)
    requires k < |s| && s[k] == '\n' && '\n' !in s[..k]
    ensures Count(s, '\n') == 1 + Count(s[k + 1..], '\n')
  {
    if k == 0 {
      assert s[1..] == s[k + 1..];
    } else {
      assert s[1..][..k - 1] == s[1..k];
      assert s[1..][k - 1 + 1..] == s[k + 1..];
      BreakCount(s[1..], k - 1);
    }
  }

  /** Joining lines with '\n' (`lines.join('\n')`). */
  function JoinLines(lines: seq<string>): string
    requires |lines| >= 1
  {
    if |lines| == 1 then lines[0] else lines[0] + "\n" + JoinLines(lines[1..])
  }

  /** Splitting at line breaks loses nothing: joining the pieces gives the text back. */
  lemma {:induction false} SplitJoin(s: string)
    ensures JoinLines(SplitLines(s)) == s
    decreases |s|
  {
    var k := LeadingRun(s, NotBreak);
    if k < |s| {
      var rest := SplitLines(s[k + 1..]);
      var lines := SplitLines(s);
      assert lines == [s[..k]] + rest;
      assert lines[0] == s[..k] && lines[1..] == rest;
      SplitJoin(s[k + 1..]);
      assert JoinLines(lines) == s[..k] + "\n" + JoinLines(rest);
      assert s == s[..k] + "\n" + s[k + 1..];
    } else {
      assert SplitLines(s) == [s];
    }
  }
}
