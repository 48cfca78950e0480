/** The parts of Python's `str` behaviour that the modelled code relies on:
    whitespace stripping, `startswith`/`endswith`, substring search,
    `split` on a one-character separator and `join`, file line iteration,
    `splitlines`, and the ordering `<` on strings.  Characters are Unicode
    scalar values, as Python's code points are. */
module PyStrings {

  /** `c.isspace()`: the characters Python's `str.strip()` removes. */
  predicate IsSpace(c: char) {
    || c == ' ' || ('\t' <= c <= '\r') || ('\U{1c}' <= c <= '\U{1f}')
    || c == '\U{85}' || c == '\U{a0}' || c == '\U{1680}'
    || ('\U{2000}' <= c <= '\U{200a}') || c == '\U{2028}' || c == '\U{2029}'
    || c == '\U{202f}' || c == '\U{205f}' || c == '\U{3000}'
  }

  /** The characters at which `str.splitlines` breaks a line. */
  predicate IsLineBoundary(c: char) {
    || c == '\n' || c == '\r' || c == '\U{0b}' || c == '\U{0c}'
    || ('\U{1c}' <= c <= '\U{1e}') || c == '\U{85}' || c == '\U{2028}' || c == '\U{2029}'
  }

  predicate StartsWith(s: string, p: string) {
    |p| <= |s| && s[..|p|] == p
  }

  predicate EndsWith(s: string, p: string) {
    |p| <= |s| && s[|s| - |p|..] == p
  }

  /** `t in s` for strings: `t` occurs in `s` at some position. */
  predicate Contains(s: string, t: string)
    decreases |s|
  {
    StartsWith(s, t) || (s != [] && Contains(s[1..], t))
  }

  lemma {:induction false} ContainsAt(s: string, t: string, i: nat)
    requires i + |t| <= |s| && s[i..i + |t|] == t
    ensures Contains(s, t)
    decreases i
  {
    if i == 0 {
      assert s[..|t|] == t;
    } else {
      assert s[1..][i - 1..i - 1 + |t|] == t;
      ContainsAt(s[1..], t, i - 1);
    }
  }

  lemma {:induction false} ContainsInSuffix(s: string, t: string, n: nat)
    requires n <= |s| && Contains(s[n..], t)
    ensures Contains(s, t)
    decreases n
  {
    if n > 0 {
      assert s[1..][n - 1..] == s[n..];
      ContainsInSuffix(s[1..], t, n - 1);
    }
  }

  /** `s.lstrip()`: what is left after leading whitespace. */
  function LStrip(s: string): (r: string)
    ensures |r| <= |s|
    ensures r == [] || !IsSpace(r[0])
    ensures forall k :: 0 <= k < |s| - |r| ==> IsSpace(s[k])
  {
    if s != [] && IsSpace(s[0]) then
      var r := LStrip(s[1..]);
      assert forall k :: 1 <= k < |s| - |r| ==> s[k] == s[1..][k - 1];
      r
    else s
  }

  /** `s.rstrip()`: what is left after trailing whitespace. */
  function RStrip(s: string): (r: string)
    ensures |r| <= |s| && r == s[..|r|]
    ensures r == [] || !IsSpace(r[|r| - 1])
    ensures forall k :: |r| <= k < |s| ==> IsSpace(s[k])
  {
    if s != [] && IsSpace(s[|s| - 1]) then
      var r := RStrip(s[..|s| - 1]);
      assert forall k :: |r| <= k < |s| - 1 ==> s[k] == s[..|s| - 1][k];
      r
    else s
  }

  /** `s.strip()`. */
  function Strip(s: string): string {
    RStrip(LStrip(s))
  }

  /** Stripping is the identity on a string that neither starts nor ends with whitespace. */
  lemma StripKeepsInner(s: string)
    requires s == [] || (!IsSpace(s[0]) && !IsSpace(s[|s| - 1]))
    ensures Strip(s) == s
  {
  }

  lemma StripTrailingSpace(s: string, c: char)
    requires IsSpace(c)
    ensures Strip(s + [c]) == Strip(s)
  {
    var t := s + [c];
    if s == [] {
      assert LStrip(t) == [];
    } else if IsSpace(s[0]) {
      assert t[1..] == s[1..] + [c];
      StripTrailingSpace(s[1..], c);
      assert LStrip(s) == LStrip(s[1..]);
    } else {
      assert LStrip(t) == t && LStrip(s) == s;
      assert t[..|t| - 1] == s;
    }
  }

  /** `c.lower()` for an ASCII character. */
  function LowerChar(c: char): char {
    if 'A' <= c <= 'Z' then (c as int + 32) as char else c
  }

  /** `s.lower()` restricted to ASCII letters, which is all a URL scheme holds. */
  function LowerAscii(s: string): (r: string)
    ensures |r| == |s|
    ensures forall k :: 0 <= k < |s| ==> r[k] == LowerChar(s[k])
  {
    if s == [] then [] else [LowerChar(s[0])] + LowerAscii(s[1..])
  }

  /** The split after a separator-free first piece. */
  lemma SplitAfterFreePrefix(p: string, rest: string, c: char)
    requires c !in p
    ensures Split(p + [c] + rest, c) == [p] + Split(rest, c)
  {
    var s := p + [c] + rest;
    FindAfterFreePrefix(p, rest, c);
    assert s[..|p|] == p && s[|p| + 1..] == rest;
  }

  /** The first piece of a split is the text before the first separator. */
  lemma FirstPiece(s: string, c: char)
    ensures Split(s, c)[0] == s[..Find(s, c)]
  {
    if Find(s, c) == |s| {
      assert s[..|s|] == s;
    }
  }

  /** `Find` is pinned down by its postcondition. */
  lemma FindIs(s: string, c: char, i: nat)
    requires i <= |s| && forall k :: 0 <= k < i ==> s[k] != c
    requires i < |s| ==> s[i] == c
    ensures Find(s, c) == i
  {
  }

  /** Index of the first `c` in `s`, or `|s|` when there is none. */
  function Find(s: string, c: char): (r: nat)
    ensures r <= |s|
    ensures forall k :: 0 <= k < r ==> s[k] != c
    ensures r < |s| ==> s[r] == c
  {
    if s == [] then 0 else if s[0] == c then 0 else 1 + Find(s[1..], c)
  }

  /** `s.split(c)` for a one-character separator. */
  function Split(s: string, c: char): (r: seq<string>)
    ensures |r| >= 1
    ensures forall k :: 0 <= k < |r| ==> c !in r[k]
    decreases |s|
  {
    var i := Find(s, c);
    if i == |s| then [s] else [s[..i]] + Split(s[i + 1..], c)
  }

  /** `sep.join(pieces)`. */
  function Join(pieces: seq<string>, sep: string): string
    decreases |pieces|
  {
    if pieces == [] then ""
    else if |pieces| == 1 then pieces[0]
    else pieces[0] + sep + Join(pieces[1..], sep)
  }

  /** Joining the pieces of a split restores the string. */
  lemma {:induction false} JoinSplit(s: string, c: char)
    ensures Join(Split(s, c), [c]) == s
    decreases |s|
  {
    var i := Find(s, c);
    if i < |s| {
      var rest := Split(s[i + 1..], c);
      JoinSplit(s[i + 1..], c);
      assert Split(s, c) == [s[..i]] + rest;
      assert Join(Split(s, c), [c]) == s[..i] + [c] + Join(rest, [c]);
      assert s == s[..i] + [c] + s[i + 1..];
    }
  }

  /** Splitting a join of separator-free pieces gives the pieces back. */
  lemma {:induction false} SplitJoin(pieces: seq<string>, c: char)
    requires pieces != []
    requires forall k :: 0 <= k < |pieces| ==> c !in pieces[k]
    ensures Split(Join(pieces, [c]), c) == pieces
    decreases |pieces|
  {
    var s := Join(pieces, [c]);
    if |pieces| == 1 {
      assert Find(s, c) == |s|;
    } else {
      var p := pieces[0];
      var rest := Join(pieces[1..], [c]);
      assert s == p + [c] + rest;
      FindAfterFreePrefix(p, rest, c);
      assert s[..|p|] == p && s[|p| + 1..] == rest;
      SplitJoin(pieces[1..], c);
    }
  }

  lemma FindAfterFreePrefix(p: string, rest: string, c: char)
    requires c !in p
    ensures Find(p + [c] + rest, c) == |p|
  {
    var s := p + [c] + rest;
    forall k | 0 <= k < |p|
      ensures s[k] != c
    {
      assert s[k] == p[k];
    }
    assert s[|p|] == c;
  }

  /** Joining two non-empty lists puts one separator between their joins. */
  lemma {:induction false} JoinAppend(xs: seq<string>, ys: seq<string>, sep: string)
    requires xs != [] && ys != []
    ensures Join(xs + ys, sep) == Join(xs, sep) + sep + Join(ys, sep)
    decreases |xs|
  {
    if |xs| == 1 {
      assert (xs + ys)[1..] == ys;
    } else {
      assert (xs + ys)[1..] == xs[1..] + ys;
      JoinAppend(xs[1..], ys, sep);
    }
  }

  /** Every piece occurs in the joined string. */
  lemma {:induction false} JoinContainsPiece(pieces: seq<string>, sep: string, k: nat)
    requires k < |pieces|
    ensures Contains(Join(pieces, sep), pieces[k])
    decreases |pieces|
  {
    var s := Join(pieces, sep);
    if |pieces| == 1 {
      ContainsAt(s, pieces[0], 0);
    } else {
      var rest := Join(pieces[1..], sep);
      assert s == pieces[0] + sep + rest;
      if k == 0 {
        assert s[..|pieces[0]|] == pieces[0];
        ContainsAt(s, pieces[0], 0);
      } else {
        JoinContainsPiece(pieces[1..], sep, k - 1);
        var n := |pieces[0] + sep|;
        assert s[n..] == rest;
        ContainsInSuffix(s, pieces[k], n);
      }
    }
  }

  /** The concatenation of a sequence of strings. */
  function Concat(ls: seq<string>): string
    decreases |ls|
  {
    if ls == [] then "" else ls[0] + Concat(ls[1..])
  }

  lemma {:induction false} ConcatAppend(a: seq<string>, b: seq<string>)
    ensures Concat(a + b) == Concat(a) + Concat(b)
    decreases |a|
  {
    if a != [] {
      assert (a + b)[1..] == a[1..] + b;
      ConcatAppend(a[1..], b);
    } else {
      assert a + b == b;
    }
  }

  /** Where a Python slice bound `i` lands in a sequence of length `n`: a
      negative bound counts from the end, and bounds are clamped. */
  function SliceBound(i: int, n: nat): (r: nat)
    ensures r <= n
    ensures 0 <= i <= n ==> r == i
  {
    if i < 0 then (if n + i < 0 then 0 else n + i) else if i > n then n else i
  }

  /** `xs[:j]`. */
  function PyTake<T>(xs: seq<T>, j: int): seq<T> {
    xs[..SliceBound(j, |xs|)]
  }

  /** `xs[i:]`. */
  function PyDrop<T>(xs: seq<T>, i: int): seq<T> {
    xs[SliceBound(i, |xs|)..]
  }

  /** `xs[i:j]`, empty when `i` lands after `j`. */
  function PySlice<T>(xs: seq<T>, i: int, j: int): seq<T> {
    var a := SliceBound(i, |xs|);
    var b := SliceBound(j, |xs|);
    if a <= b then xs[a..b] else []
  }

  /** The lines a text-mode file yields when iterated (or `readlines()`):
      each line runs up to and including a `'\n'`; the last may lack one. */
  function Lines(s: string): (r: seq<string>)
    ensures Concat(r) == s
    ensures forall k :: 0 <= k < |r| ==> r[k] != []
    decreases |s|
  {
    if s == [] then [] else
    var i := Find(s, '\n');
    if i == |s| then [s] else
    assert s == s[..i + 1] + s[i + 1..];
    [s[..i + 1]] + Lines(s[i + 1..])
  }

  /** Each line that `Lines` yields is well formed, and all but the last end
      with a newline. */
  lemma {:induction false} LinesShape(s: string)
    ensures Readable(Lines(s))
    decreases |s|
  {
    if s != [] {
      var i := Find(s, '\n');
      if i == |s| {
        assert Lines(s) == [s];
      } else {
        var l := s[..i + 1];
        var rest := Lines(s[i + 1..]);
        LinesShape(s[i + 1..]);
        assert Lines(s) == [l] + rest;
        assert l[i..] == "\n";
        assert IsLine(l) && EndsWith(l, "\n");
        forall k | 1 <= k < |Lines(s)|
          ensures Lines(s)[k] == rest[k - 1]
        {
        }
      }
    }
  }

  /** Text ending with a newline is read with a newline ending its last line. */
  lemma LinesLastBreak(s: string)
    requires s != [] && s[|s| - 1] == '\n'
    ensures Lines(s) != [] && EndsWith(Lines(s)[|Lines(s)| - 1], "\n")
  {
    var ls := Lines(s);
    ConcatNonEmpty(ls);
    ConcatLastChar(ls);
    var last := ls[|ls| - 1];
    assert last[|last| - 1..] == "\n";
  }

  lemma ConcatNonEmpty(ls: seq<string>)
    requires Concat(ls) != []
    ensures ls != []
  {
  }

  /** The last character of a concatenation comes from its last string. */
  lemma ConcatLastChar(ls: seq<string>)
    requires ls != [] && ls[|ls| - 1] != []
    ensures Concat(ls) != [] && Concat(ls)[|Concat(ls)| - 1] == ls[|ls| - 1][|ls[|ls| - 1]| - 1]
  {
    var last := ls[|ls| - 1];
    assert ls == ls[..|ls| - 1] + [last];
    ConcatAppend(ls[..|ls| - 1], [last]);
    assert Concat([last]) == last;
  }

  /** A sequence of strings whose last one ends with a newline concatenates
      to text ending with a newline. */
  lemma ConcatEndsWithBreak(ls: seq<string>)
    requires ls == [] || EndsWith(ls[|ls| - 1], "\n")
    ensures Concat(ls) == [] || Concat(ls)[|Concat(ls)| - 1] == '\n'
  {
    if ls != [] {
      var last := ls[|ls| - 1];
      assert ls == ls[..|ls| - 1] + [last];
      ConcatAppend(ls[..|ls| - 1], [last]);
      assert Concat([last]) == last;
      assert last[|last| - 1..] == "\n";
    }
  }

  /** A well-formed line: it holds no `'\n'` except, optionally, one at its end, and it is not empty. */
  predicate IsLine(l: string) {
    l != [] && forall k :: 0 <= k < |l| - 1 ==> l[k] != '\n'
  }

  /** What a text-mode read of lines can yield: well-formed lines, all but
      the last ending with a newline. */
  predicate Readable(ls: seq<string>) {
    && (forall k :: 0 <= k < |ls| ==> IsLine(ls[k]))
    && (forall k :: 0 <= k < |ls| - 1 ==> EndsWith(ls[k], "\n"))
  }

  /** Reading back the concatenation of well-formed lines gives the same
      lines, provided every line but the last ends with a newline. */
  lemma {:induction false} LinesOfConcat(ls: seq<string>)
    requires Readable(ls)
    ensures Lines(Concat(ls)) == ls
    decreases |ls|
  {
    if ls != [] {
      var l := ls[0];
      var rest := Concat(ls[1..]);
      var s := l + rest;
      assert Concat(ls) == s;
      if |ls| == 1 {
        assert rest == "";
        assert s == l;
        if l[|l| - 1] == '\n' {
          assert Find(s, '\n') == |l| - 1;
          assert s[|l|..] == [];
        } else {
          assert Find(s, '\n') == |s|;
        }
      } else {
        assert l[|l| - 1] == '\n';
        assert s[|l| - 1] == '\n';
        assert Find(s, '\n') == |l| - 1;
        assert s[..|l|] == l && s[|l|..] == rest;
        LinesOfConcat(ls[1..]);
      }
    }
  }

  /** Length of the first line of `s` under `splitlines`, with its line
      break; `"\r\n"` counts as one break. */
  function FirstLineLength(s: string): (n: nat)
    requires s != []
    ensures 0 < n <= |s|
  {
    var i := FindBoundary(s);
    if i == |s| then |s|
    else if s[i] == '\r' && i + 1 < |s| && s[i + 1] == '\n' then i + 2
    else i + 1
  }

  function FindBoundary(s: string): (r: nat)
    ensures r <= |s|
    ensures forall k :: 0 <= k < r ==> !IsLineBoundary(s[k])
    ensures r < |s| ==> IsLineBoundary(s[r])
  {
    if s == [] then 0 else if IsLineBoundary(s[0]) then 0 else 1 + FindBoundary(s[1..])
  }

  /** `s.splitlines()`: the lines, without their line breaks. */
  function SplitLines(s: string): seq<string>
    decreases |s|
  {
    if s == [] then [] else
    [s[..FindBoundary(s)]] + SplitLines(s[FirstLineLength(s)..])
  }

  /** `s.splitlines(keepends=True)`: the lines, each with its line break. */
  function SplitLinesKeepEnds(s: string): seq<string>
    decreases |s|
  {
    if s == [] then [] else
    var n := FirstLineLength(s);
    [s[..n]] + SplitLinesKeepEnds(s[n..])
  }

  /** With their line breaks kept, the lines put back together are the text. */
  lemma {:induction false} ConcatKeepEnds(s: string)
    ensures Concat(SplitLinesKeepEnds(s)) == s
    decreases |s|
  {
    if s != [] {
      var n := FirstLineLength(s);
      ConcatKeepEnds(s[n..]);
      assert SplitLinesKeepEnds(s) == [s[..n]] + SplitLinesKeepEnds(s[n..]);
      assert s == s[..n] + s[n..];
    }
  }

  /** A text without line boundaries is a single line. */
  lemma SingleLine(s: string)
    requires s != [] && forall k :: 0 <= k < |s| ==> !IsLineBoundary(s[k])
    ensures SplitLines(s) == [s]
  {
    NoBoundary(s);
    var n := FirstLineLength(s);
    assert n == |s|;
    assert s[n..] == [];
    assert SplitLines(s[n..]) == [];
    assert s[..FindBoundary(s)] == s;
  }

  lemma {:induction false} NoBoundary(s: string)
    requires forall k :: 0 <= k < |s| ==> !IsLineBoundary(s[k])
    ensures FindBoundary(s) == |s|
    decreases |s|
  {
    if s != [] {
      assert !IsLineBoundary(s[0]);
      assert forall k :: 0 <= k < |s[1..]| ==> s[1..][k] == s[k + 1];
      NoBoundary(s[1..]);
    }
  }

  /** A line of `splitlines()` that begins with `t` means `t` occurs in the text. */
  lemma {:induction false} LinePrefixOccurs(s: string, t: string, k: nat)
    requires k < |SplitLines(s)| && StartsWith(SplitLines(s)[k], t)
    ensures Contains(s, t)
    decreases |s|
  {
    var i := FindBoundary(s);
    var n := FirstLineLength(s);
    var rest := SplitLines(s[n..]);
    assert SplitLines(s) == [s[..i]] + rest;
    if k == 0 {
      var line := s[..i];
      assert |t| <= |line| && line[..|t|] == t;
      assert s[..|t|] == line[..|t|];
      assert StartsWith(s, t);
    } else {
      assert rest[k - 1] == SplitLines(s)[k];
      LinePrefixOccurs(s[n..], t, k - 1);
      ContainsInSuffix(s, t, n);
    }
  }

  /** Python's `a < b` on strings: the first differing code point decides,
      and a proper prefix comes first. */
  predicate Less(a: string, b: string)
    decreases |a|
  {
    if a == [] then b != []
    else if b == [] then false
    else if a[0] != b[0] then a[0] < b[0]
    else Less(a[1..], b[1..])
  }

  lemma {:induction false} LessIrreflexive(a: string)
    ensures !Less(a, a)
    decreases |a|
  {
    if a != [] { LessIrreflexive(a[1..]); }
  }

  lemma {:induction false} LessTransitive(a: string, b: string, c: string)
    requires Less(a, b) && Less(b, c)
    ensures Less(a, c)
    decreases |a|
  {
    if a != [] && b != [] && c != [] && a[0] == b[0] && b[0] == c[0] {
      LessTransitive(a[1..], b[1..], c[1..]);
    }
  }

  lemma {:induction false} LessTotal(a: string, b: string)
    requires a != b
    ensures Less(a, b) || Less(b, a)
    decreases |a|
  {
    if a != [] && b != [] && a[0] == b[0] {
      assert a == [a[0]] + a[1..] && b == [b[0]] + b[1..];
      LessTotal(a[1..], b[1..]);
    }
  }

  /** The number a string of decimal digits denotes, most significant first. */
  function DecimalValue(s: string): int
    decreases |s|
  {
    if s == [] then 0 else 10 * DecimalValue(s[..|s| - 1]) + (s[|s| - 1] as int - 48)
  }

  /** `str(n)` for a natural number: its decimal digits, without leading zeros. */
  function NatToString(n: nat): (r: string)
    ensures r != []
    ensures forall k :: 0 <= k < |r| ==> '0' <= r[k] <= '9'
    ensures DecimalValue(r) == n
    ensures |r| > 1 ==> r[0] != '0'
  {
    if n < 10 then [(48 + n) as char]
    else
      var p := NatToString(n / 10);
      var r := p + [(48 + n % 10) as char];
      assert r[..|r| - 1] == p;
      r
  }

  /** A number is written as the digits of its tens followed by its last digit. */
  lemma NatToStringDigit(q: nat, d: nat)
    requires q > 0 && d < 10
    ensures NatToString(10 * q + d) == NatToString(q) + [(48 + d) as char]
  {
  }
}
