/** The clean-up of AI-suggested code and the patch splice in the
    autocorrect loops of `scan code` and `scan web`, and the same clean-up in
    `test generate` (src/main.py). */
module AutoFix {
  import opened PyStrings

  // ---------------------------------------------------------------------------
  // Markdown fences

  const Fence: string := "```"

  /** The stripped reply both starts and ends with a fence. */
  predicate Fenced(t: string) {
    StartsWith(t, Fence) && EndsWith(t, Fence)
  }

  /** `pieces[1:-1]`. */
  function Inner(pieces: seq<string>): seq<string> {
    if |pieces| < 2 then [] else pieces[1..|pieces| - 1]
  }

  /** The fence strip applied to an already stripped reply: a fenced text
      loses its first and last `\n`-separated lines. */
  function StripFence(t: string): string {
    if Fenced(t) then Join(Inner(Split(t, '\n')), "\n") else t
  }

  /** `call_ai_api(prompt).strip()` followed by the fence strip. */
  function CleanReply(reply: string): string {
    StripFence(Strip(reply))
  }

  /** Code wrapped in an opening fence line `` ```lang `` and a closing fence line. */
  function Wrapped(lang: string, code: string): string {
    Fence + lang + "\n" + code + "\n" + Fence
  }

  /** A text that is not fenced is kept as it is. */
  lemma UnfencedKept(reply: string)
    requires !Fenced(Strip(reply))
    ensures CleanReply(reply) == Strip(reply)
  {
  }

  /** The lines of a fenced text are its lines without the first and the last. */
  lemma FenceDropsOuterLines(t: string)
    requires Fenced(t) && |Split(t, '\n')| >= 3
    ensures Split(StripFence(t), '\n') == Split(t, '\n')[1..|Split(t, '\n')| - 1]
  {
    var pieces := Split(t, '\n');
    var inner := pieces[1..|pieces| - 1];
    assert forall k :: 0 <= k < |inner| ==> inner[k] == pieces[k + 1];
    SplitJoin(inner, '\n');
  }

  /** A fenced reply on a single line, such as `` ```x``` ``, is emptied. */
  lemma OneLineFenceEmptied(t: string)
    requires Fenced(t) && '\n' !in t
    ensures StripFence(t) == ""
  {
    FindIs(t, '\n', |t|);
    assert Split(t, '\n') == [t];
  }

  /** Stripping the fences of wrapped code gives the code back, whatever line
      breaks the code holds. */
  lemma WrappedRoundTrip(lang: string, code: string)
    requires '\n' !in lang
    ensures StripFence(Wrapped(lang, code)) == code
    ensures CleanReply(Wrapped(lang, code)) == code
  {
    var t := Wrapped(lang, code);
    WrappedIsFenced(lang, code);
    WrappedPieces(lang, code);
    var body := Split(code, '\n');
    assert Inner([Fence + lang] + body + [Fence]) == body;
    JoinSplit(code, '\n');
  }

  lemma WrappedIsFenced(lang: string, code: string)
    ensures Fenced(Wrapped(lang, code)) && Strip(Wrapped(lang, code)) == Wrapped(lang, code)
  {
    var t := Wrapped(lang, code);
    assert t[..3] == Fence && t[|t| - 3..] == Fence;
    assert t[0] == '`' && t[|t| - 1] == '`';
    StripKeepsInner(t);
  }

  /** The lines of wrapped code: the opening fence line, the code's lines and
      the closing fence. */
  lemma WrappedPieces(lang: string, code: string)
    requires '\n' !in lang
    ensures Split(Wrapped(lang, code), '\n') == [Fence + lang] + Split(code, '\n') + [Fence]
  {
    var head := Fence + lang;
    var body := Split(code, '\n');
    var pieces := [head] + body + [Fence];
    WrappedJoin(lang, code);
    assert '\n' !in head by {
      assert forall k :: 0 <= k < |head| ==> head[k] == (if k < 3 then Fence[k] else lang[k - 3]);
    }
    forall k | 0 <= k < |pieces|
      ensures '\n' !in pieces[k]
    {
      if 0 < k < |pieces| - 1 {
        assert pieces[k] == body[k - 1];
      }
    }
    SplitJoin(pieces, '\n');
  }

  lemma WrappedJoin(lang: string, code: string)
    ensures Join([Fence + lang] + Split(code, '\n') + [Fence], "\n") == Wrapped(lang, code)
  {
    var head := Fence + lang;
    var body := Split(code, '\n');
    JoinAppend([head], body, "\n");
    JoinAppend([head] + body, [Fence], "\n");
    JoinSplit(code, '\n');
  }

  // ---------------------------------------------------------------------------
  // The patch splice

  /** `"".join(file_lines[start_line - 1:end_line])`: the snippet shown to the
      AI and in the diff. */
  function Snippet(fileLines: seq<string>, startLine: int, endLine: int): string {
    Concat(PySlice(fileLines, startLine - 1, endLine))
  }

  /** The new file lines as the code builds them: the fix's lines, with
      their line breaks, in place of the snippet. */
  function SpliceAsWritten(fileLines: seq<string>, startLine: int, endLine: int, fix: string): seq<string> {
    PyTake(fileLines, startLine - 1) + SplitLinesKeepEnds(fix) + PyDrop(fileLines, endLine)
  }

  /** For a range inside the file, the lines before and after it are kept,
      and the written text is the old text with the snippet replaced by the fix. */
  lemma SpliceKeepsOutside(fileLines: seq<string>, startLine: int, endLine: int, fix: string)
    requires 1 <= startLine <= endLine <= |fileLines|
    ensures var r := SpliceAsWritten(fileLines, startLine, endLine, fix);
      && r[..startLine - 1] == fileLines[..startLine - 1]
      && r[|r| - (|fileLines| - endLine)..] == fileLines[endLine..]
    ensures Concat(fileLines) ==
      Concat(fileLines[..startLine - 1]) + Snippet(fileLines, startLine, endLine) + Concat(fileLines[endLine..])
    ensures Concat(SpliceAsWritten(fileLines, startLine, endLine, fix)) ==
      Concat(fileLines[..startLine - 1]) + fix + Concat(fileLines[endLine..])
  {
    var pre := fileLines[..startLine - 1];
    var mid := fileLines[startLine - 1..endLine];
    var suf := fileLines[endLine..];
    var lines := SplitLinesKeepEnds(fix);
    assert fileLines == pre + mid + suf;
    ConcatAppend(pre, mid);
    ConcatAppend(pre + mid, suf);
    ConcatAppend(pre, lines);
    ConcatAppend(pre + lines, suf);
    ConcatKeepEnds(fix);
  }

  /** The fix with a newline added when it does not already end with one. */
  function Terminated(fix: string): (r: string)
    ensures r == [] || r[|r| - 1] == '\n'
    ensures fix == [] || fix[|fix| - 1] == '\n' ==> r == fix
  {
    if fix == [] || fix[|fix| - 1] == '\n' then fix else fix + "\n"
  }

  /** The splice with the fix ended by a line break, so that its last line
      stays apart from the first kept line. */
  function Splice(fileLines: seq<string>, startLine: int, endLine: int, fix: string): seq<string> {
    SpliceAsWritten(fileLines, startLine, endLine, Terminated(fix))
  }

  lemma ReadableAppend(a: seq<string>, b: seq<string>)
    requires Readable(a) && Readable(b)
    requires a == [] || EndsWith(a[|a| - 1], "\n")
    ensures Readable(a + b)
  {
    forall k | 0 <= k < |a + b| - 1
      ensures EndsWith((a + b)[k], "\n")
    {
      if k < |a| { assert (a + b)[k] == a[k]; } else { assert (a + b)[k] == b[k - |a|]; }
    }
    forall k | 0 <= k < |a + b|
      ensures IsLine((a + b)[k])
    {
      if k < |a| { assert (a + b)[k] == a[k]; } else { assert (a + b)[k] == b[k - |a|]; }
    }
  }

  /** Writing the corrected splice and reading the file back gives the kept
      lines before the range, the fix's lines and the kept lines after it. */
  lemma SpliceReadBack(content: string, startLine: int, endLine: int, fix: string)
    requires 1 <= startLine <= endLine <= |Lines(content)|
    requires '\r' !in fix
    ensures Lines(Concat(Splice(Lines(content), startLine, endLine, fix))) ==
      Lines(content)[..startLine - 1] + Lines(Terminated(fix)) + Lines(content)[endLine..]
  {
    var ls := Lines(content);
    var target := ls[..startLine - 1] + Lines(Terminated(fix)) + ls[endLine..];
    SpliceText(ls, startLine, endLine, fix);
    SpliceReadable(content, startLine, endLine, fix);
    LinesOfConcat(target);
  }

  lemma SpliceText(ls: seq<string>, startLine: int, endLine: int, fix: string)
    requires 1 <= startLine <= endLine <= |ls|
    ensures Concat(ls[..startLine - 1] + Lines(Terminated(fix)) + ls[endLine..]) ==
      Concat(Splice(ls, startLine, endLine, fix))
  {
    var t := Terminated(fix);
    var pre := ls[..startLine - 1];
    var mid := Lines(t);
    var suf := ls[endLine..];
    SpliceKeepsOutside(ls, startLine, endLine, t);
    ConcatAppend(pre, mid);
    ConcatAppend(pre + mid, suf);
  }

  lemma SpliceReadable(content: string, startLine: int, endLine: int, fix: string)
    requires 1 <= startLine <= endLine <= |Lines(content)|
    ensures Readable(Lines(content)[..startLine - 1] + Lines(Terminated(fix)) + Lines(content)[endLine..])
  {
    var ls := Lines(content);
    var pre := ls[..startLine - 1];
    var mid := Lines(Terminated(fix));
    assert Readable(ls) by { LinesShape(content); }
    ReadablePrefix(ls, startLine - 1);
    ReadableSuffix(ls, endLine);
    ReadableBroken(Terminated(fix));
    ReadableAppend(pre, mid);
    ReadableAppend(pre + mid, ls[endLine..]);
  }

  /** The lines before a line that is not the last are readable and end with a newline. */
  lemma ReadablePrefix(ls: seq<string>, n: nat)
    requires Readable(ls) && n < |ls|
    ensures Readable(ls[..n]) && (n == 0 || EndsWith(ls[..n][n - 1], "\n"))
  {
    var pre := ls[..n];
    assert forall k :: 0 <= k < |pre| ==> pre[k] == ls[k];
  }

  lemma ReadableSuffix(ls: seq<string>, n: nat)
    requires Readable(ls) && n <= |ls|
    ensures Readable(ls[n..])
  {
    var suf := ls[n..];
    assert forall k :: 0 <= k < |suf| ==> suf[k] == ls[n + k];
  }

  /** The lines of a text ending with a newline are readable, the last ending with a newline. */
  lemma ReadableBroken(t: string)
    requires t == [] || t[|t| - 1] == '\n'
    ensures Readable(Lines(t)) && (Lines(t) == [] || EndsWith(Lines(t)[|Lines(t)| - 1], "\n"))
  {
    LinesShape(t);
    if t != [] {
      LinesLastBreak(t);
    }
  }

  /** As written, the stripped fix has lost its final newline, so its last
      line and the first kept line are read back as one line: replacing line
      2 of `a`, `b`, `c` with the reply `x` leaves two lines. */
  lemma MergedLineExample(fileLines: seq<string>, reply: string)
    requires fileLines == ["a\n", "b\n", "c\n"] && reply == "x\n"
    ensures CleanReply(reply) == "x"
    ensures Lines(Concat(SpliceAsWritten(fileLines, 2, 2, CleanReply(reply)))) == ["a\n", "xc\n"]
  {
    SampleReply(reply);
    var fix := "x";
    var written := ["a\n", fix, "c\n"];
    assert SpliceAsWritten(fileLines, 2, 2, fix) == written by {
      OneLineKeepEnds(fix);
    }
    Concat3("a\n", fix, "c\n");
    var merged := ["a\n", "xc\n"];
    Concat2("a\n", "xc\n");
    assert "a\n" + fix + "c\n" == "a\n" + "xc\n";
    assert Readable(merged);
    LinesOfConcat(merged);
  }

  /** With the corrected splice the same replacement keeps three lines. */
  lemma KeptLineExample(fileLines: seq<string>, reply: string)
    requires fileLines == ["a\n", "b\n", "c\n"] && reply == "x\n"
    ensures Lines(Concat(Splice(fileLines, 2, 2, CleanReply(reply)))) == ["a\n", "x\n", "c\n"]
  {
    SampleReply(reply);
    var fixed := "x\n";
    assert Terminated("x") == fixed;
    var kept := ["a\n", fixed, "c\n"];
    assert Splice(fileLines, 2, 2, "x") == kept by {
      OneLineKeepEnds(fixed);
    }
    assert Readable(kept);
    LinesOfConcat(kept);
  }

  lemma SampleReply(reply: string)
    requires reply == "x\n"
    ensures CleanReply(reply) == "x"
  {
    assert LStrip(reply) == reply;
    assert RStrip(reply) == "x";
    assert !Fenced("x");
  }

  /** A text with a single line break, at its end or nowhere, is one line. */
  lemma OneLineKeepEnds(s: string)
    requires s == "x" || s == "x\n"
    ensures SplitLinesKeepEnds(s) == [s]
  {
    assert FindBoundary(s) == 1;
    assert FirstLineLength(s) == |s|;
    assert s[..|s|] == s && s[|s|..] == [];
  }

  lemma Concat2(a: string, b: string)
    ensures Concat([a, b]) == a + b
  {
    assert [a, b][1..] == [b];
    assert [b][1..] == [];
    assert Concat([b]) == b + Concat([]);
  }

  lemma Concat3(a: string, b: string, c: string)
    ensures Concat([a, b, c]) == a + b + c
  {
    assert [a, b, c][1..] == [b, c];
    Concat2(b, c);
  }
}
