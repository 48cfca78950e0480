/** The configuration file that `save_github_token` writes and
    `load_github_token` reads back (src/main.py).  The file is text: what is
    read is its content after Python's universal-newline translation, what is
    written is the single line `github_token=<token>`. */
module GithubToken {
  import opened Wrappers
  import opened PyStrings

  const Key: string := "github_token"

  lemma KeyFacts()
    ensures |Key| == 12 && '=' !in Key && Key[0] == 'g'
  {
    assert forall k :: 0 <= k < |Key| ==> Key[k] != '=';
  }

  /** The start of the token line. */
  const Prefix: string := Key + "="

  /** `save_github_token(token)`: the file is opened for writing, so its whole
      new content is one line. */
  function SavedFile(token: string): (r: string)
    ensures |r| == |Prefix| + |token| + 1
    ensures StartsWith(r, Prefix) && r[|r| - 1] == '\n'
    ensures r[|Prefix|..|r| - 1] == token
  {
    Prefix + token + "\n"
  }

  /** `line.strip().split('=')[1]` for a line that starts with the prefix: the
      text between the first and the second `=` of the stripped line. */
  function TokenOfLine(line: string): (r: string)
    requires StartsWith(line, Prefix)
    ensures '=' !in r
  {
    StripOfTokenLine(line);
    Split(Strip(line), '=')[1]
  }

  /** Stripping a line that starts with the prefix keeps the prefix, so the
      split has a second piece. */
  lemma StripOfTokenLine(line: string)
    requires StartsWith(line, Prefix)
    ensures StartsWith(Strip(line), Prefix)
    ensures |Split(Strip(line), '=')| >= 2
  {
    KeyFacts();
    assert line[..|Prefix|] == Prefix;
    assert line[0] == Key[0];
    assert LStrip(line) == line;
    var s := RStrip(line);
    assert line[|Key|] == '=';
    assert |s| > |Key|;
    assert s[..|Prefix|] == line[..|Prefix|];
    var rest := s[|Prefix|..];
    assert s == Key + "=" + rest;
    SplitAfterFreePrefix(Key, rest, '=');
  }

  /** What the loop over the file's lines returns: the token of the first line
      that starts with the prefix, or nothing. */
  function FirstToken(lines: seq<string>): (r: Option<string>)
    ensures r.Some? ==> exists k :: 0 <= k < |lines| && StartsWith(lines[k], Prefix) &&
                                    (forall j :: 0 <= j < k ==> !StartsWith(lines[j], Prefix)) &&
                                    r.value == TokenOfLine(lines[k])
    ensures (forall k :: 0 <= k < |lines| ==> !StartsWith(lines[k], Prefix)) <==> r == None
    decreases |lines|
  {
    if lines == [] then None
    else if StartsWith(lines[0], Prefix) then Some(TokenOfLine(lines[0]))
    else
      var r := FirstToken(lines[1..]);
      assert forall k :: 0 <= k < |lines[1..]| ==> lines[1..][k] == lines[k + 1];
      r
  }

  /** Reading a file in text mode: `\r\n` and a lone `\r` both become `\n`. */
  function Universal(s: string): (r: string)
    ensures '\r' !in r
    decreases |s|
  {
    if s == [] then []
    else if s[0] == '\r' then "\n" + Universal(if |s| > 1 && s[1] == '\n' then s[2..] else s[1..])
    else [s[0]] + Universal(s[1..])
  }

  /** The lines `for line in f` yields for a file whose bytes decode to `text`. */
  function ReadLines(text: string): (r: seq<string>)
    ensures Concat(r) == Universal(text)
  {
    Lines(Universal(text))
  }

  /** A line written with `\r\n` is read with `\n`. */
  lemma UniversalCrLf(b: string)
    requires '\r' !in b
    ensures Universal(b + "\r\n") == b + "\n"
  {
    UniversalPrefix(b, "\r\n");
    assert Universal("\r\n") == "\n" + Universal([]);
  }

  /** `load_github_token()`: `file` is the file's text, or `None` when the file
      does not exist (lines 43-50). */
  method LoadGithubToken(file: Option<string>) returns (r: Option<string>)
    ensures file.None? ==> r == None
    ensures file.Some? ==> r == FirstToken(ReadLines(file.value))
  {
    if file.None? {
      return None;
    }
    var lines := ReadLines(file.value);
    var i := 0;
    while i < |lines|
      invariant 0 <= i <= |lines|
      invariant FirstToken(lines[i..]) == FirstToken(lines)
    {
      assert lines[i..][1..] == lines[i + 1..];
      if StartsWith(lines[i], Prefix) {
        return Some(TokenOfLine(lines[i]));
      }
      i := i + 1;
    }
    assert lines[i..] == [];
    r := None;
  }

  /** The saved file is read back as the single line that was written. */
  lemma SavedFileIsOneLine(token: string)
    requires '\n' !in token && '\r' !in token
    ensures ReadLines(SavedFile(token)) == [SavedFile(token)]
  {
    var f := SavedFile(token);
    forall k | 0 <= k < |f| - 1
      ensures f[k] != '\n' && f[k] != '\r'
    {
      if k >= |Prefix| {
        assert f[k] == f[|Prefix|..|f| - 1][k - |Prefix|] == token[k - |Prefix|];
      } else {
        assert f[k] == Prefix[k];
      }
    }
    assert '\r' !in f by {
      assert f[|f| - 1] == '\n';
    }
    UniversalKeeps(f);
    FindIs(f, '\n', |f| - 1);
    assert f[..|f|] == f && f[|f|..] == [];
  }

  /** The stripped saved line is the prefix and the token. */
  lemma StripOfSaved(token: string)
    requires token == [] || !IsSpace(token[|token| - 1])
    ensures Strip(SavedFile(token)) == Key + "=" + token
  {
    var body := Key + "=" + token;
    assert SavedFile(token) == body + ['\n'];
    StripTrailingSpace(body, '\n');
    assert body[0] == 'g';
    assert body[|body| - 1] == if token == [] then '=' else token[|token| - 1];
    StripKeepsInner(body);
  }

  /** The token of the saved line: everything up to the first `=` of the
      token, once trailing whitespace is gone. */
  lemma TokenOfSavedLine(token: string)
    requires token == [] || !IsSpace(token[|token| - 1])
    ensures TokenOfLine(SavedFile(token)) == token[..Find(token, '=')]
  {
    var f := SavedFile(token);
    StripOfSaved(token);
    KeyFacts();
    SplitAfterFreePrefix(Key, token, '=');
    var pieces := Split(Strip(f), '=');
    assert pieces == [Key] + Split(token, '=');
    assert TokenOfLine(f) == pieces[1];
    FirstPiece(token, '=');
  }

  /** Save then load gives the token back when it holds no `=`, no line break
      and no trailing whitespace. */
  lemma RoundTrip(token: string)
    requires '=' !in token && '\n' !in token && '\r' !in token
    requires token == [] || !IsSpace(token[|token| - 1])
    ensures FirstToken(ReadLines(SavedFile(token))) == Some(token)
  {
    SavedFileIsOneLine(token);
    TokenOfSavedLine(token);
    FindIs(token, '=', |token|);
    assert token[..|token|] == token;
  }

  /** A token holding `=` comes back cut at its first `=`. */
  lemma EqualsTruncates(token: string)
    requires '\n' !in token && '\r' !in token && '=' in token
    requires !IsSpace(token[|token| - 1])
    ensures FirstToken(ReadLines(SavedFile(token))) == Some(token[..Find(token, '=')])
    ensures |FirstToken(ReadLines(SavedFile(token))).value| < |token|
  {
    SavedFileIsOneLine(token);
    TokenOfSavedLine(token);
  }

  /** Trailing whitespace of a saved token is lost on loading; a trailing
      `\r` with the line's `\n` is read as a plain line break. */
  lemma TrailingSpaceLost(token: string, c: char)
    requires '=' !in token && '\n' !in token && '\r' !in token && IsSpace(c) && c != '\n'
    requires token == [] || !IsSpace(token[|token| - 1])
    ensures FirstToken(ReadLines(SavedFile(token + [c]))) == Some(token)
  {
    RoundTrip(token);
    if c == '\r' {
      CrLfRead(token);
    } else {
      assert '\n' !in token + [c] && '\r' !in token + [c];
      SavedFileIsOneLine(token + [c]);
      SpaceBeforeBreak(token, c);
      SavedFileIsOneLine(token);
    }
  }

  /** A token ending in `\r` is read back as the line without it. */
  lemma CrLfRead(token: string)
    requires '\r' !in token
    ensures ReadLines(SavedFile(token + "\r")) == ReadLines(SavedFile(token))
  {
    var body := Key + "=" + token;
    assert '\r' !in body by {
      assert forall k :: 0 <= k < |Prefix| ==> body[k] == Prefix[k];
      assert forall k :: |Prefix| <= k < |body| ==> body[k] == token[k - |Prefix|];
    }
    assert SavedFile(token + "\r") == body + "\r\n";
    assert SavedFile(token) == body + "\n";
    UniversalCrLf(body);
    assert '\r' !in SavedFile(token);
    UniversalKeeps(SavedFile(token));
  }

  /** Whitespace before the line break does not reach the token. */
  lemma SpaceBeforeBreak(token: string, c: char)
    requires IsSpace(c)
    requires token == [] || !IsSpace(token[|token| - 1])
    ensures TokenOfLine(SavedFile(token + [c])) == TokenOfLine(SavedFile(token))
  {
    var body := Key + "=" + token;
    assert SavedFile(token + [c]) == (body + [c]) + ['\n'];
    StripTrailingSpace(body + [c], '\n');
    StripTrailingSpace(body, c);
    StripOfSaved(token);
    assert SavedFile(token) == body + ['\n'];
    StripTrailingSpace(body, '\n');
    assert Strip(SavedFile(token + [c])) == Strip(SavedFile(token));
  }

  /** A `\r` inside the token ends the line when the file is read back, so
      only the part before it is loaded: saving `a\rb` loads `a`. */
  lemma CarriageReturnCutsToken(a: string, b: string)
    requires '=' !in a && '\n' !in a && '\r' !in a
    requires a == [] || !IsSpace(a[|a| - 1])
    ensures FirstToken(ReadLines(SavedFile(a + "\r" + b))) == Some(a)
  {
    var p := Key + "=" + a;
    assert '\r' !in p && '\n' !in p by {
      assert forall k :: 0 <= k < |Prefix| ==> p[k] == Prefix[k];
      assert forall k :: |Prefix| <= k < |p| ==> p[k] == a[k - |Prefix|];
    }
    assert SavedFile(a + "\r" + b) == p + ("\r" + b + "\n");
    FirstReadLine(p, "\r" + b + "\n");
    assert SavedFile(a) == p + "\n";
    TokenOfSavedLine(a);
    FindIs(a, '=', |a|);
    assert a[..|a|] == a;
  }

  /** A `\r` read after a first line's text ends that line. */
  lemma FirstReadLine(p: string, tail: string)
    requires '\r' !in p && '\n' !in p && tail != [] && tail[0] == '\r'
    ensures ReadLines(p + tail) != [] && ReadLines(p + tail)[0] == p + "\n"
  {
    UniversalPrefix(p, tail);
    var x := Universal(if |tail| > 1 && tail[1] == '\n' then tail[2..] else tail[1..]);
    assert Universal(tail) == "\n" + x;
    var u := (p + "\n") + x;
    assert Universal(p + tail) == u;
    FindIs(u, '\n', |p|);
    assert u[..|p| + 1] == p + "\n";
  }

  /** Text without `\r` passes through unchanged before the rest is read. */
  lemma {:induction false} UniversalPrefix(a: string, b: string)
    requires '\r' !in a
    ensures Universal(a + b) == a + Universal(b)
    decreases |a|
  {
    if a == [] {
      assert a + b == b;
    } else {
      var ab := a + b;
      assert ab[0] == a[0] != '\r';
      assert ab[1..] == a[1..] + b;
      assert Universal(ab) == [a[0]] + Universal(ab[1..]);
      assert '\r' !in a[1..] by {
        assert forall k :: 0 <= k < |a[1..]| ==> a[1..][k] == a[k + 1];
      }
      UniversalPrefix(a[1..], b);
      assert [a[0]] + (a[1..] + Universal(b)) == a + Universal(b);
    }
  }

  /** Text without `\r` is read as it is. */
  lemma UniversalKeeps(s: string)
    requires '\r' !in s
    ensures Universal(s) == s
  {
    UniversalPrefix(s, []);
    assert s + [] == s;
  }
}
