/** `validate_url` (with the part of Python 3.12's `urllib.parse.urlsplit`
    it relies on), the `sanitized_url` decorator, the argument rewriting and
    error results of `run_in_sandbox`, and the audit record of
    `log_audit_event`. */
module Security {
  import opened Wrappers
  import opened Values
  import PyStrings

  // ---------------------------------------------------------------------------
  // Cleaning the URL

  /** The characters `urlsplit` strips from the front of a URL: the C0
      controls and the space. */
  predicate IsC0OrSpace(c: char) {
    c <= ' '
  }

  /** Tab, carriage return and line feed, which `urlsplit` deletes everywhere. */
  predicate IsUnsafeByte(c: char) {
    c == '\t' || c == '\r' || c == '\n'
  }

  /** `s.lstrip(_WHATWG_C0_CONTROL_OR_SPACE)`: the suffix left once every
      leading control or space is removed. */
  function LStripC0(s: string): (r: string)
    ensures |r| <= |s| && r == s[|s| - |r|..]
    ensures forall k :: 0 <= k < |s| - |r| ==> IsC0OrSpace(s[k])
    ensures r == [] || !IsC0OrSpace(r[0])
  {
    if s != [] && IsC0OrSpace(s[0]) then LStripC0(s[1..]) else s
  }

  /** `s.replace(b, "")` for each of tab, carriage return and line feed. */
  function RemoveUnsafe(s: string): (r: string)
    ensures forall k :: 0 <= k < |r| ==> !IsUnsafeByte(r[k])
    ensures |r| <= |s|
    ensures (forall k :: 0 <= k < |s| ==> !IsUnsafeByte(s[k])) ==> r == s
    ensures |s| == 1 && IsUnsafeByte(s[0]) ==> r == []
  {
    if s == [] then []
    else if IsUnsafeByte(s[0]) then RemoveUnsafe(s[1..])
    else [s[0]] + RemoveUnsafe(s[1..])
  }

  /** The text `urlsplit` actually parses: leading controls and spaces
      stripped, then tabs and line breaks deleted.  Text that starts with a
      visible character and holds no tab or line break is left alone. */
  function Clean(url: string): (r: string)
    ensures forall k :: 0 <= k < |r| ==> !IsUnsafeByte(r[k])
    ensures r == [] || !IsC0OrSpace(r[0])
    ensures (url == [] || !IsC0OrSpace(url[0])) && (forall k :: 0 <= k < |url| ==> !IsUnsafeByte(url[k])) ==> r == url
  {
    var t := LStripC0(url);
    assert t != [] ==> RemoveUnsafe(t) == [t[0]] + RemoveUnsafe(t[1..]);
    RemoveUnsafe(t)
  }

  // ---------------------------------------------------------------------------
  // Scheme and authority

  predicate IsAsciiLetter(c: char) {
    'a' <= c <= 'z' || 'A' <= c <= 'Z'
  }

  /** `scheme_chars`: ASCII letters, digits, `+`, `-` and `.`. */
  predicate IsSchemeChar(c: char) {
    IsAsciiLetter(c) || '0' <= c <= '9' || c == '+' || c == '-' || c == '.'
  }

  predicate IsNetlocEnd(c: char) {
    c == '/' || c == '?' || c == '#'
  }

  /** Where the scheme ends: the first `:`, when it is not at the front, the
      first character is an ASCII letter and all before it are scheme
      characters (section 3.1 of RFC 3986); `None` exactly when there is no
      such `:`. */
  function SchemeEnd(c: string): (r: Option<nat>)
    ensures r.Some? ==> 0 < r.value < |c| && c[r.value] == ':' && IsAsciiLetter(c[0])
    ensures r.Some? ==> forall k :: 0 <= k < r.value ==> IsSchemeChar(c[k]) && c[k] != ':'
    ensures forall i ::
      (0 < i < |c| && c[i] == ':' && IsAsciiLetter(c[0]) && forall k :: 0 <= k < i ==> IsSchemeChar(c[k])) ==> r == Some(i)
  {
    var i := PyStrings.Find(c, ':');
    if 0 < i < |c| && IsAsciiLetter(c[0]) && forall k :: 0 <= k < i ==> IsSchemeChar(c[k]) then Some(i) else None
  }

  /** The scheme `urlsplit` reports: the text before its `:`, lower-cased, or
      `""` when the text has no scheme. */
  function SchemeOf(c: string): string {
    match SchemeEnd(c)
    case Some(i) => PyStrings.LowerAscii(c[..i])
    case None => ""
  }

  /** What follows the scheme and its `:`, or the whole text when it has no
      scheme. */
  function AfterScheme(c: string): string {
    match SchemeEnd(c)
    case Some(i) => c[i + 1..]
    case None => c
  }

  /** The first index at or after `from` holding `/`, `?` or `#`, or `|s|`. */
  function NetlocEnd(s: string, from: nat): (r: nat)
    requires from <= |s|
    ensures from <= r <= |s|
    ensures forall k :: from <= k < r ==> !IsNetlocEnd(s[k])
    ensures r < |s| ==> IsNetlocEnd(s[r])
    decreases |s| - from
  {
    if from == |s| || IsNetlocEnd(s[from]) then from else NetlocEnd(s, from + 1)
  }

  /** The authority part of `s`: everything up to the first `/`, `?` or `#`. */
  function Authority(s: string): string {
    s[..NetlocEnd(s, 0)]
  }

  // ---------------------------------------------------------------------------
  // The netloc checks of `urlsplit`

  /** What `ipaddress.ip_address` makes of a text. */
  datatype IpVersion = NotAnAddress | Version4 | Version6

  /** The two standard-library services `urlsplit` calls on a netloc, which
      this model takes as given: `ipaddress.ip_address` and
      `unicodedata.normalize('NFKC', ·)`. */
  datatype Stdlib = Stdlib(ipAddress: string -> IpVersion, nfkc: string -> string)

  /** A `[` in the netloc without a `]`, or the reverse. */
  predicate UnbalancedBrackets(netloc: string) {
    ('[' in netloc && ']' !in netloc) || (']' in netloc && '[' !in netloc)
  }

  /** Where the text after the last `sep` begins: just after it, or at 0. */
  function LastCut(s: string, sep: char): (i: nat)
    ensures i <= |s| && sep !in s[i..]
    ensures i > 0 ==> s[i - 1] == sep
    decreases |s|
  {
    if s == [] then 0
    else if s[|s| - 1] == sep then |s|
    else
      var q := s[..|s| - 1];
      var i := LastCut(q, sep);
      assert s[i..] == q[i..] + [s[|s| - 1]];
      i
  }

  /** `s.rpartition(sep)[2]`: what follows the last `sep`, or all of `s`. */
  function AfterLast(s: string, sep: char): (r: string)
    ensures sep !in r
    ensures |r| <= |s| && r == s[|s| - |r|..]
    ensures |r| < |s| ==> s[|s| - |r| - 1] == sep
  {
    s[LastCut(s, sep)..]
  }

  predicate IsHexDigit(c: char) {
    '0' <= c <= '9' || 'a' <= c <= 'f' || 'A' <= c <= 'F'
  }

  /** The first index at or after `from` that is not a hex digit, or `|s|`. */
  function HexEnd(s: string, from: nat): (r: nat)
    requires from <= |s|
    ensures from <= r <= |s|
    ensures forall k :: from <= k < r ==> IsHexDigit(s[k])
    ensures r < |s| ==> !IsHexDigit(s[r])
    decreases |s| - from
  {
    if from == |s| || !IsHexDigit(s[from]) then from else HexEnd(s, from + 1)
  }

  /** `re.match(r"\Av[a-fA-F0-9]+\..+\Z", h)`: `v`, hex digits, a dot, and
      at least one more character, none of them a line feed. */
  predicate IpvFuture(h: string) {
    if h == [] || h[0] != 'v' then false
    else
      var d := HexEnd(h, 1);
      d > 1 && d + 1 < |h| && h[d] == '.' && forall k :: d < k < |h| ==> h[k] != '\n'
  }

  /** `_check_bracketed_host`: a host starting with `v` must be an IPvFuture
      literal; any other must be an IPv6 address, an IPv4 one being refused. */
  predicate BracketedHostValid(h: string, lib: Stdlib) {
    if PyStrings.StartsWith(h, "v") then IpvFuture(h) else lib.ipAddress(h) == Version6
  }

  /** `_check_bracketed_netloc`, for a netloc holding both brackets.  After
      the last `@`, the text must open with `[`, and what follows the first
      `]` must be empty or start with `:`; the text between the brackets must
      pass `BracketedHostValid`.  When no `[` follows the last `@`, the text
      before the first `:` is the host checked. */
  predicate BracketedNetlocValid(netloc: string, lib: Stdlib) {
    var hostPort := AfterLast(netloc, '@');
    var open := PyStrings.Find(hostPort, '[');
    if open < |hostPort| then
      var bracketed := hostPort[open + 1..];
      var close := PyStrings.Find(bracketed, ']');
      var port := if close < |bracketed| then bracketed[close + 1..] else "";
      open == 0 && (port == "" || port[0] == ':') && BracketedHostValid(bracketed[..close], lib)
    else
      BracketedHostValid(hostPort[..PyStrings.Find(hostPort, ':')], lib)
  }

  /** `s.isascii()`; true of the empty text. */
  predicate IsAsciiText(s: string) {
    forall k :: 0 <= k < |s| ==> s[k] as int < 128
  }

  /** The characters `_checknetloc` deletes before normalising. */
  predicate IsDroppedBeforeNfkc(c: char) {
    c == '@' || c == ':' || c == '#' || c == '?'
  }

  /** The characters whose appearance under NFKC makes `_checknetloc` raise. */
  predicate IsNfkcDelimiter(c: char) {
    c == '/' || c == '?' || c == '#' || c == '@' || c == ':'
  }

  /** The netloc with `@`, `:`, `#` and `?` deleted. */
  function DropBeforeNfkc(s: string): (r: string)
    ensures forall k :: 0 <= k < |r| ==> !IsDroppedBeforeNfkc(r[k]) && r[k] in s
    ensures |r| <= |s|
  {
    if s == [] then []
    else if IsDroppedBeforeNfkc(s[0]) then DropBeforeNfkc(s[1..])
    else [s[0]] + DropBeforeNfkc(s[1..])
  }

  /** `_checknetloc`: an ASCII netloc (the empty one included) passes; any
      other passes when, with `@`, `:`, `#` and `?` deleted, its NFKC form is
      unchanged or holds none of `/?#@:`. */
  predicate NfkcSafe(netloc: string, lib: Stdlib) {
    var n := DropBeforeNfkc(netloc);
    var n2 := lib.nfkc(n);
    IsAsciiText(netloc) || n2 == n || forall k :: 0 <= k < |n2| ==> !IsNfkcDelimiter(n2[k])
  }

  /** Every check `urlsplit` makes on a netloc. */
  predicate NetlocPasses(netloc: string, lib: Stdlib) {
    && !UnbalancedBrackets(netloc)
    && ('[' in netloc && ']' in netloc ==> BracketedNetlocValid(netloc, lib))
    && NfkcSafe(netloc, lib)
  }

  /** ASCII and no bracket. */
  predicate IsPlainChar(c: char) {
    c as int < 128 && c != '[' && c != ']'
  }

  /** An ASCII netloc without brackets passes, whatever the library answers. */
  lemma PlainNetlocPasses(netloc: string, lib: Stdlib)
    requires forall k :: 0 <= k < |netloc| ==> IsPlainChar(netloc[k])
    ensures NetlocPasses(netloc, lib)
  {
    assert IsAsciiText(netloc);
  }

  // ---------------------------------------------------------------------------
  // urlsplit and validate_url

  /** The parts of a `SplitResult` that `validate_url` reads; `rest` is the
      path, query and fragment still joined. */
  datatype SplitUrl = SplitUrl(scheme: string, netloc: string, rest: string)

  /** The `ValueError`s `urlsplit` and `validate_url` raise, and the
      `AttributeError` of a URL that is not text. */
  datatype UrlError =
    | InvalidIpv6                // a `[` without `]` or the reverse in the netloc
    | InvalidBracketedNetloc     // `_check_bracketed_netloc` refused the netloc
    | NfkcUnsafeNetloc           // `_checknetloc` refused the netloc
    | InvalidScheme(url: string)
    | MissingDomain(url: string)
    | NotText                    // `urlparse` of a truthy value that is not text

  /** `urlsplit` on text already cleaned, as far as the scheme and the
      authority: the netloc is what follows `//` up to the next `/`, `?` or
      `#` (section 3.2 of RFC 3986), and it must pass the bracket and NFKC
      checks; everything after it is the rest. */
  function SplitText(c: string, lib: Stdlib): (r: Result<SplitUrl, UrlError>)
    ensures r.Ok? ==> r.value.scheme == SchemeOf(c) && NetlocPasses(r.value.netloc, lib)
    ensures r.Ok? ==> forall k :: 0 <= k < |r.value.netloc| ==> !IsNetlocEnd(r.value.netloc[k])
    ensures r.Ok? ==> (AfterScheme(c) ==
      (if PyStrings.StartsWith(AfterScheme(c), "//") then "//" + r.value.netloc else "") + r.value.rest)
    ensures r.Ok? && !PyStrings.StartsWith(AfterScheme(c), "//") ==> r.value.netloc == ""
    ensures r.Ok? && PyStrings.StartsWith(AfterScheme(c), "//") ==> r.value.netloc == Authority(AfterScheme(c)[2..])
    ensures r.Err? <==> PyStrings.StartsWith(AfterScheme(c), "//") && !NetlocPasses(Authority(AfterScheme(c)[2..]), lib)
  {
    var after := AfterScheme(c);
    if PyStrings.StartsWith(after, "//") then
      var e := NetlocEnd(after, 2);
      var netloc := after[2..e];
      NetlocIsAuthority(after);
      if UnbalancedBrackets(netloc) then Err(InvalidIpv6)
      else if '[' in netloc && ']' in netloc && !BracketedNetlocValid(netloc, lib) then Err(InvalidBracketedNetloc)
      else if !NfkcSafe(netloc, lib) then Err(NfkcUnsafeNetloc)
      else
        AuthorityCut(after);
        Ok(SplitUrl(SchemeOf(c), netloc, after[e..]))
    else Ok(SplitUrl(SchemeOf(c), "", after))
  }

  /** After `//`, the authority and the rest make up the text again, and the
      authority holds no `/`, `?` or `#`. */
  lemma AuthorityCut(after: string)
    requires PyStrings.StartsWith(after, "//")
    ensures after == "//" + after[2..NetlocEnd(after, 2)] + after[NetlocEnd(after, 2)..]
    ensures forall k :: 0 <= k < NetlocEnd(after, 2) - 2 ==> !IsNetlocEnd(after[2..NetlocEnd(after, 2)][k])
  {
    var e := NetlocEnd(after, 2);
    assert after[..2] == "//";
    assert after == after[..2] + after[2..e] + after[e..];
  }

  /** `urlsplit(url)` on the text left by `Clean`: the scheme is the
      lower-cased text before the scheme's `:` (or `""`), the netloc is the
      authority after a `//` (or `""` without one), and the split fails
      exactly when that authority fails a netloc check. */
  function UrlSplit(url: string, lib: Stdlib): (r: Result<SplitUrl, UrlError>)
    ensures r.Ok? ==> r.value.scheme == SchemeOf(Clean(url))
    ensures r.Ok? ==> (r.value.netloc ==
      if PyStrings.StartsWith(AfterScheme(Clean(url)), "//") then Authority(AfterScheme(Clean(url))[2..]) else "")
    ensures r.Err? <==>
      PyStrings.StartsWith(AfterScheme(Clean(url)), "//") && !NetlocPasses(Authority(AfterScheme(Clean(url))[2..]), lib)
  {
    SplitText(Clean(url), lib)
  }

  /** The cleaned text passes `validate_url`'s two tests: an accepted text has
      a scheme and an authority after `//`. */
  predicate Accepts(c: string, lib: Stdlib)
    ensures Accepts(c, lib) ==> SchemeEnd(c).Some? && PyStrings.StartsWith(AfterScheme(c), "//")
  {
    SplitText(c, lib).Ok? && SplitText(c, lib).value.scheme in ["http", "https"] && SplitText(c, lib).value.netloc != ""
  }

  /** `validate_url(url)` (lines 25-32): the URL itself, unchanged, when its
      scheme is `http` or `https` and its netloc is not empty; a `ValueError`
      of `urlsplit` passes through. */
  function ValidateUrl(url: string, lib: Stdlib): (r: Result<string, UrlError>)
    ensures r.Ok? ==> r.value == url
    ensures r.Ok? <==> Accepts(Clean(url), lib)
    ensures UrlSplit(url, lib).Err? ==> r == Err(UrlSplit(url, lib).error)
    ensures UrlSplit(url, lib).Ok? && UrlSplit(url, lib).value.scheme !in ["http", "https"] ==> r == Err(InvalidScheme(url))
    ensures UrlSplit(url, lib).Ok? && UrlSplit(url, lib).value.scheme in ["http", "https"] && UrlSplit(url, lib).value.netloc == "" ==>
      r == Err(MissingDomain(url))
  {
    var parts :- UrlSplit(url, lib);
    if parts.scheme == "" || parts.scheme !in ["http", "https"] then Err(InvalidScheme(url))
    else if parts.netloc == "" then Err(MissingDomain(url))
    else Ok(url)
  }

  /** After the first `n` characters come `://` and a non-empty authority
      that passes the netloc checks. */
  predicate AuthorityAfter(c: string, n: nat, lib: Stdlib) {
    && |c| > n + 3 && c[n..n + 3] == "://"
    && !IsNetlocEnd(c[n + 3])
    && NetlocPasses(Authority(c[n + 3..]), lib)
  }

  /** The accepted URLs, stated on the cleaned text: `http` or `https` in any
      letter case, then `://`, then a non-empty authority that passes the
      netloc checks. */
  predicate WebUrl(c: string, lib: Stdlib)
    ensures WebUrl(c, lib) ==> |c| > 7 && (c[0] == 'h' || c[0] == 'H')
  {
    || (|c| >= 4 && PyStrings.LowerAscii(c[..4]) == "http" && AuthorityAfter(c, 4, lib))
    || (|c| >= 5 && PyStrings.LowerAscii(c[..5]) == "https" && AuthorityAfter(c, 5, lib))
  }

  lemma LowerCharLetter(c: char, l: char)
    requires 'a' <= l <= 'z' && PyStrings.LowerChar(c) == l
    ensures IsAsciiLetter(c)
  {
  }

  /** The scheme of a text beginning with a lower-cased `http`/`https` then `:`. */
  lemma SchemeOfWebPrefix(c: string, n: nat, name: string)
    requires (n == 4 && name == "http") || (n == 5 && name == "https")
    requires |c| > n && PyStrings.LowerAscii(c[..n]) == name && c[n] == ':'
    ensures SchemeEnd(c) == Some(n)
  {
    forall k | 0 <= k < n
      ensures IsAsciiLetter(c[k]) && c[k] != ':'
    {
      assert PyStrings.LowerAscii(c[..n])[k] == PyStrings.LowerChar(c[k]);
      LowerCharLetter(c[k], name[k]);
    }
    assert PyStrings.Find(c, ':') == n;
  }

  /** `netloc` and `NetlocEnd` describe the same cut. */
  lemma NetlocIsAuthority(s: string)
    requires |s| >= 2
    ensures s[2..NetlocEnd(s, 2)] == Authority(s[2..])
  {
    var t := s[2..];
    var e := NetlocEnd(s, 2);
    assert forall k :: 0 <= k < e - 2 ==> !IsNetlocEnd(t[k]) by {
      forall k | 0 <= k < e - 2 ensures !IsNetlocEnd(t[k]) { assert t[k] == s[k + 2]; }
    }
    assert e - 2 < |t| ==> IsNetlocEnd(t[e - 2]);
    FirstEndUnique(t, e - 2, NetlocEnd(t, 0));
  }

  lemma FirstEndUnique(t: string, x: nat, y: nat)
    requires x <= |t| && y <= |t|
    requires forall k :: 0 <= k < x ==> !IsNetlocEnd(t[k])
    requires forall k :: 0 <= k < y ==> !IsNetlocEnd(t[k])
    requires x < |t| ==> IsNetlocEnd(t[x])
    requires y < |t| ==> IsNetlocEnd(t[y])
    ensures x == y
  {
  }

  /** Every accepted text has the shape `WebUrl`. */
  lemma AcceptedIsWebUrl(c: string, lib: Stdlib)
    requires Accepts(c, lib)
    ensures WebUrl(c, lib)
  {
    var i := AcceptedScheme(c, lib);
    AcceptedAuthority(c, i, lib);
  }

  /** An accepted text starts with its scheme, of four or five letters, and `//`. */
  lemma AcceptedScheme(c: string, lib: Stdlib) returns (i: nat)
    requires Accepts(c, lib)
    ensures i == 4 || i == 5
    ensures SchemeEnd(c) == Some(i) && PyStrings.LowerAscii(c[..i]) == SplitText(c, lib).value.scheme
    ensures PyStrings.StartsWith(c[i + 1..], "//")
  {
    i := SchemeEnd(c).value;
    assert SplitText(c, lib).value.scheme == PyStrings.LowerAscii(c[..i]);
  }

  /** The netloc of an accepted text is the authority after `://`. */
  lemma AcceptedAuthority(c: string, i: nat, lib: Stdlib)
    requires Accepts(c, lib) && (i == 4 || i == 5)
    requires SchemeEnd(c) == Some(i) && PyStrings.LowerAscii(c[..i]) == SplitText(c, lib).value.scheme
    requires PyStrings.StartsWith(c[i + 1..], "//")
    ensures AuthorityAfter(c, i, lib)
  {
    var after := c[i + 1..];
    NetlocIsAuthority(after);
    assert after[2..] == c[i + 3..];
    assert c[i..i + 3] == [c[i], after[0], after[1]];
    var e := NetlocEnd(after, 2);
    assert SplitText(c, lib).value.netloc == after[2..e];
    assert |c| > i + 3 && c[i + 3] == after[2];
  }

  /** Every text of the shape `WebUrl` is accepted. */
  lemma WebUrlIsAccepted(c: string, lib: Stdlib)
    requires WebUrl(c, lib)
    ensures Accepts(c, lib)
  {
    var four := |c| >= 4 && PyStrings.LowerAscii(c[..4]) == "http" && AuthorityAfter(c, 4, lib);
    var n: nat := if four then 4 else 5;
    var name := if four then "http" else "https";
    WebPrefixAccepted(c, n, name, lib);
  }

  lemma WebPrefixAccepted(c: string, n: nat, name: string, lib: Stdlib)
    requires (n == 4 && name == "http") || (n == 5 && name == "https")
    requires |c| > n && PyStrings.LowerAscii(c[..n]) == name && AuthorityAfter(c, n, lib)
    ensures Accepts(c, lib)
  {
    assert c[n] == ':';
    SchemeOfWebPrefix(c, n, name);
    var after := c[n + 1..];
    assert c[n..n + 3][1] == c[n + 1] && c[n..n + 3][2] == c[n + 2];
    assert after[..2] == [c[n + 1], c[n + 2]];
    NetlocIsAuthority(after);
    assert after[2..] == c[n + 3..];
    assert after[2] == c[n + 3];
  }

  /** `validate_url` accepts exactly the URLs whose cleaned text has the shape
      `WebUrl`, for whatever answers `ipaddress` and `unicodedata` give. */
  lemma ValidateUrlIff(url: string, lib: Stdlib)
    ensures ValidateUrl(url, lib).Ok? <==> WebUrl(Clean(url), lib)
  {
    if ValidateUrl(url, lib).Ok? {
      AcceptedIsWebUrl(Clean(url), lib);
    }
    if WebUrl(Clean(url), lib) {
      WebUrlIsAccepted(Clean(url), lib);
    }
  }

  /** The authority of `a + b` is `a` when `a` holds no `/`, `?` or `#` and `b`
      is empty or starts with one. */
  lemma AuthorityOf(a: string, b: string)
    requires forall k :: 0 <= k < |a| ==> !IsNetlocEnd(a[k])
    requires b == [] || IsNetlocEnd(b[0])
    ensures Authority(a + b) == a
  {
    var s := a + b;
    assert forall k :: 0 <= k < |a| ==> !IsNetlocEnd(s[k]);
    assert |a| < |s| ==> IsNetlocEnd(s[|a|]);
    FirstEndUnique(s, |a|, NetlocEnd(s, 0));
  }

  /** `http://` or `https://`, a host free of `/`, `?` and `#` that passes the
      netloc checks, and a path, query or fragment make a web URL. */
  lemma WebUrlOf(scheme: string, host: string, tail: string, lib: Stdlib)
    requires scheme == "http" || scheme == "https"
    requires host != [] && forall k :: 0 <= k < |host| ==> !IsNetlocEnd(host[k])
    requires tail == [] || IsNetlocEnd(tail[0])
    requires NetlocPasses(host, lib)
    ensures WebUrl(scheme + "://" + host + tail, lib)
  {
    var c := scheme + "://" + host + tail;
    var n := |scheme|;
    var head := scheme + "://";
    assert c == head + (host + tail);
    assert c[..n] == scheme;
    assert head[n..] == "://";
    assert c[n..n + 3] == head[n..];
    assert PyStrings.LowerAscii(scheme) == scheme by {
      assert forall k :: 0 <= k < n ==> PyStrings.LowerChar(scheme[k]) == scheme[k];
    }
    assert c[n + 3..] == host + tail;
    AuthorityOf(host, tail);
    assert c[n + 3] == host[0];
  }

  /** `http://` or `https://` and a host, with nothing to clean, is handed
      back unchanged. */
  lemma {:induction false} PlainWebUrlAccepted(u: string, scheme: string, host: string, tail: string, lib: Stdlib)
    requires u == scheme + "://" + host + tail
    requires scheme == "http" || scheme == "https"
    requires host != [] && forall k :: 0 <= k < |host| ==> !IsNetlocEnd(host[k])
    requires tail == [] || IsNetlocEnd(tail[0])
    requires NetlocPasses(host, lib)
    requires forall k :: 0 <= k < |u| ==> !IsUnsafeByte(u[k])
    ensures ValidateUrl(u, lib) == Ok(u)
  {
    assert u[0] == scheme[0];
    WebUrlOf(scheme, host, tail, lib);
    ValidateUrlIff(u, lib);
  }

  lemma HttpsHostAccepted(u: string, lib: Stdlib)
    requires u == "https://example.com"
    ensures ValidateUrl(u, lib) == Ok(u)
  {
    var host := "example.com";
    assert PlainHost(host) by {
      assert forall k :: 0 <= k < |host| ==> HostChar(host[k]);
    }
    assert u == "https" + "://" + host + "";
    PathUrlAccepted("https", host, "", lib);
  }

  lemma HttpPathAccepted(u: string, lib: Stdlib)
    requires u == "http://sub.domain.co.uk/path"
    ensures ValidateUrl(u, lib) == Ok(u)
  {
    var host := "sub.domain.co.uk";
    SampleHostPlain(host);
    assert u == "http" + "://" + host + "/path";
    PathUrlAccepted("http", host, "/path", lib);
  }

  lemma SampleHostPlain(host: string)
    requires host == "sub.domain.co.uk"
    ensures PlainHost(host)
  {
    assert forall k :: 0 <= k < |host| ==> HostChar(host[k]);
  }

  /** A non-empty ASCII host name with no `/`, `?`, `#`, tab, line break or
      bracket. */
  predicate PlainHost(host: string) {
    host != [] && forall k :: 0 <= k < |host| ==> HostChar(host[k])
  }

  predicate HostChar(c: char) {
    !IsNetlocEnd(c) && !IsUnsafeByte(c) && IsPlainChar(c)
  }

  /** `https://` and a plain host, alone or followed by a path, are
      accepted, whatever the path holds and whatever the library answers. */
  lemma PathUrlAccepted(scheme: string, host: string, tail: string, lib: Stdlib)
    requires scheme == "http" || scheme == "https"
    requires PlainHost(host)
    requires tail == [] || tail[0] == '/'
    ensures ValidateUrl(scheme + "://" + host + tail, lib) == Ok(scheme + "://" + host + tail)
  {
    var u := scheme + "://" + host + tail;
    var t := RemoveUnsafe(tail);
    CleanPathUrl(scheme, host, tail);
    assert t == [] || t[0] == '/' by {
      if tail != [] {
        assert t == [tail[0]] + RemoveUnsafe(tail[1..]);
      }
    }
    PlainNetlocPasses(host, lib);
    WebUrlOf(scheme, host, t, lib);
    ValidateUrlIff(u, lib);
  }

  /** Cleaning such a URL only deletes tabs and line breaks from its path. */
  lemma CleanPathUrl(scheme: string, host: string, tail: string)
    requires scheme == "http" || scheme == "https"
    requires PlainHost(host)
    ensures Clean(scheme + "://" + host + tail) == scheme + "://" + host + RemoveUnsafe(tail)
  {
    var sep := scheme + "://";
    var u := sep + host + tail;
    WebSchemeClean(scheme);
    assert RemoveUnsafe(host) == host;
    assert LStripC0(u) == u by { assert u[0] == 'h'; }
    RemoveAppend(sep + host, tail);
    RemoveAppend(sep, host);
  }

  lemma WebSchemeClean(scheme: string)
    requires scheme == "http" || scheme == "https"
    ensures RemoveUnsafe(scheme + "://") == scheme + "://"
  {
    var sep := scheme + "://";
    forall k | 0 <= k < |sep|
      ensures !IsUnsafeByte(sep[k])
    {
      if k < |scheme| {
        assert sep[k] == scheme[k];
      } else {
        assert sep[k] == "://"[k - |scheme|];
      }
    }
  }

  /** A bracketed host that does not start with `v` is accepted exactly when
      `ipaddress` reads it as an IPv6 address: `http://[abc]` and
      `http://[1.2.3.4]` are refused. */
  lemma BracketedHostNeedsIpv6(scheme: string, h: string, lib: Stdlib)
    requires scheme == "http" || scheme == "https"
    requires !PyStrings.StartsWith(h, "v")
    requires forall k :: 0 <= k < |h| ==> HostChar(h[k]) && h[k] != '@'
    ensures ValidateUrl(scheme + "://[" + h + "]", lib).Ok? <==> lib.ipAddress(h) == Version6
  {
    var netloc := "[" + h + "]";
    var u := scheme + "://" + netloc;
    assert scheme + "://[" + h + "]" == u;
    assert (NetlocPasses(netloc, lib) <==> lib.ipAddress(h) == Version6) &&
      forall k :: 0 <= k < |netloc| ==> !IsNetlocEnd(netloc[k]) && !IsUnsafeByte(netloc[k]) by {
      BracketedNetlocPasses(netloc, h, lib);
    }
    assert WebUrl(u, lib) <==> NetlocPasses(netloc, lib) by {
      WebUrlExactly(scheme, netloc, lib);
    }
    assert ValidateUrl(u, lib).Ok? <==> WebUrl(u, lib) by {
      CleanWebUrl(scheme, netloc);
      ValidateUrlIff(u, lib);
    }
  }

  /** The netloc `[h]` passes the checks exactly when `h` is an IPv6 address,
      and it holds nothing to clean and no end of authority. */
  lemma BracketedNetlocPasses(netloc: string, h: string, lib: Stdlib)
    requires netloc == "[" + h + "]"
    requires !PyStrings.StartsWith(h, "v")
    requires forall k :: 0 <= k < |h| ==> HostChar(h[k]) && h[k] != '@'
    ensures NetlocPasses(netloc, lib) <==> lib.ipAddress(h) == Version6
    ensures forall k :: 0 <= k < |netloc| ==> !IsNetlocEnd(netloc[k]) && !IsUnsafeByte(netloc[k])
  {
    BracketedChars(netloc, h);
    assert !UnbalancedBrackets(netloc) by {
      assert netloc[0] == '[' && netloc[|netloc| - 1] == ']';
    }
    BracketedNetlocIs(netloc, h, lib);
    assert NfkcSafe(netloc, lib);
  }

  /** Every character of `[h]` is ASCII and none is `@` or ends or breaks
      the authority. */
  lemma BracketedChars(netloc: string, h: string)
    requires netloc == "[" + h + "]"
    requires forall k :: 0 <= k < |h| ==> HostChar(h[k]) && h[k] != '@'
    ensures forall k :: 0 <= k < |netloc| ==> !IsNetlocEnd(netloc[k]) && !IsUnsafeByte(netloc[k])
    ensures '@' !in netloc && IsAsciiText(netloc)
  {
    forall k | 0 <= k < |netloc|
      ensures !IsNetlocEnd(netloc[k]) && !IsUnsafeByte(netloc[k]) && netloc[k] != '@' && netloc[k] as int < 128
    {
      if 0 < k < |netloc| - 1 { assert netloc[k] == h[k - 1]; }
    }
  }

  /** Nothing to clean in `http(s)://` and a host without tabs or line breaks. */
  lemma CleanWebUrl(scheme: string, host: string)
    requires scheme == "http" || scheme == "https"
    requires forall k :: 0 <= k < |host| ==> !IsUnsafeByte(host[k])
    ensures Clean(scheme + "://" + host) == scheme + "://" + host
  {
    var u := scheme + "://" + host;
    WebSchemeClean(scheme);
    RemoveAppend(scheme + "://", host);
    assert LStripC0(u) == u by { assert u[0] == 'h'; }
  }

  /** `http(s)://` and a host free of `/`, `?` and `#` is a web URL exactly
      when the host passes the netloc checks. */
  lemma WebUrlExactly(scheme: string, host: string, lib: Stdlib)
    requires scheme == "http" || scheme == "https"
    requires host != [] && forall k :: 0 <= k < |host| ==> !IsNetlocEnd(host[k])
    ensures WebUrl(scheme + "://" + host, lib) <==> NetlocPasses(host, lib)
  {
    var u := scheme + "://" + host;
    assert u == scheme + "://" + host + "";
    if NetlocPasses(host, lib) {
      WebUrlOf(scheme, host, "", lib);
    }
    assert WebUrl(u, lib) ==> NetlocPasses(host, lib) by {
      if WebUrl(u, lib) {
        WebUrlCut(u, scheme, lib);
        AuthorityOf(host, "");
        assert u[|scheme| + 3..] == host + "";
      }
    }
  }

  /** The `WebUrl` disjunct that holds for a given scheme. */
  lemma WebUrlCut(u: string, scheme: string, lib: Stdlib)
    requires scheme == "http" || scheme == "https"
    requires |u| > |scheme| + 3 && u[..|scheme| + 3] == scheme + "://"
    requires WebUrl(u, lib)
    ensures AuthorityAfter(u, |scheme|, lib)
  {
    assert u[..4] == (scheme + "://")[..4];
    assert u[4] == (scheme + "://")[4];
  }

  /** For the netloc `[h]`, the bracket check reduces to the host check. */
  lemma BracketedNetlocIs(netloc: string, h: string, lib: Stdlib)
    requires netloc == "[" + h + "]"
    requires '@' !in netloc
    requires forall k :: 0 <= k < |h| ==> h[k] != '[' && h[k] != ']'
    ensures BracketedNetlocValid(netloc, lib) <==> BracketedHostValid(h, lib)
  {
    assert AfterLast(netloc, '@') == netloc;
    assert PyStrings.Find(netloc, '[') == 0;
    var bracketed := netloc[1..];
    assert bracketed == h + "]";
    PyStrings.FindIs(bracketed, ']', |h|);
    assert bracketed[..|h|] == h;
  }

  /** A netloc outside ASCII whose NFKC form (once `@`, `:`, `#` and `?` are
      deleted) holds a `/` is refused with `NfkcUnsafeNetloc`: `http://a℀b`,
      whose `℀` becomes `a/c`, is. */
  lemma NfkcSlashRejected(scheme: string, host: string, lib: Stdlib)
    requires scheme == "http" || scheme == "https"
    requires host != [] && !IsAsciiText(host)
    requires forall k :: 0 <= k < |host| ==> !IsNetlocEnd(host[k]) && !IsUnsafeByte(host[k]) && host[k] != '[' && host[k] != ']'
    requires '/' in lib.nfkc(DropBeforeNfkc(host))
    ensures ValidateUrl(scheme + "://" + host, lib) == Err(NfkcUnsafeNetloc)
  {
    NfkcSplitRefused(scheme, host, lib);
    CleanWebUrl(scheme, host);
  }

  lemma NfkcSplitRefused(scheme: string, host: string, lib: Stdlib)
    requires scheme == "http" || scheme == "https"
    requires !IsAsciiText(host)
    requires forall k :: 0 <= k < |host| ==> !IsNetlocEnd(host[k]) && host[k] != '[' && host[k] != ']'
    requires '/' in lib.nfkc(DropBeforeNfkc(host))
    ensures SplitText(scheme + "://" + host, lib) == Err(NfkcUnsafeNetloc)
  {
    var after := "//" + host;
    assert AfterScheme(scheme + "://" + host) == after by {
      WebSplit(scheme, host);
    }
    assert after[2..NetlocEnd(after, 2)] == host by {
      NetlocEndOf(host);
    }
    assert !UnbalancedBrackets(host) && !NfkcSafe(host, lib) && '[' !in host by {
      NfkcRefused(host, lib);
    }
    SplitRefusedByNfkc(scheme + "://" + host, after, host, lib);
  }

  /** The third netloc check is the one that refuses a balanced netloc
      without both brackets that fails `NfkcSafe`. */
  lemma SplitRefusedByNfkc(c: string, after: string, netloc: string, lib: Stdlib)
    requires AfterScheme(c) == after && PyStrings.StartsWith(after, "//")
    requires after[2..NetlocEnd(after, 2)] == netloc
    requires !UnbalancedBrackets(netloc) && '[' !in netloc && !NfkcSafe(netloc, lib)
    ensures SplitText(c, lib) == Err(NfkcUnsafeNetloc)
  {
  }

  /** Such a host has balanced (no) brackets but fails the NFKC check. */
  lemma NfkcRefused(host: string, lib: Stdlib)
    requires !IsAsciiText(host)
    requires '[' !in host && ']' !in host && '/' !in host
    requires '/' in lib.nfkc(DropBeforeNfkc(host))
    ensures !UnbalancedBrackets(host) && !NfkcSafe(host, lib)
  {
    assert '/' !in DropBeforeNfkc(host);
  }

  /** How `http(s)://` and a host split: the scheme, then `//` and the rest. */
  lemma WebSplit(scheme: string, host: string)
    requires scheme == "http" || scheme == "https"
    ensures SchemeOf(scheme + "://" + host) == scheme
    ensures AfterScheme(scheme + "://" + host) == "//" + host
  {
    var u := scheme + "://" + host;
    var n := |scheme|;
    WebSchemeLower(scheme);
    assert u[..n] == scheme && u[n] == ':';
    SchemeOfWebPrefix(u, n, scheme);
    assert u[n + 1..] == "//" + host;
  }

  lemma WebSchemeLower(scheme: string)
    requires scheme == "http" || scheme == "https"
    ensures PyStrings.LowerAscii(scheme) == scheme
  {
    assert forall k :: 0 <= k < |scheme| ==> PyStrings.LowerChar(scheme[k]) == scheme[k];
  }

  /** With no `/`, `?` or `#` from `from` on, the authority runs to the end. */
  lemma {:induction false} NetlocRunsOut(s: string, from: nat)
    requires from <= |s|
    requires forall k :: from <= k < |s| ==> !IsNetlocEnd(s[k])
    ensures NetlocEnd(s, from) == |s|
    decreases |s| - from
  {
    if from < |s| {
      NetlocRunsOut(s, from + 1);
    }
  }

  /** The authority after `//` runs to the end when nothing ends it. */
  lemma NetlocEndOf(host: string)
    requires forall k :: 0 <= k < |host| ==> !IsNetlocEnd(host[k])
    ensures NetlocEnd("//" + host, 2) == |host| + 2
    ensures ("//" + host)[2..NetlocEnd("//" + host, 2)] == host
  {
    var after := "//" + host;
    assert forall k :: 2 <= k < |after| ==> after[k] == host[k - 2];
    NetlocRunsOut(after, 2);
    assert after[2..] == host;
  }

  /** A scheme other than `http` and `https`, with nothing to clean and only
      ASCII without brackets after it, is rejected as an invalid scheme. */
  lemma {:induction false} OtherSchemeRejected(u: string, scheme: string, rest: string, lib: Stdlib)
    requires u == scheme + ":" + rest
    requires scheme != [] && IsAsciiLetter(scheme[0])
    requires forall k :: 0 <= k < |scheme| ==> IsSchemeChar(scheme[k])
    requires PyStrings.LowerAscii(scheme) != "http" && PyStrings.LowerAscii(scheme) != "https"
    requires forall k :: 0 <= k < |u| ==> !IsUnsafeByte(u[k])
    requires forall k :: 0 <= k < |rest| ==> IsPlainChar(rest[k])
    ensures ValidateUrl(u, lib) == Err(InvalidScheme(u))
  {
    assert u[0] == scheme[0];
    SplitAfterScheme(u, scheme, rest, lib);
    assert Clean(u) == u;
    SchemeRejected(u, lib);
  }

  /** A split whose scheme is neither `http` nor `https` is refused. */
  lemma SchemeRejected(u: string, lib: Stdlib)
    requires UrlSplit(u, lib).Ok? && UrlSplit(u, lib).value.scheme !in ["http", "https"]
    ensures ValidateUrl(u, lib) == Err(InvalidScheme(u))
  {
  }

  /** Splitting `scheme:rest` gives the lower-cased scheme. */
  lemma SplitAfterScheme(u: string, scheme: string, rest: string, lib: Stdlib)
    requires u == scheme + ":" + rest
    requires scheme != [] && IsAsciiLetter(scheme[0])
    requires forall k :: 0 <= k < |scheme| ==> IsSchemeChar(scheme[k])
    requires forall k :: 0 <= k < |rest| ==> IsPlainChar(rest[k])
    ensures SplitText(u, lib).Ok? && SplitText(u, lib).value.scheme == PyStrings.LowerAscii(scheme)
  {
    SchemeEndOf(u, scheme, rest);
    SplitAfterSchemeEnd(u, |scheme|, rest, lib);
  }

  lemma SchemeEndOf(u: string, scheme: string, rest: string)
    requires u == scheme + ":" + rest
    requires scheme != [] && IsAsciiLetter(scheme[0])
    requires forall k :: 0 <= k < |scheme| ==> IsSchemeChar(scheme[k])
    ensures SchemeEnd(u) == Some(|scheme|) && u[..|scheme|] == scheme && u[|scheme| + 1..] == rest
  {
    assert ':' !in scheme by {
      forall k | 0 <= k < |scheme| ensures scheme[k] != ':' { assert IsSchemeChar(scheme[k]); }
    }
    PyStrings.FindAfterFreePrefix(scheme, rest, ':');
    assert u[..|scheme|] == scheme && u[|scheme| + 1..] == rest;
  }

  /** Once the scheme ends at `i`, the split succeeds when only ASCII without
      brackets follows. */
  lemma SplitAfterSchemeEnd(u: string, i: nat, rest: string, lib: Stdlib)
    requires SchemeEnd(u) == Some(i) && u[i + 1..] == rest
    requires forall k :: 0 <= k < |rest| ==> IsPlainChar(rest[k])
    ensures SplitText(u, lib).Ok? && SplitText(u, lib).value.scheme == PyStrings.LowerAscii(u[..i])
  {
    if PyStrings.StartsWith(rest, "//") {
      var e := NetlocEnd(rest, 2);
      var netloc := rest[2..e];
      assert forall k :: 0 <= k < |netloc| ==> IsPlainChar(netloc[k]) by {
        assert forall k :: 0 <= k < |netloc| ==> netloc[k] == rest[k + 2];
      }
      PlainNetlocPasses(netloc, lib);
    }
  }

  /** The same for a scheme written in lower-case letters only. */
  lemma LowerSchemeRejected(u: string, scheme: string, rest: string, lib: Stdlib)
    requires u == scheme + ":" + rest
    requires scheme != [] && forall k :: 0 <= k < |scheme| ==> 'a' <= scheme[k] <= 'z'
    requires scheme != "http" && scheme != "https"
    requires forall k :: 0 <= k < |u| ==> !IsUnsafeByte(u[k])
    requires forall k :: 0 <= k < |rest| ==> IsPlainChar(rest[k])
    ensures ValidateUrl(u, lib) == Err(InvalidScheme(u))
  {
    assert PyStrings.LowerAscii(scheme) == scheme;
    OtherSchemeRejected(u, scheme, rest, lib);
  }

  lemma JavascriptRejected(u: string, lib: Stdlib)
    requires u == "javascript:alert(1)"
    ensures ValidateUrl(u, lib) == Err(InvalidScheme(u))
  {
    LowerSchemeRejected(u, "javascript", "alert(1)", lib);
  }

  lemma FtpRejected(u: string, lib: Stdlib)
    requires u == "ftp://unsecure-server"
    ensures ValidateUrl(u, lib) == Err(InvalidScheme(u))
  {
    LowerSchemeRejected(u, "ftp", "//unsecure-server", lib);
  }

  lemma EmptyHostRejected(u: string, lib: Stdlib)
    requires u == "http://"
    ensures ValidateUrl(u, lib) == Err(MissingDomain(u))
  {
    CleanHttp(u);
    EmptyHostSplit(u, lib);
    NoAuthorityRejected(u, lib);
  }

  lemma CleanHttp(u: string)
    requires u == "http://"
    ensures Clean(u) == u
  {
    assert u[0] == 'h';
    assert forall k :: 0 <= k < |u| ==> !IsUnsafeByte(u[k]);
  }

  /** A clean text whose split has a web scheme but no netloc is refused for
      its missing domain. */
  lemma NoAuthorityRejected(u: string, lib: Stdlib)
    requires Clean(u) == u
    requires SplitText(u, lib).Ok? && SplitText(u, lib).value.scheme == "http" && SplitText(u, lib).value.netloc == ""
    ensures ValidateUrl(u, lib) == Err(MissingDomain(u))
    ensures UrlSplit(u, lib).Ok? && UrlSplit(u, lib).value.scheme == "http"
  {
  }

  lemma EmptyHostSplit(u: string, lib: Stdlib)
    requires u == "http://"
    ensures SplitText(u, lib).Ok? && SplitText(u, lib).value.scheme == "http" && SplitText(u, lib).value.netloc == ""
  {
    assert PyStrings.LowerAscii(u[..4]) == "http" by {
      assert forall k :: 0 <= k < 4 ==> PyStrings.LowerChar(u[k]) == u[k];
    }
    SchemeOfWebPrefix(u, 4, "http");
    assert u[5..] == "//";
    assert IsAsciiText("");
  }

  /** The check runs on the cleaned text but hands back the original: a
      leading tab and a line break inside the host survive validation, so
      `"\thttp://exa\nmple.com"` comes back as it went in. */
  lemma BrokenWebUrlAccepted(u: string, a: string, b: string, lib: Stdlib)
    requires u == "\t" + a + "\n" + b
    requires a != [] && !IsC0OrSpace(a[0])
    requires forall k :: 0 <= k < |a| ==> !IsUnsafeByte(a[k])
    requires forall k :: 0 <= k < |b| ==> !IsUnsafeByte(b[k])
    requires WebUrl(a + b, lib)
    ensures ValidateUrl(u, lib) == Ok(u)
  {
    CleanAroundBreaks(a, b);
    ValidateUrlIff(u, lib);
  }

  /** A leading tab and a line break between two clean parts are dropped. */
  lemma CleanAroundBreaks(a: string, b: string)
    requires a != [] && !IsC0OrSpace(a[0])
    requires forall k :: 0 <= k < |a| ==> !IsUnsafeByte(a[k])
    requires forall k :: 0 <= k < |b| ==> !IsUnsafeByte(b[k])
    ensures Clean("\t" + a + "\n" + b) == a + b
  {
    var nb := "\n" + b;
    var t := a + nb;
    var u := "\t" + a + "\n" + b;
    assert u == "\t" + t;
    assert u[1..] == t;
    assert LStripC0(t) == t;
    assert LStripC0(u) == t;
    RemoveAppend(a, nb);
    assert RemoveUnsafe(a) == a;
    assert nb[1..] == b;
    assert RemoveUnsafe(b) == b;
    assert RemoveUnsafe(nb) == b;
  }

  /** `RemoveUnsafe` works character by character: with its own contract for
      one character, this says it deletes exactly the tabs and line breaks
      and keeps everything else in order. */
  lemma {:induction false} RemoveAppend(a: string, b: string)
    ensures RemoveUnsafe(a + b) == RemoveUnsafe(a) + RemoveUnsafe(b)
    decreases |a|
  {
    if a != [] {
      assert (a + b)[1..] == a[1..] + b;
      RemoveAppend(a[1..], b);
    } else {
      assert a + b == b;
    }
  }

  // ---------------------------------------------------------------------------
  // The decorator

  /** A call through `sanitized_url(func)(*args, **kwargs)`: only a keyword
      argument named `url` is validated; a value that is not text goes to
      `urlparse` as it is, where a falsy one parses as the empty URL (and the
      error names `str` of the value) and a truthy one raises. */
  function SanitizedCall<R>(func: (seq<Value>, map<string, Value>) -> R, args: seq<Value>, kwargs: map<string, Value>,
                            lib: Stdlib): (r: Result<R, UrlError>)
    ensures "url" !in kwargs ==> r == Ok(func(args, kwargs))
    ensures "url" in kwargs && kwargs["url"].Str? ==>
      (r.Ok? <==> ValidateUrl(kwargs["url"].s, lib).Ok?)
    ensures r.Ok? ==> r == Ok(func(args, kwargs))
    ensures "url" in kwargs && !kwargs["url"].Str? ==> r.Err? && (r == Err(NotText) <==> Truthy(kwargs["url"]))
    ensures "url" in kwargs && !kwargs["url"].Str? && !Truthy(kwargs["url"]) ==>
      r == Err(InvalidScheme(FalsyText(kwargs["url"])))
  {
    if "url" !in kwargs then Ok(func(args, kwargs))
    else
      match kwargs["url"]
      case Str(u) =>
        (match ValidateUrl(u, lib)
         case Ok(v) =>
           assert kwargs["url" := Str(v)] == kwargs;
           Ok(func(args, kwargs["url" := Str(v)]))
         case Err(e) => Err(e))
      case v =>
        if !Truthy(v) then Err(InvalidScheme(FalsyText(v))) else Err(NotText)
  }

  /** A falsy keyword `url` that is not text parses as the empty URL, and the
      error names the value as Python prints it. */
  lemma FalsyUrlNamed<R>(func: (seq<Value>, map<string, Value>) -> R, args: seq<Value>, lib: Stdlib)
    ensures SanitizedCall(func, args, map["url" := Null], lib) == Err(InvalidScheme("None"))
    ensures SanitizedCall(func, args, map["url" := Bool(false)], lib) == Err(InvalidScheme("False"))
    ensures SanitizedCall(func, args, map["url" := Int(0)], lib) == Err(InvalidScheme("0"))
    ensures SanitizedCall(func, args, map["url" := List([])], lib) == Err(InvalidScheme("[]"))
    ensures SanitizedCall(func, args, map["url" := Dict(map[])], lib) == Err(InvalidScheme("{}"))
  {
  }

  /** Positional arguments are never inspected, however malformed. */
  lemma PositionalUrlNotChecked<R>(func: (seq<Value>, map<string, Value>) -> R, kwargs: map<string, Value>, lib: Stdlib)
    requires "url" !in kwargs
    ensures SanitizedCall(func, [Str("javascript:alert(1)")], kwargs, lib).Ok?
  {
  }

  // ---------------------------------------------------------------------------
  // The sandbox

  /** `os.path.basename`: what follows the last `/`, the longest suffix free
      of `/`. */
  function Basename(p: string): (r: string)
    ensures '/' !in r && |r| <= |p| && r == p[|p| - |r|..]
    ensures |r| < |p| ==> p[|p| - |r| - 1] == '/'
  {
    AfterLast(p, '/')
  }

  /** `os.path.join(a, b)`: an absolute `b` replaces `a`; otherwise `b` follows
      `a`, with one `/` between them unless `a` is empty or already ends
      with one. */
  function PathJoin(a: string, b: string): (r: string)
    ensures PyStrings.StartsWith(b, "/") ==> r == b
    ensures !PyStrings.StartsWith(b, "/") ==> PyStrings.StartsWith(r, a) && PyStrings.EndsWith(r, b)
    ensures !PyStrings.StartsWith(b, "/") && a != [] && a[|a| - 1] != '/' ==> |r| == |a| + 1 + |b| && r[|a|] == '/'
    ensures !PyStrings.StartsWith(b, "/") && (a == [] || a[|a| - 1] == '/') ==> |r| == |a| + |b|
  {
    if PyStrings.StartsWith(b, "/") then b
    else if a == [] || a[|a| - 1] == '/' then a + b
    else a + "/" + b
  }

  /** Joining a base name onto a directory keeps it as the base name. */
  lemma JoinedBasename(a: string, b: string)
    requires b != [] && '/' !in b
    ensures Basename(PathJoin(a, b)) == b
  {
    assert !PyStrings.StartsWith(b, "/") by { assert b[0] != '/'; }
    if a == [] || a[|a| - 1] == '/' {
      AfterLastOf(a, b, '/');
    } else {
      AfterLastOf(a + "/", b, '/');
      assert a + "/" + b == (a + "/") + b;
    }
  }

  /** After a separator (or at the very start), text free of that separator
      is all that `AfterLast` keeps. */
  lemma AfterLastOf(p: string, b: string, sep: char)
    requires p == [] || p[|p| - 1] == sep
    requires sep !in b
    ensures AfterLast(p + b, sep) == b
  {
    var s := p + b;
    assert s[|p|..] == b;
    assert p != [] ==> s[|p| - 1] == sep;
    LastCutAt(s, sep, |p|);
  }

  /** A position just after a separator, or 0, beyond which no separator
      occurs, is where the last separator is cut. */
  lemma LastCutAt(s: string, sep: char, j: nat)
    requires j <= |s| && (j == 0 || s[j - 1] == sep)
    requires sep !in s[j..]
    ensures LastCut(s, sep) == j
  {
    var i := LastCut(s, sep);
    InSlice(s, i, j as int - 1);
    InSlice(s, j, i as int - 1);
  }

  /** A character at or after `i` is in the slice from `i`. */
  lemma InSlice(s: string, i: nat, k: int)
    requires i <= |s|
    ensures i <= k < |s| ==> s[k] in s[i..]
  {
    if i <= k < |s| {
      assert s[i..][k - i] == s[k];
    }
  }

  /** What `os.path.isfile` / `os.path.isdir` report for the target. */
  datatype PathKind = File | Directory | Neither

  /** How launching the process ends: its decoded output and exit status, or a
      missing executable. */
  datatype Spawn = Completed(stdout: string, stderr: string, returncode: int) | ExecutableNotFound

  datatype SandboxError =
    | NotFileOrDirectory(targetPath: string)  // the ValueError of line 75
    | EmptyCommand                            // `command[-1]` on an empty list
  /** The command after the last token is pointed into the sandbox. */
  function Redirected(command: seq<string>, kind: PathKind, targetPath: string, sandboxDir: string): (r: seq<string>)
    requires command != [] && kind != Neither
    ensures |r| == |command|
    ensures forall k :: 0 <= k < |command| - 1 ==> r[k] == command[k]
    ensures kind == File ==> r[|r| - 1] == PathJoin(sandboxDir, Basename(targetPath))
    ensures kind == Directory ==> r[|r| - 1] == sandboxDir
  {
    var last := if kind == File then PathJoin(sandboxDir, Basename(targetPath)) else sandboxDir;
    command[|command| - 1 := last]
  }

  /** The triple returned when the executable is missing. */
  function NotFoundResult(command: seq<string>): (r: (string, string, int))
    requires command != []
    ensures r.0 == "" && r.2 == 127
    ensures PyStrings.Contains(r.1, command[0])
  {
    var prefix := "Error: Command '";
    var msg := prefix + command[0] + "' not found in sandbox environment.";
    assert msg[|prefix|..|prefix| + |command[0]|] == command[0];
    PyStrings.ContainsAt(msg, command[0], |prefix|);
    ("", msg, 127)
  }

  /** `run_in_sandbox(command, target_path)`: the caller's `command` list is
      changed in place, its last token now naming the copy in the sandbox;
      then the command is run there.  Copying files and the temporary
      directory are the environment's business: `kindOf` says what the target
      is and `sandboxDir` is the fresh directory's path. */
  method RunInSandbox(command: array<string>, targetPath: string, kindOf: string -> PathKind,
                      sandboxDir: string, spawn: seq<string> -> Spawn)
    returns (r: Result<(string, string, int), SandboxError>)
    modifies command
    ensures kindOf(targetPath) == Neither ==> r == Err(NotFileOrDirectory(targetPath)) && command[..] == old(command[..])
    ensures kindOf(targetPath) != Neither && command.Length == 0 ==> r == Err(EmptyCommand)
    ensures kindOf(targetPath) != Neither && command.Length > 0 ==>
      command[..] == Redirected(old(command[..]), kindOf(targetPath), targetPath, sandboxDir)
    ensures kindOf(targetPath) != Neither && command.Length > 0 && spawn(command[..]).Completed? ==>
      r == Ok((spawn(command[..]).stdout, spawn(command[..]).stderr, spawn(command[..]).returncode))
    ensures kindOf(targetPath) != Neither && command.Length > 0 && spawn(command[..]).ExecutableNotFound? ==>
      r == Ok(NotFoundResult(command[..]))
  {
    var kind := kindOf(targetPath);
    if kind == Neither {
      return Err(NotFileOrDirectory(targetPath));
    }
    if command.Length == 0 {
      return Err(EmptyCommand);
    }
    RedirectLast(command, kind, targetPath, sandboxDir);
    var redirected := command[..];
    match spawn(redirected)
    case Completed(out, err, code) =>
      r := Ok((out, err, code));
    case ExecutableNotFound =>
      r := Ok(NotFoundResult(redirected));
  }

  /** Lines 58-73: the last token of `command`, in place, becomes the sandbox
      copy of a file or the sandbox directory. */
  method RedirectLast(command: array<string>, kind: PathKind, targetPath: string, sandboxDir: string)
    requires command.Length > 0 && kind != Neither
    modifies command
    ensures command[..] == Redirected(old(command[..]), kind, targetPath, sandboxDir)
  {
    var last := if kind == File then PathJoin(sandboxDir, Basename(targetPath)) else sandboxDir;
    ghost var before := command[..];
    command[command.Length - 1] := last;
    assert command[..] == before[|before| - 1 := last];
  }

  /** For a one-token command that token is the one rewritten, so the
      not-found message would name the sandbox path rather than the program.
      In the program this path is hardly reachable: the token then names the
      sandbox copy or the sandbox directory, which exist, so starting it fails
      with a `PermissionError` rather than `FileNotFoundError`, and that
      error escapes.  `Spawn` does not tell the two apart. */
  lemma SingleTokenMessage(program: string, targetPath: string, sandboxDir: string)
    ensures NotFoundResult(Redirected([program], Directory, targetPath, sandboxDir)).1 ==
            "Error: Command '" + sandboxDir + "' not found in sandbox environment."
  {
  }

  /** A file target lands in the sandbox directory under its own base name. */
  lemma FileTargetInSandbox(command: seq<string>, targetPath: string, sandboxDir: string)
    requires command != [] && sandboxDir != [] && sandboxDir[|sandboxDir| - 1] != '/'
    ensures Redirected(command, File, targetPath, sandboxDir)[|command| - 1] == sandboxDir + "/" + Basename(targetPath)
    ensures Basename(targetPath) != [] ==>
      Basename(Redirected(command, File, targetPath, sandboxDir)[|command| - 1]) == Basename(targetPath)
  {
    var b := Basename(targetPath);
    assert !PyStrings.StartsWith(b, "/") by {
      assert b != [] ==> b[0] != '/';
    }
    if b != [] {
      JoinedBasename(sandboxDir, b);
    }
  }

  // ---------------------------------------------------------------------------
  // Audit records

  /** The record `log_audit_event` writes; the timestamp comes from the clock. */
  function AuditEntry(timestamp: string, user: string, action: string, metadata: Value): (r: Value)
    ensures r.Dict? && r.fields.Keys == {"timestamp", "user", "action", "metadata"}
    ensures r.fields["user"] == Str(user) && r.fields["action"] == Str(action)
    ensures r.fields["metadata"] == if metadata == Null then EmptyDict else metadata
  {
    Dict(map["timestamp" := Str(timestamp), "user" := Str(user), "action" := Str(action),
             "metadata" := if metadata == Null then EmptyDict else metadata])
  }
}
