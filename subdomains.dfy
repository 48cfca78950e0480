/** `find_subdomains(target)` of src/main.py: the crt.sh query, the
    normalisation of the certificate names it returns, and the sorted,
    duplicate-free result.  src/tools/subdomain_scanner.py repeats the same
    collection loop; module SubdomainScanner reuses `CollectSubdomains`. */
module Subdomains {
  import opened Wrappers
  import opened Values
  import opened PyStrings
  import Security

  // ---------------------------------------------------------------------------
  // The crt.sh request

  /** The query URL built at line 58. */
  function CrtShUrl(target: string): string {
    "https://crt.sh/?q=%." + target + "&output=json"
  }

  /** How the HTTP request ends: a `RequestException` (a connection error, a
      timeout or a bad status from `raise_for_status`), or a body that
      `response.json()` decodes (`None`: not JSON, a `ValueError`). */
  datatype Fetch = RequestFailed | Received(json: Option<Value>)

  /** What `find_subdomains` does: return the sorted names, return `None`
      after reporting a caught exception, or let an exception escape (an
      `AttributeError` or `TypeError` from a body of the wrong shape). */
  datatype Lookup = Found(names: seq<string>) | Failed | Raised

  /** The crt.sh URL always passes `validate_url`, whatever the target: its
      scheme is `https` and its netloc is `crt.sh`, the target landing in the
      query, and its host is plain ASCII, so neither `ipaddress` nor NFKC
      decides anything.  So the `ValueError` handler is reached only from
      `response.json()`. */
  lemma CrtShUrlAccepted(target: string, lib: Security.Stdlib)
    ensures Security.ValidateUrl(CrtShUrl(target), lib) == Ok(CrtShUrl(target))
  {
    var host := "crt.sh";
    var tail := "/?q=%." + target + "&output=json";
    assert CrtShUrl(target) == "https" + "://" + host + tail;
    assert Security.PlainHost(host) by {
      assert forall k :: 0 <= k < |host| ==> Security.HostChar(host[k]);
    }
    Security.PathUrlAccepted("https", host, tail, lib);
  }

  // ---------------------------------------------------------------------------
  // Normalisation (lines 68-72)

  /** One raw line of `name_value`: a leading `*.` is dropped once, then
      surrounding whitespace. */
  function Normalize(line: string): string {
    Strip(if StartsWith(line, "*.") then line[2..] else line)
  }

  /** The names contributed by the lines of one `name_value`. */
  function NormalizedSet(lines: seq<string>): set<string> {
    if lines == [] then {}
    else NormalizedSet(lines[..|lines| - 1]) + {Normalize(lines[|lines| - 1])}
  }

  /** Every name of the set comes from one of the lines; the witness is its index. */
  lemma {:induction false} NormalizedOrigin(lines: seq<string>, x: string) returns (k: nat)
    requires x in NormalizedSet(lines)
    ensures k < |lines| && Normalize(lines[k]) == x
    decreases |lines|
  {
    var init := lines[..|lines| - 1];
    if x in NormalizedSet(init) {
      k := NormalizedOrigin(init, x);
      assert init[k] == lines[k];
    } else {
      k := |lines| - 1;
    }
  }

  /** What `response.json()` iterates over: a list's items; an empty object
      or empty string iterates over nothing; a non-empty object or string
      yields text entries, on which `.get` raises; numbers, booleans and null
      are not iterable.  `None` stands for the exception. */
  function JsonEntries(v: Value): Option<seq<Value>> {
    match v
    case List(items) => Some(items)
    case Dict(f) => if f == map[] then Some([]) else None
    case Str(s) => if s == "" then Some([]) else None
    case _ => None
  }

  /** The names one entry contributes (lines 64-72), or `None` when the loop
      body raises: the entry is not an object, or its `name_value` is truthy
      but not text. */
  function EntryNames(e: Value): Option<set<string>> {
    if !e.Dict? then None
    else if !Truthy(NameValue(e)) then Some({})
    else if NameValue(e).Str? then Some(NormalizedSet(Split(NameValue(e).s, '\n')))
    else None
  }

  /** `entry.get('name_value', '')`. */
  function NameValue(e: Value): Value
    requires e.Dict?
  {
    Get(e.fields, "name_value", Str(""))
  }

  /** The set after the loop over `entries`, or `None` once an entry raised. */
  function NamesOf(entries: seq<Value>): Option<set<string>> {
    if entries == [] then Some({})
    else
      match NamesOf(entries[..|entries| - 1])
      case None => None
      case Some(a) =>
        match EntryNames(entries[|entries| - 1])
        case None => None
        case Some(b) => Some(a + b)
  }

  /** The names of a decoded body, or `None` when the iteration raises. */
  function NamesFromJson(v: Value): Option<set<string>> {
    match JsonEntries(v)
    case None => None
    case Some(es) => NamesOf(es)
  }

  lemma NamesOfSnoc(entries: seq<Value>, e: Value)
    ensures NamesOf(entries + [e]) ==
      match NamesOf(entries)
      case None => None
      case Some(a) =>
        match EntryNames(e)
        case None => None
        case Some(b) => Some(a + b)
  {
    assert (entries + [e])[..|entries|] == entries;
  }

  /** Once an entry raises, the loop has raised, whatever follows. */
  lemma {:induction false} RaisedStays(entries: seq<Value>, i: nat)
    requires i <= |entries| && NamesOf(entries[..i]) == None
    ensures NamesOf(entries) == None
    decreases |entries| - i
  {
    if i < |entries| {
      NamesOfSnoc(entries[..i], entries[i]);
      assert entries[..i + 1] == entries[..i] + [entries[i]];
      RaisedStays(entries, i + 1);
    } else {
      assert entries[..i] == entries;
    }
  }

  /** The inner loop of lines 68-72: every line of one `name_value`, with a
      leading `*.` dropped and stripped, is added to the set. */
  method AddLines(subdomains: set<string>, pieces: seq<string>) returns (after: set<string>)
    ensures after == subdomains + NormalizedSet(pieces)
  {
    after := subdomains;
    var j := 0;
    while j < |pieces|
      invariant 0 <= j <= |pieces|
      invariant after == subdomains + NormalizedSet(pieces[..j])
    {
      var subdomain := pieces[j];
      assert pieces[..j + 1][..j] == pieces[..j];
      if StartsWith(subdomain, "*.") {
        subdomain := subdomain[2..];
      }
      assert Strip(subdomain) == Normalize(pieces[j]);
      after := after + {Strip(subdomain)};
      j := j + 1;
    }
    assert pieces[..j] == pieces;
  }

  /** The loop of lines 64-72 over the decoded entries. */
  method CollectSubdomains(entries: seq<Value>) returns (r: Option<set<string>>)
    ensures r == NamesOf(entries)
  {
    var subdomains: set<string> := {};
    var i := 0;
    while i < |entries|
      invariant 0 <= i <= |entries|
      invariant NamesOf(entries[..i]) == Some(subdomains)
    {
      var entry := entries[i];
      NamesOfSnoc(entries[..i], entry);
      assert entries[..i + 1] == entries[..i] + [entry];
      if !entry.Dict? {
        RaisedStays(entries, i + 1);
        return None;
      }
      var nameValue := Get(entry.fields, "name_value", Str(""));
      assert nameValue == NameValue(entry);
      if Truthy(nameValue) {
        if !nameValue.Str? {
          RaisedStays(entries, i + 1);
          return None;
        }
        assert EntryNames(entry) == Some(NormalizedSet(Split(nameValue.s, '\n')));
        subdomains := AddLines(subdomains, Split(nameValue.s, '\n'));
      } else {
        assert EntryNames(entry) == Some({});
        assert subdomains + {} == subdomains;
      }
      assert NamesOf(entries[..i + 1]) == Some(subdomains);
      i := i + 1;
    }
    assert entries[..i] == entries;
    r := Some(subdomains);
  }

  // ---------------------------------------------------------------------------
  // sorted(list(subdomains))

  /** Ascending in Python's string order, which also rules out duplicates. */
  predicate StrictlySorted(r: seq<string>) {
    forall i, j :: 0 <= i < j < |r| ==> Less(r[i], r[j])
  }

  /** Insertion into a sorted list; the model of `sorted` builds its result so. */
  function Insert(x: string, r: seq<string>): (q: seq<string>)
    requires StrictlySorted(r) && x !in r
    ensures StrictlySorted(q) && |q| == |r| + 1
    ensures forall y :: y in q <==> y == x || y in r
    decreases |r|
  {
    if r == [] then [x]
    else if Less(x, r[0]) then
      forall j | 0 <= j < |r| ensures Less(x, r[j]) {
        if j > 0 { LessTransitive(x, r[0], r[j]); }
      }
      [x] + r
    else
      LessTotal(x, r[0]);
      var tail := Insert(x, r[1..]);
      forall y | y in tail ensures Less(r[0], y) {
        if y != x {
          var j :| 0 <= j < |r[1..]| && r[1..][j] == y;
          assert r[j + 1] == y;
        }
      }
      [r[0]] + tail
  }

  /** `sorted(list(s))`: the elements of `s` in ascending order. */
  method SortedNames(s: set<string>) returns (r: seq<string>)
    ensures StrictlySorted(r) && |r| == |s|
    ensures forall x :: x in r <==> x in s
  {
    r := [];
    var rest := s;
    while rest != {}
      invariant rest <= s && StrictlySorted(r) && |r| + |rest| == |s|
      invariant forall x :: x in r <==> x in s && x !in rest
      decreases |rest|
    {
      var x :| x in rest;
      r := Insert(x, r);
      rest := rest - {x};
    }
  }

  /** A sorted list without duplicates is determined by its elements, so the
      result of `sorted` is the only possible one. */
  lemma {:induction false} SortedUnique(a: seq<string>, b: seq<string>)
    requires StrictlySorted(a) && StrictlySorted(b)
    requires forall x :: x in a <==> x in b
    ensures a == b
    decreases |a|
  {
    if a != [] { assert a[0] in a; }
    if b != [] { assert b[0] in b; }
    if a != [] {
      SameHead(a, b);
      forall x ensures x in a[1..] <==> x in b[1..] {
        TailMember(a, x);
        TailMember(b, x);
      }
      SortedUnique(a[1..], b[1..]);
      assert a == [a[0]] + a[1..] && b == [b[0]] + b[1..];
    }
  }

  /** Two strictly sorted lists with the same elements start alike. */
  lemma SameHead(a: seq<string>, b: seq<string>)
    requires StrictlySorted(a) && StrictlySorted(b) && a != [] && b != []
    requires forall x :: x in a <==> x in b
    ensures a[0] == b[0]
  {
    assert a[0] in a && b[0] in b;
    if a[0] != b[0] {
      var i :| 0 <= i < |b| && b[i] == a[0];
      var j :| 0 <= j < |a| && a[j] == b[0];
      assert Less(b[0], b[i]) && Less(a[0], a[j]);
      LessTransitive(a[0], b[0], a[0]);
      LessIrreflexive(a[0]);
    }
  }

  /** In a strictly sorted list, the tail holds exactly the elements other
      than the head. */
  lemma TailMember(a: seq<string>, x: string)
    requires StrictlySorted(a) && a != []
    ensures x in a[1..] <==> x in a && x != a[0]
  {
    assert a == [a[0]] + a[1..];
    if x in a[1..] {
      var j :| 0 <= j < |a[1..]| && a[1..][j] == x;
      assert Less(a[0], a[j + 1]);
      LessIrreflexive(x);
    }
  }

  /** No name occurs twice in a strictly sorted list. */
  lemma SortedNoDuplicates(r: seq<string>, i: nat, j: nat)
    requires StrictlySorted(r) && i < j < |r|
    ensures r[i] != r[j]
  {
    LessIrreflexive(r[i]);
  }

  // ---------------------------------------------------------------------------
  // find_subdomains

  /** `find_subdomains(target)` (lines 55-80), with the HTTP request as the
      oracle `fetch` and the standard-library services `urlsplit` calls as
      `lib`. */
  method FindSubdomains(target: string, fetch: string -> Fetch, lib: Security.Stdlib) returns (r: Lookup)
    ensures fetch(CrtShUrl(target)).RequestFailed? ==> r == Failed
    ensures fetch(CrtShUrl(target)) == Received(None) ==> r == Failed
    ensures fetch(CrtShUrl(target)).Received? && fetch(CrtShUrl(target)).json.Some? ==>
      (var names := NamesFromJson(fetch(CrtShUrl(target)).json.value);
       && (r.Raised? <==> names.None?)
       && (r.Found? <==> names.Some?)
       && (r.Found? ==> StrictlySorted(r.names) && |r.names| == |names.value|)
       && (r.Found? ==> forall x :: x in r.names <==> x in names.value))
  {
    var url := CrtShUrl(target);
    var checked := Security.ValidateUrl(url, lib);
    CrtShUrlAccepted(target, lib);
    if checked.Err? {
      return Failed;
    }
    var response := fetch(url);
    if response.RequestFailed? || response.json.None? {
      return Failed;
    }
    var entries := JsonEntries(response.json.value);
    if entries.None? {
      return Raised;
    }
    var names := CollectSubdomains(entries.value);
    if names.None? {
      return Raised;
    }
    var sorted := SortedNames(names.value);
    r := Found(sorted);
  }

  // ---------------------------------------------------------------------------
  // Properties of the normalisation

  /** `*.` is removed once only: a doubled wildcard keeps its second `*.`. */
  lemma WildcardRemovedOnce(x: string)
    requires x == [] || !IsSpace(x[|x| - 1])
    ensures Normalize("*." + "*." + x) == "*." + x
  {
    var line := "*." + "*." + x;
    assert StartsWith(line, "*.");
    assert line[2..] == "*." + x;
    StripKeepsInner("*." + x);
  }

  /** The wildcard test comes before stripping, so a wildcard after leading
      whitespace is kept. */
  lemma WildcardAfterSpaceKept(x: string)
    requires x == [] || !IsSpace(x[|x| - 1])
    ensures Normalize(" " + "*." + x) == "*." + x
  {
    var w := "*." + x;
    var line := " " + w;
    assert " " + "*." + x == line;
    assert Normalize(line) == Strip(line) by {
      assert line[0] == ' ';
    }
    assert LStrip(line) == LStrip(w) by {
      assert line[0] == ' ' && line[1..] == w;
    }
    assert Strip(w) == w by {
      assert w[0] == '*';
      assert w[|w| - 1] == if x == [] then '.' else x[|x| - 1];
      StripKeepsInner(w);
    }
  }

  /** A `name_value` ending in a line break also contributes the empty name
      of its last, empty line. */
  lemma TrailingBreakAddsEmptyName(fields: map<string, Value>, s: string)
    requires '\n' !in s
    requires "name_value" in fields && fields["name_value"] == Str(s + "\n")
    ensures EntryNames(Dict(fields)) == Some({Normalize(s), ""})
  {
    var nv := s + "\n";
    assert Split(nv, '\n') == [s, ""] by {
      SplitAfterFreePrefix(s, "", '\n');
      assert s + ['\n'] + "" == nv;
      assert Split("", '\n') == [""];
    }
    NormalizedPair(s, "");
    assert Normalize("") == "" by {
      assert !StartsWith("", "*.");
    }
    assert Truthy(Str(nv)) by { assert |nv| > 0; }
  }

  lemma NormalizedPair(a: string, b: string)
    ensures NormalizedSet([a, b]) == {Normalize(a), Normalize(b)}
  {
    var ab := [a, b];
    assert ab[..1] == [a];
    assert NormalizedSet(ab) == NormalizedSet([a]) + {Normalize(b)};
    assert [a][..0] == [];
    assert NormalizedSet([a]) == {Normalize(a)};
  }

  /** An entry whose `name_value` is missing or empty contributes nothing. */
  lemma EmptyNameValueContributesNothing(fields: map<string, Value>)
    requires "name_value" !in fields || fields["name_value"] == Str("")
    ensures EntryNames(Dict(fields)) == Some({})
  {
  }

  /** Every name found comes from a line of some entry's `name_value`: the
      witnesses are the entry's index and the line's index. */
  lemma {:induction false} NamesHaveOrigin(entries: seq<Value>, x: string) returns (k: nat, j: nat)
    requires NamesOf(entries).Some? && x in NamesOf(entries).value
    ensures k < |entries| && entries[k].Dict? && NameValue(entries[k]).Str?
    ensures j < |Split(NameValue(entries[k]).s, '\n')|
    ensures Normalize(Split(NameValue(entries[k]).s, '\n')[j]) == x
    decreases |entries|
  {
    var init := entries[..|entries| - 1];
    var e := entries[|entries| - 1];
    if x in NamesOf(init).value {
      k, j := NamesHaveOrigin(init, x);
      assert entries[k] == init[k];
    } else {
      k := |entries| - 1;
      j := NormalizedOrigin(Split(NameValue(e).s, '\n'), x);
    }
  }
}
