/** The `subdomain_scanner` tool (src/tools/subdomain_scanner.py): its own
    copy of `find_subdomains`, with a weaker local URL check, and the report
    `SubdomainScanner.execute` writes. */
module SubdomainScanner {
  import opened Wrappers
  import opened Values
  import opened PyStrings
  import Security
  import Subdomains

  /** The local `validate_url` (lines 10-14): only the scheme of `urlparse` is
      looked at.  `urlparse` itself raises the same `ValueError` on a bracket
      without its partner. */
  function LocalValidate(url: string, lib: Security.Stdlib): (r: Result<string, Security.UrlError>)
    ensures r.Ok? <==> Security.UrlSplit(url, lib).Ok? && Security.UrlSplit(url, lib).value.scheme in ["http", "https"]
    ensures r.Ok? ==> r.value == url
  {
    var parts :- Security.UrlSplit(url, lib);
    if parts.scheme !in ["http", "https"] then Err(Security.InvalidScheme(url)) else Ok(url)
  }

  /** Whatever the shared check accepts, the local one accepts too. */
  lemma LocalAcceptsValidated(url: string, lib: Security.Stdlib)
    requires Security.ValidateUrl(url, lib).Ok?
    ensures LocalValidate(url, lib) == Ok(url)
  {
  }

  /** Unlike the shared check, the local one lets a URL without a host through. */
  lemma LocalAcceptsEmptyHost(u: string, lib: Security.Stdlib)
    requires u == "http://"
    ensures LocalValidate(u, lib) == Ok(u)
    ensures Security.ValidateUrl(u, lib).Err?
  {
    Security.CleanHttp(u);
    Security.EmptyHostSplit(u, lib);
    Security.NoAuthorityRejected(u, lib);
  }

  /** `find_subdomains(target)` (lines 5-39): the same query and loop as in
      src/main.py, behind the local check. */
  method FindSubdomains(target: string, fetch: string -> Subdomains.Fetch, lib: Security.Stdlib) returns (r: Subdomains.Lookup)
    ensures fetch(Subdomains.CrtShUrl(target)).RequestFailed? ==> r == Subdomains.Failed
    ensures fetch(Subdomains.CrtShUrl(target)) == Subdomains.Received(None) ==> r == Subdomains.Failed
    ensures fetch(Subdomains.CrtShUrl(target)).Received? && fetch(Subdomains.CrtShUrl(target)).json.Some? ==>
      (var names := Subdomains.NamesFromJson(fetch(Subdomains.CrtShUrl(target)).json.value);
       && (r.Raised? <==> names.None?)
       && (r.Found? <==> names.Some?)
       && (r.Found? ==> Subdomains.StrictlySorted(r.names) && |r.names| == |names.value|)
       && (r.Found? ==> forall x :: x in r.names <==> x in names.value))
  {
    var url := Subdomains.CrtShUrl(target);
    Subdomains.CrtShUrlAccepted(target, lib);
    LocalAcceptsValidated(url, lib);
    var checked := LocalValidate(url, lib);
    if checked.Err? {
      return Subdomains.Failed;
    }
    var response := fetch(url);
    if response.RequestFailed? || response.json.None? {
      return Subdomains.Failed;
    }
    var entries := Subdomains.JsonEntries(response.json.value);
    if entries.None? {
      return Subdomains.Raised;
    }
    var names := Subdomains.CollectSubdomains(entries.value);
    if names.None? {
      return Subdomains.Raised;
    }
    var sorted := Subdomains.SortedNames(names.value);
    r := Subdomains.Found(sorted);
  }

  function Header(target: string): string {
    "[*] Searching for subdomains for " + target + "..."
  }

  function CountLine(n: nat): string {
    "[+] Found " + NatToString(n) + " unique subdomains:"
  }

  const NoneFound: string := "[-] No subdomains found."

  /** The lines `execute` echoes (lines 44-53) for the lookup's outcome; an
      exception from the lookup leaves only the first line. */
  function Report(target: string, lookup: Subdomains.Lookup): (r: seq<string>)
    ensures r != [] && r[0] == Header(target)
    ensures lookup.Raised? ==> r == [Header(target)]
    ensures lookup.Found? && lookup.names != [] ==>
      |r| == 2 + |lookup.names| && r[1] == CountLine(|lookup.names|) && r[2..] == lookup.names
    ensures lookup.Failed? || lookup == Subdomains.Found([]) ==> r == [Header(target), NoneFound]
  {
    match lookup
    case Raised => [Header(target)]
    case Failed => [Header(target), NoneFound]
    case Found(names) =>
      if names != [] then [Header(target), CountLine(|names|)] + names
      else [Header(target), NoneFound]
  }

  /** `SubdomainScanner.execute(target)`: the report and whether an exception
      escaped. */
  method Execute(target: string, fetch: string -> Subdomains.Fetch, lib: Security.Stdlib) returns (lines: seq<string>, raised: bool)
    ensures lines != [] && lines[0] == Header(target)
    ensures raised <==> |lines| == 1
    ensures (fetch(Subdomains.CrtShUrl(target)).RequestFailed? || fetch(Subdomains.CrtShUrl(target)) == Subdomains.Received(None)) ==>
      lines == [Header(target), NoneFound] && !raised
    ensures fetch(Subdomains.CrtShUrl(target)).Received? && fetch(Subdomains.CrtShUrl(target)).json.Some? ==>
      (var names := Subdomains.NamesFromJson(fetch(Subdomains.CrtShUrl(target)).json.value);
       && (raised <==> names.None?)
       && (names.Some? && names.value == {} ==> lines == [Header(target), NoneFound])
       && (names.Some? && names.value != {} ==>
             |lines| == 2 + |names.value| && lines[1] == CountLine(|names.value|)
             && Subdomains.StrictlySorted(lines[2..]) && forall x :: x in lines[2..] <==> x in names.value))
  {
    var lookup := FindSubdomains(target, fetch, lib);
    lines := Report(target, lookup);
    raised := lookup.Raised?;
  }
}
