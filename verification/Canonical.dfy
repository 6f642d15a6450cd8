/** URL canonicalization in `src/dedupe.rs`. */
module Canonical {
  import opened Text
  import opened Sorting

  const MAX_REDIRECT_DEPTH := 3

  type Pair = (string, string)

  /** A parsed URL; `query` holds the decoded pairs, none if there is no query, and
      `login` the user, password and port, which nothing here touches. */
  datatype Url = Url(scheme: string, login: string, host: Option<string>, path: string, query: seq<Pair>,
                     fragment: Option<string>) {
    predicate Web() { (scheme == "http" || scheme == "https") && host.Some? }
    predicate Rooted() { path != "" && path[0] == '/' }
  }

  predicate Tracking(key: string) {
    var k := LowerAll(key);
    "utm_" <= k || k == "ref" || k == "fbclid" || k == "gclid" || k == "s"
    || k == "si" || k == "mc_cid" || k == "mc_eid"
  }

  function Untracked(query: seq<Pair>): seq<Pair> {
    if query == [] then []
    else (if Tracking(query[0].0) then [] else [query[0]]) + Untracked(query[1..])
  }

  /** The path without its trailing slashes, but never empty. */
  function TrimPath(path: string): string {
    if |path| > 1 && EndsWith(path, "/") then
      var p := StripEnd(path, '/');
      if p == "" then "/" else p
    else path
  }

  /** The canonical URL of `u` itself. */
  function Clean(u: Url): Url {
    Url(u.scheme, u.login, if u.host.Some? then Some(LowerAll(u.host.value)) else None,
        TrimPath(u.path), Untracked(u.query), None)
  }

  predicate IsClean(u: Url) {
    u.Web() && u.Rooted() && u.host.value == LowerAll(u.host.value) && u.fragment.None?
    && (u.path == "/" || !EndsWith(u.path, "/"))
    && forall i :: 0 <= i < |u.query| ==> !Tracking(u.query[i].0)
  }

  // -------------------------------------------------------------------------
  // The URL library
  // -------------------------------------------------------------------------

  /** Parsing, printing and percent-decoding. */
  datatype Library = Library(parse: string -> Option<Url>, print_: Url -> string, decode: string -> Option<string>) {
    ghost predicate Readable(u: Url) { exists s :: parse(s) == Some(u) }

    /** The clean URL is read back from its text. Only a bare root ends in a slash, a single
        one, and it is read back without that slash, too. */
    ghost predicate ReadsBack(v: Url) {
      var out := print_(v);
      && Tight(out) && parse(out) == Some(v)
      && (v.query == [] ==> (EndsWith(out, "/") <==> v.path == "/"))
      && (v.query == [] && v.path == "/" ==>
            Tight(out[..|out| - 1]) && parse(out[..|out| - 1]) == Some(v) && !EndsWith(out[..|out| - 1], "/"))
    }

    /** What the library promises of the web URLs it reads. */
    ghost predicate Faithful() {
      forall u :: Readable(u) && u.Web() ==> u.Rooted() && ReadsBack(Clean(u))
    }

    /** The web URL in a text, if it is one. */
    function Read(raw: string): (r: Option<Url>)
      ensures r.Some? ==> r.value.Web() && Readable(r.value)
    {
      var trimmed := Trim(raw);
      if trimmed == "" then None
      else match parse(trimmed)
           case Some(u) => if u.Web() then Some(u) else None
           case None => None
    }

    function Text(u: Url): string {
      var out := print_(u);
      if u.query == [] && EndsWith(out, "/") then out[..|out| - 1] else out
    }
  }

  /** Not empty, and no whitespace at either end. */
  predicate Tight(s: string) { s != "" && Trim(s) == s }

  // -------------------------------------------------------------------------
  // Redirectors
  // -------------------------------------------------------------------------

  const SCOUR_PREFIX := "/r/rss/"

  predicate Scour(u: Url) {
    u.host.Some?
    && (LowerAll(u.host.value) == "scour.ing" || LowerAll(u.host.value) == "www.scour.ing")
    && SCOUR_PREFIX <= u.path
  }

  predicate Google(u: Url) {
    u.host.Some?
    && var host := LowerAll(u.host.value);
       || host == "news.google.com" || EndsWith(host, ".news.google.com") || host == "news.url.google.com"
       || ((host == "www.google.com" || host == "google.com") && u.path == "/url")
  }

  predicate CarriesTarget(key: string) { key == "url" || key == "q" }

  /** The value of the first pair with the target. */
  function TargetPair(query: seq<Pair>): Option<string> {
    if query == [] then None
    else if CarriesTarget(query[0].0) then Some(query[0].1)
    else TargetPair(query[1..])
  }

  /** `redirect_target`. */
  function RedirectTarget(u: Url, lib: Library): Option<string> {
    if Scour(u) then
      match lib.decode(u.path[|SCOUR_PREFIX|..])
      case Some(target) =>
        if lib.parse(target).Some? && lib.parse(target).value.Web() then Some(target) else None
      case None => None
    else if Google(u) then
      match TargetPair(u.query)
      case Some(target) => if "http" <= target then Some(target) else None
      case None => None
    else None
  }

  type Redirector = Url -> Option<string>

  function Known(lib: Library): Redirector { u => RedirectTarget(u, lib) }

  /** The URL redirects to something that is a web URL. */
  predicate Redirects(u: Url, lib: Library, target: Redirector) {
    target(u).Some? && lib.Read(target(u).value).Some?
  }

  // -------------------------------------------------------------------------
  // canonicalize
  // -------------------------------------------------------------------------

  function Canonicalized(raw: string, depth: nat, lib: Library, target: Redirector): Option<string>
    requires depth <= MAX_REDIRECT_DEPTH
    decreases MAX_REDIRECT_DEPTH - depth
  {
    match lib.Read(raw)
    case None => None
    case Some(u) =>
      var resolved :=
        if depth < MAX_REDIRECT_DEPTH && target(u).Some? then Canonicalized(target(u).value, depth + 1, lib, target)
        else None;
      if resolved.Some? then resolved else Some(lib.Text(Clean(u)))
  }

  function CanonicalUrl(raw: string, lib: Library): Option<string> { Canonicalized(raw, 0, lib, Known(lib)) }

  /** `canonicalize`. */
  method Canonicalize(raw: string, depth: nat, lib: Library) returns (r: Option<string>)
    requires depth <= MAX_REDIRECT_DEPTH
    ensures r == Canonicalized(raw, depth, lib, Known(lib))
    decreases MAX_REDIRECT_DEPTH - depth
  {
    var read := lib.Read(raw);
    if read.None? {
      return None;
    }
    var target := RedirectTarget(read.value, lib);
    if depth < MAX_REDIRECT_DEPTH && target.Some? {
      var resolved := Canonicalize(target.value, depth + 1, lib);
      if resolved.Some? {
        return resolved;
      }
    }
    var url := CleanInPlace(read.value);
    var out := lib.print_(url);
    if url.query == [] && EndsWith(out, "/") {
      out := out[..|out| - 1];
    }
    r := Some(out);
  }

  /** The edits of the parsed URL, in their order. */
  method CleanInPlace(u: Url) returns (url: Url)
    ensures url == Clean(u)
  {
    url := u.(fragment := None);
    if url.host.Some? {
      var lower := LowerAll(url.host.value);
      if lower != url.host.value {
        url := url.(host := Some(lower));
      }
    }
    var kept := KeepUntracked(url.query);
    url := url.(query := kept);
    if |url.path| > 1 && EndsWith(url.path, "/") {
      var p := StripEnd(url.path, '/');
      url := url.(path := if p == "" then "/" else p);
    }
  }

  method KeepUntracked(query: seq<Pair>) returns (kept: seq<Pair>)
    ensures kept == Untracked(query)
  {
    kept := [];
    for i := 0 to |query|
      invariant kept + Untracked(query[i..]) == Untracked(query)
    {
      UntrackedStep(query, i, kept);
      if !Tracking(query[i].0) {
        kept := kept + [query[i]];
      }
    }
    assert kept + [] == kept;
  }

  lemma UntrackedStep(query: seq<Pair>, i: nat, kept: seq<Pair>)
    requires i < |query|
    ensures kept + Untracked(query[i..])
         == (if Tracking(query[i].0) then kept else kept + [query[i]]) + Untracked(query[i + 1..])
  {
    assert query[i..][1..] == query[i + 1..];
  }

  // -------------------------------------------------------------------------
  // Results
  // -------------------------------------------------------------------------

  lemma {:induction false} UntrackedIs(query: seq<Pair>)
    ensures forall i :: 0 <= i < |Untracked(query)| ==> !Tracking(Untracked(query)[i].0)
    ensures (forall i :: 0 <= i < |query| ==> !Tracking(query[i].0)) ==> Untracked(query) == query
  {
    if query != [] { UntrackedIs(query[1..]); }
  }

  lemma CleanIsClean(u: Url)
    requires u.Web() && u.Rooted()
    ensures IsClean(Clean(u))
  {
    UntrackedIs(u.query);
    LowerTwice(u.host.value);
  }

  lemma CleanStays(u: Url)
    requires IsClean(u)
    ensures Clean(u) == u
  {
    UntrackedIs(u.query);
  }

  lemma LowerTwice(s: string)
    ensures LowerAll(LowerAll(s)) == LowerAll(s)
  {
    forall i | 0 <= i < |s| ensures Lower(Lower(s[i])) == Lower(s[i]) {
    }
  }

  /** The text of a clean URL reads back as that URL. */
  lemma TextReadsBack(u: Url, lib: Library)
    requires lib.Faithful() && lib.Readable(u) && u.Web()
    ensures lib.Read(lib.Text(Clean(u))) == Some(Clean(u))
  {
  }

  /** Redirectors followed from `raw`, and where that ends. */
  function Hops(raw: string, depth: nat, lib: Library, target: Redirector): (r: Option<(Url, nat)>)
    requires depth <= MAX_REDIRECT_DEPTH
    ensures r.Some? <==> lib.Read(raw).Some?
    ensures r.Some? ==> r.value.0.Web() && depth <= r.value.1 <= MAX_REDIRECT_DEPTH
    ensures r.Some? && Redirects(r.value.0, lib, target) ==> r.value.1 == MAX_REDIRECT_DEPTH
    decreases MAX_REDIRECT_DEPTH - depth
  {
    match lib.Read(raw)
    case None => None
    case Some(u) =>
      if depth < MAX_REDIRECT_DEPTH && Redirects(u, lib, target) then Hops(target(u).value, depth + 1, lib, target)
      else Some((u, depth))
  }

  /** The canonical URL is the clean form of the URL at which the hops end: the first
      one that redirects no further, or the third target. */
  lemma {:induction false} CanonicalIsCleanedEnd(raw: string, depth: nat, lib: Library, target: Redirector)
    requires depth <= MAX_REDIRECT_DEPTH
    ensures Canonicalized(raw, depth, lib, target)
         == match Hops(raw, depth, lib, target) case Some((u, _)) => Some(lib.Text(Clean(u))) case None => None
    decreases MAX_REDIRECT_DEPTH - depth
  {
    if lib.Read(raw).Some? {
      var u := lib.Read(raw).value;
      if depth < MAX_REDIRECT_DEPTH && target(u).Some? {
        var t := target(u).value;
        CanonicalIsCleanedEnd(t, depth + 1, lib, target);
        if lib.Read(t).Some? {
          assert Hops(raw, depth, lib, target) == Hops(t, depth + 1, lib, target);
        } else {
          assert Hops(raw, depth, lib, target) == Some((u, depth));
        }
      }
    }
  }

  lemma {:induction false} HopsEndReadable(raw: string, depth: nat, lib: Library, target: Redirector)
    requires depth <= MAX_REDIRECT_DEPTH
    ensures Hops(raw, depth, lib, target).Some? ==> lib.Readable(Hops(raw, depth, lib, target).value.0)
    decreases MAX_REDIRECT_DEPTH - depth
  {
    if lib.Read(raw).Some? {
      var u := lib.Read(raw).value;
      if depth < MAX_REDIRECT_DEPTH && Redirects(u, lib, target) {
        HopsEndReadable(target(u).value, depth + 1, lib, target);
      }
    }
  }

  /** The URL whose clean form is the canonical URL of `raw`. */
  function End(raw: string, lib: Library): Option<Url> {
    match Hops(raw, 0, lib, Known(lib)) case Some((u, _)) => Some(u) case None => None
  }

  /** A canonical URL reads as a web URL in lower-case, without a fragment, a tracking
      parameter or a trailing slash. */
  lemma ResultIsClean(raw: string, lib: Library)
    requires lib.Faithful()
    ensures CanonicalUrl(raw, lib).Some? <==> lib.Read(raw).Some?
    ensures match End(raw, lib)
            case Some(u) => CanonicalUrl(raw, lib) == Some(lib.Text(Clean(u))) && IsClean(Clean(u))
                            && lib.Read(lib.Text(Clean(u))) == Some(Clean(u))
            case None => CanonicalUrl(raw, lib) == None
  {
    CanonicalIsCleanedEnd(raw, 0, lib, Known(lib));
    HopsEndReadable(raw, 0, lib, Known(lib));
    if End(raw, lib).Some? {
      var u := End(raw, lib).value;
      CleanIsClean(u);
      TextReadsBack(u, lib);
    }
  }

  /** Nothing but an absolute web URL has a canonical URL, and blanks around it do not matter. */
  lemma OnlyWebUrls(raw: string, lib: Library)
    ensures CanonicalUrl(raw, lib).Some? <==>
              Trim(raw) != "" && lib.parse(Trim(raw)).Some?
              && lib.parse(Trim(raw)).value.scheme in ["http", "https"] && lib.parse(Trim(raw)).value.host.Some?
    ensures forall other :: Trim(other) == Trim(raw) ==> CanonicalUrl(other, lib) == CanonicalUrl(raw, lib)
  {
    CanonicalIsCleanedEnd(raw, 0, lib, Known(lib));
    forall other | Trim(other) == Trim(raw) ensures CanonicalUrl(other, lib) == CanonicalUrl(raw, lib) {
      assert lib.Read(other) == lib.Read(raw);
    }
  }

  predicate Ordinary(p: Pair) {
    var k := LowerAll(p.0);
    !("utm_" <= k) && k !in ["ref", "fbclid", "gclid", "s", "si", "mc_cid", "mc_eid"]
  }

  function IsOrdinary(): Pair -> bool { (p: Pair) => Ordinary(p) }

  lemma {:induction false} UntrackedIsFilter(query: seq<Pair>)
    ensures Untracked(query) == Filter(query, IsOrdinary())
  {
    if query != [] {
      UntrackedIsFilter(query[1..]);
      OrdinaryIsUntracked(query[0]);
      assert [] + Filter(query[1..], IsOrdinary()) == Filter(query[1..], IsOrdinary());
    }
  }

  lemma OrdinaryIsUntracked(p: Pair)
    ensures Ordinary(p) <==> !Tracking(p.0)
  {
  }

  predicate Slashes(s: string) { forall i :: 0 <= i < |s| ==> s[i] == '/' }

  /** `v` is `u` but for the case of its host, slashes at the end of its path, its
      tracking parameters and its fragment; the other parameters are all there, in order. */
  ghost predicate KeepsAll(u: Url, v: Url) {
    && v.scheme == u.scheme && v.login == u.login
    && v.host.Some? && u.host.Some? && LowerAll(u.host.value) == v.host.value
    && v.path <= u.path && Slashes(u.path[|v.path|..])
    && v.query == Filter(u.query, IsOrdinary())
    && v.fragment == None
  }

  /** What a canonical URL says is what the URL said at which the hops end; without
      parameters it ends in no slash. */
  lemma ResultKeeps(raw: string, lib: Library)
    requires lib.Faithful() && End(raw, lib).Some?
    ensures CanonicalUrl(raw, lib).Some? && lib.Read(CanonicalUrl(raw, lib).value).Some?
    ensures var c := CanonicalUrl(raw, lib).value;
            var v := lib.Read(c).value;
            KeepsAll(End(raw, lib).value, v) && (v.query == [] ==> !EndsWith(c, "/"))
  {
    var u := End(raw, lib).value;
    ResultIsClean(raw, lib);
    UntrackedIsFilter(u.query);
    TrimPathIsPrefix(u.path);
  }

  lemma TrimPathIsPrefix(path: string)
    ensures TrimPath(path) <= path && Slashes(path[|TrimPath(path)|..])
  {
  }

  /** Two URLs share their canonical URL exactly if their hops end at URLs that differ
      in fragment, tracking parameters, trailing slashes and the case of the host only. */
  lemma SameCanonical(a: string, b: string, lib: Library)
    requires lib.Faithful() && End(a, lib).Some? && End(b, lib).Some?
    ensures CanonicalUrl(a, lib) == CanonicalUrl(b, lib) <==> Clean(End(a, lib).value) == Clean(End(b, lib).value)
  {
    ResultIsClean(a, lib);
    ResultIsClean(b, lib);
  }

  /** Canonicalizing a canonical URL changes nothing exactly if it is no redirector, or
      one whose own hops lead back to it. */
  lemma CanonicalTwice(raw: string, lib: Library)
    requires lib.Faithful() && End(raw, lib).Some?
    ensures var v := Clean(End(raw, lib).value);
            var c := lib.Text(v);
            && CanonicalUrl(raw, lib) == Some(c)
            && (CanonicalUrl(c, lib) == Some(c) <==>
                  !Redirects(v, lib, Known(lib)) || Clean(Hops(Known(lib)(v).value, 1, lib, Known(lib)).value.0) == v)
  {
    var target := Known(lib);
    var v := Clean(End(raw, lib).value);
    var c := lib.Text(v);
    ResultIsClean(raw, lib);
    CanonicalIsCleanedEnd(c, 0, lib, target);
    CleanStays(v);
    if Redirects(v, lib, target) {
      HopsEndReadable(target(v).value, 1, lib, target);
      var end := Hops(target(v).value, 1, lib, target).value.0;
      CleanIsClean(end);
      TextReadsBack(end, lib);
    }
  }

  // -------------------------------------------------------------------------
  // The known redirectors
  // -------------------------------------------------------------------------

  lemma {:induction false} FirstTarget(before: seq<Pair>, key: string, target: string, after: seq<Pair>)
    requires forall i :: 0 <= i < |before| ==> before[i].0 != "url" && before[i].0 != "q"
    requires key == "url" || key == "q"
    ensures TargetPair(before + [(key, target)] + after) == Some(target)
  {
    var query := before + [(key, target)] + after;
    if before != [] {
      assert query[0] == before[0] && query[1..] == before[1..] + [(key, target)] + after;
      FirstTarget(before[1..], key, target, after);
    }
  }

  /** A link that Scour passes on is canonicalized as its target, which stands encoded in
      its path. */
  lemma ScourIsFollowed(raw: string, u: Url, encoded: string, t: string, lib: Library)
    requires lib.Read(raw) == Some(u) && LowerAll(u.host.value) in ["scour.ing", "www.scour.ing"]
    requires u.path == "/r/rss/" + encoded && lib.decode(encoded) == Some(t)
    requires lib.parse(t).Some? && lib.parse(t).value.Web()
    ensures CanonicalUrl(raw, lib)
         == if lib.Read(t).Some? then Canonicalized(t, 1, lib, Known(lib)) else Some(lib.Text(Clean(u)))
  {
    assert u.path[|SCOUR_PREFIX|..] == encoded;
    assert RedirectTarget(u, lib) == Some(t);
    Followed(raw, u, t, lib, Known(lib));
  }

  /** A Google link as the value of its first `url` or `q` parameter. */
  lemma GoogleIsFollowed(raw: string, u: Url, before: seq<Pair>, key: string, t: string, after: seq<Pair>, lib: Library)
    requires lib.Read(raw) == Some(u) && "http" <= t && u.query == before + [(key, t)] + after
    requires forall i :: 0 <= i < |before| ==> before[i].0 != "url" && before[i].0 != "q"
    requires key == "url" || key == "q"
    requires var host := LowerAll(u.host.value);
             || host in ["news.google.com", "news.url.google.com"] || EndsWith(host, ".news.google.com")
             || (host in ["google.com", "www.google.com"] && u.path == "/url")
    ensures CanonicalUrl(raw, lib)
         == if lib.Read(t).Some? then Canonicalized(t, 1, lib, Known(lib)) else Some(lib.Text(Clean(u)))
  {
    FirstTarget(before, key, t, after);
    GoogleIsNotScour(LowerAll(u.host.value));
    assert Google(u) && !Scour(u);
    Followed(raw, u, t, lib, Known(lib));
  }

  lemma GoogleIsNotScour(host: string)
    requires host in ["news.google.com", "news.url.google.com", "google.com", "www.google.com"]
             || EndsWith(host, ".news.google.com")
    ensures host != "scour.ing" && host != "www.scour.ing"
  {
    assert EndsWith(host, ".news.google.com") ==> host[|host| - 1] == 'm';
    assert "scour.ing"[8] == 'g' && "www.scour.ing"[12] == 'g' && |"news.google.com"| == 15;
  }

  /** No other host is a redirector. */
  lemma OthersStand(raw: string, u: Url, lib: Library)
    requires lib.Read(raw) == Some(u)
    requires var host := LowerAll(u.host.value);
             && host !in ["scour.ing", "www.scour.ing", "google.com", "www.google.com", "news.google.com",
                          "news.url.google.com"]
             && !EndsWith(host, ".news.google.com")
    ensures CanonicalUrl(raw, lib) == Some(lib.Text(Clean(u)))
  {
    assert !Scour(u) && !Google(u);
  }

  lemma Followed(raw: string, u: Url, t: string, lib: Library, target: Redirector)
    requires lib.Read(raw) == Some(u) && target(u) == Some(t)
    ensures Canonicalized(raw, 0, lib, target)
         == if lib.Read(t).Some? then Canonicalized(t, 1, lib, target) else Some(lib.Text(Clean(u)))
  {
    CanonicalIsCleanedEnd(t, 1, lib, target);
  }

  // -------------------------------------------------------------------------
  // When a result is a redirector
  // -------------------------------------------------------------------------

  lemma TargetKeysAreKept(key: string)
    requires CarriesTarget(key)
    ensures !Tracking(key)
  {
    assert LowerAll("url") == "url" && LowerAll("q") == "q";
  }

  lemma {:induction false} TargetPairIsKept(query: seq<Pair>)
    ensures TargetPair(Untracked(query)) == TargetPair(query)
  {
    if query != [] {
      if CarriesTarget(query[0].0) {
        TargetKeysAreKept(query[0].0);
      }
      TargetPairIsKept(query[1..]);
      var rest := Untracked(query[1..]);
      assert [] + rest == rest && ([query[0]] + rest)[1..] == rest;
    }
  }

  /** Without its trailing slashes the path may turn the URL into a redirector. */
  predicate PathMatters(u: Url) {
    u.path != TrimPath(u.path) && (Scour(u) || (Google(Clean(u)) && !Google(u)))
  }

  /** Cleaning keeps the target of a URL, unless it trims a path that matters. */
  lemma CleanKeepsTarget(u: Url, lib: Library)
    requires u.Web() && !PathMatters(u)
    ensures RedirectTarget(Clean(u), lib) == RedirectTarget(u, lib)
  {
    LowerTwice(u.host.value);
    TargetPairIsKept(u.query);
    assert Google(u) ==> Google(Clean(u));
    assert Scour(Clean(u)) <==> Scour(u);
  }

  /** So a canonical URL is a redirector only when the hops stopped at the limit, or
      because of a trailing slash. */
  lemma WhyARedirector(raw: string, lib: Library)
    requires End(raw, lib).Some?
    ensures var (u, hops) := Hops(raw, 0, lib, Known(lib)).value;
            && (Redirects(Clean(u), lib, Known(lib)) ==> hops == 3 || PathMatters(u))
            && (!PathMatters(u) ==> (Redirects(Clean(u), lib, Known(lib)) <==> Redirects(u, lib, Known(lib))))
  {
    var u := End(raw, lib).value;
    if !PathMatters(u) {
      CleanKeepsTarget(u, lib);
    }
  }

  /** `https://google.com/url/?q=T` is no redirector, but its canonical URL is one, and
      a second canonicalization yields that of `T`. */
  lemma SlashHidesARedirector(raw: string, u: Url, lib: Library)
    requires lib.Faithful() && lib.Read(raw) == Some(u) && u.path == "/url/" && u.host == Some("google.com")
    requires TargetPair(u.query).Some? && "http" <= TargetPair(u.query).value
    requires lib.Read(TargetPair(u.query).value).Some?
    ensures CanonicalUrl(raw, lib) == Some(lib.Text(Clean(u)))
    ensures CanonicalUrl(lib.Text(Clean(u)), lib) == Canonicalized(TargetPair(u.query).value, 1, lib, Known(lib))
  {
    SlashTarget(u, lib);
    Detour(raw, u, TargetPair(u.query).value, lib, Known(lib));
  }

  lemma SlashTarget(u: Url, lib: Library)
    requires u.path == "/url/" && u.host == Some("google.com")
    requires TargetPair(u.query).Some? && "http" <= TargetPair(u.query).value
    ensures RedirectTarget(u, lib) == None && RedirectTarget(Clean(u), lib) == TargetPair(u.query)
  {
    assert LowerAll("google.com") == "google.com";
    TargetPairIsKept(u.query);
    assert StripEnd("/url/", '/') == "/url";
    assert !Scour(u) && !Scour(Clean(u));
    NotNews();
    assert !Google(u) && Google(Clean(u));
  }

  lemma NotNews()
    ensures !EndsWith("google.com", ".news.google.com") && "google.com" != "news.google.com"
    ensures "google.com" != "news.url.google.com"
    ensures "google.com" != "www.google.com"
    ensures LowerAll("google.com") != "scour.ing" && LowerAll("google.com") != "www.scour.ing"
  {
    assert "google.com"[0] == 'g' && "scour.ing"[0] == 's';
    assert |"news.google.com"| == 15 && |"google.com"| == 10;
  }

  /** A URL that is no redirector but whose clean form is one. */
  lemma Detour(raw: string, u: Url, t: string, lib: Library, target: Redirector)
    requires lib.Faithful() && lib.Read(raw) == Some(u)
    requires target(u) == None && target(Clean(u)) == Some(t) && lib.Read(t).Some?
    ensures Canonicalized(raw, 0, lib, target) == Some(lib.Text(Clean(u)))
    ensures Canonicalized(lib.Text(Clean(u)), 0, lib, target) == Canonicalized(t, 1, lib, target)
  {
    CleanIsClean(u);
    TextReadsBack(u, lib);
    CanonicalIsCleanedEnd(t, 1, lib, target);
  }
}
