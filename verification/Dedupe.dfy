/** `cluster_with_feeds` and `build_article` in `src/dedupe.rs`: clustering through a URL and a title index. */
module Dedupe {
  import opened Text

  const MIN_TITLE_KEY_LEN := 12

  /** A feed entry. Whether it is an article at all, its canonical URL, its normalized
      title and the word count of its body have been computed already. */
  datatype Entry = Entry(id: int, nonArticle: bool, canonical: Option<string>, normalizedTitle: string,
                         words: nat, publishedAt: Option<int>, fetchedAt: int)
  {
    predicate Kept() { !nonArticle && canonical.Some? }

    /** A short title may not merge clusters. Lengths are in bytes. */
    function Key(): Option<string> {
      if ByteLen(normalizedTitle) >= MIN_TITLE_KEY_LEN then Some(normalizedTitle) else None
    }
  }

  // -------------------------------------------------------------------------
  // The simple form: look for the first earlier entry
  // -------------------------------------------------------------------------

  predicate HasUrl(e: Entry, url: string) { e.Kept() && e.canonical == Some(url) }
  predicate HasTitle(e: Entry, key: string) { e.Kept() && e.normalizedTitle == key && ByteLen(key) >= 12 }

  /** The first of `entries[..n]` with this canonical URL. */
  function FirstUrl(entries: seq<Entry>, n: nat, url: string): (r: Option<nat>)
    requires n <= |entries|
    ensures r.Some? ==> r.value < n && HasUrl(entries[r.value], url)
    ensures r.None? ==> forall i :: 0 <= i < n ==> !HasUrl(entries[i], url)
  {
    if n == 0 then None
    else match FirstUrl(entries, n - 1, url)
      case Some(i) => Some(i)
      case None => if HasUrl(entries[n - 1], url) then Some(n - 1) else None
  }

  function FirstTitle(entries: seq<Entry>, n: nat, key: string): (r: Option<nat>)
    requires n <= |entries|
    ensures r.Some? ==> r.value < n && HasTitle(entries[r.value], key)
    ensures r.None? ==> forall i :: 0 <= i < n ==> !HasTitle(entries[i], key)
  {
    if n == 0 then None
    else match FirstTitle(entries, n - 1, key)
      case Some(i) => Some(i)
      case None => if HasTitle(entries[n - 1], key) then Some(n - 1) else None
  }

  /** The earlier entry that entry `i` is filed with: one of the same URL, else one of
      the same long title. */
  function Parent(entries: seq<Entry>, i: nat): (r: Option<nat>)
    requires i < |entries| && entries[i].Kept()
    ensures r.Some? ==> r.value < i && entries[r.value].Kept()
  {
    match FirstUrl(entries, i, entries[i].canonical.value)
    case Some(j) => Some(j)
    case None => match entries[i].Key() case Some(k) => FirstTitle(entries, i, k) case None => None
  }

  /** Clusters opened by `entries[..n]`. */
  function Opened(entries: seq<Entry>, n: nat): nat
    requires n <= |entries|
  {
    if n == 0 then 0
    else Opened(entries, n - 1) + if entries[n - 1].Kept() && Parent(entries, n - 1).None? then 1 else 0
  }

  /** The cluster of entry `i`. */
  function ClusterOf(entries: seq<Entry>, i: nat): (k: nat)
    requires i < |entries| && entries[i].Kept()
    ensures k < Opened(entries, i + 1)
  {
    match Parent(entries, i)
    case Some(j) => OpenedGrows(entries, j + 1, i + 1); ClusterOf(entries, j)
    case None => Opened(entries, i)
  }

  lemma {:induction false} OpenedGrows(entries: seq<Entry>, m: nat, n: nat)
    requires m <= n <= |entries|
    ensures Opened(entries, m) <= Opened(entries, n)
    decreases n
  {
    if m < n { OpenedGrows(entries, m, n - 1); }
  }

  /** The entries of `entries[..n]` in cluster `k`, in order. */
  function Members(entries: seq<Entry>, n: nat, k: nat): seq<Entry>
    requires n <= |entries|
  {
    if n == 0 then []
    else Members(entries, n - 1, k)
         + if entries[n - 1].Kept() && ClusterOf(entries, n - 1) == k then [entries[n - 1]] else []
  }

  function Dropped(entries: seq<Entry>, n: nat): nat
    requires n <= |entries|
  {
    if n == 0 then 0 else Dropped(entries, n - 1) + if entries[n - 1].Kept() then 0 else 1
  }

  // -------------------------------------------------------------------------
  // The fast form: two indexes
  // -------------------------------------------------------------------------

  /** Each index maps what the first `n` entries carry to the cluster of the first that carries it. */
  ghost predicate UrlIndex(index: map<string, nat>, entries: seq<Entry>, n: nat)
    requires n <= |entries|
  {
    forall url :: (url in index <==> FirstUrl(entries, n, url).Some?)
               && (url in index ==> index[url] == ClusterOf(entries, FirstUrl(entries, n, url).value))
  }

  ghost predicate TitleIndex(index: map<string, nat>, entries: seq<Entry>, n: nat)
    requires n <= |entries|
  {
    forall key :: (key in index <==> FirstTitle(entries, n, key).Some?)
               && (key in index ==> index[key] == ClusterOf(entries, FirstTitle(entries, n, key).value))
  }

  /** What the loop has built after `n` entries. */
  ghost predicate Built(clusters: seq<seq<Entry>>, byUrl: map<string, nat>, byTitle: map<string, nat>,
                        entries: seq<Entry>, n: nat)
    requires n <= |entries|
  {
    && UrlIndex(byUrl, entries, n) && TitleIndex(byTitle, entries, n)
    && |clusters| == Opened(entries, n)
    && forall k :: 0 <= k < |clusters| ==> clusters[k] == Members(entries, n, k)
  }

  method Cluster(entries: seq<Entry>) returns (clusters: seq<seq<Entry>>, dropped: nat)
    ensures |clusters| == Opened(entries, |entries|)
    ensures forall k :: 0 <= k < |clusters| ==> clusters[k] == Members(entries, |entries|, k)
    ensures dropped == Dropped(entries, |entries|)
  {
    clusters, dropped := [], 0;
    var byUrl: map<string, nat> := map[];
    var byTitle: map<string, nat> := map[];
    for n := 0 to |entries|
      invariant Built(clusters, byUrl, byTitle, entries, n)
      invariant dropped == Dropped(entries, n)
    {
      if !entries[n].Kept() {
        SkipOne(entries, n, clusters, byUrl, byTitle);
        dropped := dropped + 1;
        continue;
      }
      clusters, byUrl, byTitle := FileOne(entries, n, clusters, byUrl, byTitle);
    }
  }

  lemma SkipOne(entries: seq<Entry>, n: nat, clusters: seq<seq<Entry>>,
                byUrl: map<string, nat>, byTitle: map<string, nat>)
    requires n < |entries| && !entries[n].Kept() && Built(clusters, byUrl, byTitle, entries, n)
    ensures Built(clusters, byUrl, byTitle, entries, n + 1)
  {
    UrlIndexStep(byUrl, entries, n);
    TitleIndexStep(byTitle, entries, n);
  }

  /** One turn of the loop for an entry that is kept. */
  method FileOne(entries: seq<Entry>, n: nat, clusters: seq<seq<Entry>>,
                 byUrl: map<string, nat>, byTitle: map<string, nat>)
      returns (filed: seq<seq<Entry>>, urls: map<string, nat>, titles: map<string, nat>)
    requires n < |entries| && entries[n].Kept() && Built(clusters, byUrl, byTitle, entries, n)
    ensures Built(filed, urls, titles, entries, n + 1)
  {
    UrlIndexStep(byUrl, entries, n);
    TitleIndexStep(byTitle, entries, n);
    var index: nat;
    index, filed := ChooseCluster(entries, n, clusters, byUrl, byTitle);
    urls, titles := byUrl, byTitle;
    var canon, key := entries[n].canonical.value, entries[n].Key();
    if canon !in urls {
      urls := urls[canon := index];
    }
    if key.Some? && key.value !in titles {
      titles := titles[key.value := index];
    }
    FileEntry(entries, n, filed);
    filed := filed[index := filed[index] + [entries[n]]];
  }

  /** The cluster the entry goes to, opened if there is none. */
  method ChooseCluster(entries: seq<Entry>, n: nat, clusters: seq<seq<Entry>>,
                       byUrl: map<string, nat>, byTitle: map<string, nat>)
      returns (index: nat, grown: seq<seq<Entry>>)
    requires n < |entries| && entries[n].Kept() && Built(clusters, byUrl, byTitle, entries, n)
    ensures index == ClusterOf(entries, n) && |grown| == Opened(entries, n + 1)
    ensures forall k :: 0 <= k < |grown| ==> grown[k] == Members(entries, n, k)
  {
    grown := clusters;
    var canon, key := entries[n].canonical.value, entries[n].Key();
    IndexesFindParent(byUrl, byTitle, entries, n);
    NoMembersYet(entries, n, |clusters|);
    if canon in byUrl {
      index := byUrl[canon];
    } else if key.Some? && key.value in byTitle {
      index := byTitle[key.value];
    } else {
      grown := grown + [[]];
      index := |grown| - 1;
    }
  }

  /** Looking up both indexes finds the cluster of the parent. */
  lemma IndexesFindParent(byUrl: map<string, nat>, byTitle: map<string, nat>, entries: seq<Entry>, n: nat)
    requires n < |entries| && entries[n].Kept() && UrlIndex(byUrl, entries, n) && TitleIndex(byTitle, entries, n)
    ensures var canon, key := entries[n].canonical.value, entries[n].Key();
            if canon in byUrl then ClusterOf(entries, n) == byUrl[canon] && Opened(entries, n + 1) == Opened(entries, n)
            else if key.Some? && key.value in byTitle then
              ClusterOf(entries, n) == byTitle[key.value] && Opened(entries, n + 1) == Opened(entries, n)
            else ClusterOf(entries, n) == Opened(entries, n) && Opened(entries, n + 1) == Opened(entries, n) + 1
  {
  }

  lemma FileEntry(entries: seq<Entry>, n: nat, clusters: seq<seq<Entry>>)
    requires n < |entries| && entries[n].Kept() && |clusters| == Opened(entries, n + 1)
    requires forall k :: 0 <= k < |clusters| ==> clusters[k] == Members(entries, n, k)
    ensures var index := ClusterOf(entries, n);
            var filed := clusters[index := clusters[index] + [entries[n]]];
            forall k :: 0 <= k < |filed| ==> filed[k] == Members(entries, n + 1, k)
  {
  }

  lemma UrlIndexStep(index: map<string, nat>, entries: seq<Entry>, n: nat)
    requires n < |entries| && UrlIndex(index, entries, n)
    ensures var e := entries[n];
            UrlIndex(if e.Kept() && e.canonical.value !in index
                     then index[e.canonical.value := ClusterOf(entries, n)]
                     else index,
                     entries, n + 1)
  {
    var e := entries[n];
    if e.Kept() {
      var url := e.canonical.value;
      if FirstUrl(entries, n, url).None? {
        assert FirstUrl(entries, n + 1, url) == Some(n);
      }
      forall u | u != url ensures FirstUrl(entries, n + 1, u) == FirstUrl(entries, n, u) {
      }
    }
  }

  lemma TitleIndexStep(index: map<string, nat>, entries: seq<Entry>, n: nat)
    requires n < |entries| && TitleIndex(index, entries, n)
    ensures var e := entries[n];
            TitleIndex(if e.Kept() && e.Key().Some? && e.Key().value !in index
                       then index[e.Key().value := ClusterOf(entries, n)] else index,
                       entries, n + 1)
  {
  }

  lemma {:induction false} NoMembersYet(entries: seq<Entry>, n: nat, k: nat)
    requires n <= |entries| && Opened(entries, n) <= k
    ensures Members(entries, n, k) == []
  {
    if n > 0 { NoMembersYet(entries, n - 1, k); }
  }

  // -------------------------------------------------------------------------
  // A partition
  // -------------------------------------------------------------------------

  /** Entries in clusters `0..k`. */
  function Filed(entries: seq<Entry>, n: nat, k: nat): nat
    requires n <= |entries|
  {
    if k == 0 then 0 else Filed(entries, n, k - 1) + |Members(entries, n, k - 1)|
  }

  lemma {:induction false} FiledStep(entries: seq<Entry>, n: nat, k: nat)
    requires 0 < n <= |entries|
    ensures Filed(entries, n, k) == Filed(entries, n - 1, k)
              + if entries[n - 1].Kept() && ClusterOf(entries, n - 1) < k then 1 else 0
  {
    if k > 0 { FiledStep(entries, n, k - 1); }
  }

  lemma {:induction false} NothingFiled(entries: seq<Entry>, k: nat)
    ensures Filed(entries, 0, k) == 0
  {
    if k > 0 { NothingFiled(entries, k - 1); }
  }

  /** Every entry is dropped or in exactly one cluster: the sizes add up. */
  lemma {:induction false} SizesAddUp(entries: seq<Entry>, n: nat, k: nat)
    requires n <= |entries| && Opened(entries, n) <= k
    ensures n == Dropped(entries, n) + Filed(entries, n, k)
  {
    if n == 0 {
      NothingFiled(entries, k);
    } else {
      SizesAddUp(entries, n - 1, k);
      FiledStep(entries, n, k);
    }
  }

  /** A cluster holds exactly the kept entries assigned to it. */
  lemma {:induction false} MembersAreAssigned(entries: seq<Entry>, n: nat, k: nat, e: Entry)
    requires n <= |entries|
    ensures e in Members(entries, n, k)
       <==> exists i :: 0 <= i < n && entries[i] == e && entries[i].Kept() && ClusterOf(entries, i) == k
  {
    if n > 0 {
      MembersAreAssigned(entries, n - 1, k, e);
      var before, last := Members(entries, n - 1, k), entries[n - 1];
      assert e in Members(entries, n, k) && e !in before ==> e == last;
    }
  }

  /** No cluster is empty. */
  lemma {:induction false} ClustersAreNonEmpty(entries: seq<Entry>, n: nat, k: nat)
    requires n <= |entries| && k < Opened(entries, n)
    ensures Members(entries, n, k) != []
  {
    if k < Opened(entries, n - 1) { ClustersAreNonEmpty(entries, n - 1, k); }
  }

  // -------------------------------------------------------------------------
  // Same URL, same cluster
  // -------------------------------------------------------------------------

  lemma FirstUrlIsFirst(entries: seq<Entry>, m: nat, n: nat, url: string)
    requires m <= n <= |entries| && FirstUrl(entries, m, url).Some?
    ensures FirstUrl(entries, n, url) == FirstUrl(entries, m, url)
    decreases n
  {
    if m < n { FirstUrlIsFirst(entries, m, n - 1, url); }
  }

  lemma FirstTitleIsFirst(entries: seq<Entry>, m: nat, n: nat, key: string)
    requires m <= n <= |entries| && FirstTitle(entries, m, key).Some?
    ensures FirstTitle(entries, n, key) == FirstTitle(entries, m, key)
    decreases n
  {
    if m < n { FirstTitleIsFirst(entries, m, n - 1, key); }
  }

  /** An entry is in the cluster of the first entry with its URL. */
  lemma ClusterOfFirstUrl(entries: seq<Entry>, i: nat)
    requires i < |entries| && entries[i].Kept()
    ensures var first := FirstUrl(entries, |entries|, entries[i].canonical.value);
            first.Some? && ClusterOf(entries, i) == ClusterOf(entries, first.value)
  {
    var url := entries[i].canonical.value;
    if FirstUrl(entries, i, url).Some? {
      FirstUrlIsFirst(entries, i, |entries|, url);
    } else {
      assert FirstUrl(entries, i + 1, url) == Some(i);
      FirstUrlIsFirst(entries, i + 1, |entries|, url);
    }
  }

  lemma SameUrlSameCluster(entries: seq<Entry>, i: nat, j: nat)
    requires i < |entries| && j < |entries| && entries[i].Kept() && entries[j].Kept()
    requires entries[i].canonical == entries[j].canonical
    ensures ClusterOf(entries, i) == ClusterOf(entries, j)
  {
    ClusterOfFirstUrl(entries, i);
    ClusterOfFirstUrl(entries, j);
  }

  // -------------------------------------------------------------------------
  // Why two entries share a cluster
  // -------------------------------------------------------------------------

  /** The two entries share a URL or a long title. */
  predicate Linked(entries: seq<Entry>, i: nat, j: nat) {
    && i < |entries| && j < |entries| && entries[i].Kept() && entries[j].Kept()
    && (entries[i].canonical == entries[j].canonical
        || (entries[i].normalizedTitle == entries[j].normalizedTitle && ByteLen(entries[i].normalizedTitle) >= 12))
  }

  /** A chain of linked entries, all in cluster `k`. */
  predicate Chain(entries: seq<Entry>, path: seq<nat>, k: nat) {
    && (forall x :: 0 <= x < |path| ==>
           path[x] < |entries| && entries[path[x]].Kept() && ClusterOf(entries, path[x]) == k)
    && (forall x :: 0 <= x < |path| - 1 ==> Linked(entries, path[x], path[x + 1]))
  }

  lemma ChainGrows(entries: seq<Entry>, i: nat, rest: seq<nat>, k: nat)
    requires i < |entries| && entries[i].Kept() && ClusterOf(entries, i) == k
    requires rest != [] && Chain(entries, rest, k) && Linked(entries, i, rest[0])
    ensures Chain(entries, [i] + rest, k)
  {
    var path := [i] + rest;
    assert forall x :: 0 < x < |path| ==> path[x] == rest[x - 1];
  }

  /** From an entry to the one that opened its cluster, always to an earlier one. */
  lemma {:induction false} ChainUp(entries: seq<Entry>, i: nat) returns (path: seq<nat>)
    requires i < |entries| && entries[i].Kept()
    ensures path != [] && path[0] == i && Chain(entries, path, ClusterOf(entries, i))
    ensures forall x :: 0 <= x < |path| ==> path[x] <= i
    ensures var top := path[|path| - 1]; Parent(entries, top).None?
  {
    match Parent(entries, i) {
      case None => path := [i];
      case Some(j) =>
        var rest := ChainUp(entries, j);
        path := [i] + rest;
        ChainGrows(entries, i, rest, ClusterOf(entries, i));
    }
  }

  function Reverse(path: seq<nat>): (r: seq<nat>)
    ensures |r| == |path| && forall x :: 0 <= x < |path| ==> r[x] == path[|path| - 1 - x]
  {
    if path == [] then [] else Reverse(path[1..]) + [path[0]]
  }

  lemma OpenersAreOrdered(entries: seq<Entry>, a: nat, b: nat)
    requires a < b < |entries| && entries[a].Kept() && entries[b].Kept()
    requires Parent(entries, a).None? && Parent(entries, b).None?
    ensures ClusterOf(entries, a) < ClusterOf(entries, b)
  {
    OpenedGrows(entries, a + 1, b);
  }

  lemma OpenersDiffer(entries: seq<Entry>, a: nat, b: nat)
    requires a < |entries| && b < |entries| && entries[a].Kept() && entries[b].Kept()
    requires Parent(entries, a).None? && Parent(entries, b).None?
    requires ClusterOf(entries, a) == ClusterOf(entries, b)
    ensures a == b
  {
    if a < b { OpenersAreOrdered(entries, a, b); } else if b < a { OpenersAreOrdered(entries, b, a); }
  }

  /** Any two entries of a cluster are joined by a chain inside that cluster, and by
      entries no later than the two. */
  lemma ChainBetween(entries: seq<Entry>, i: nat, j: nat) returns (path: seq<nat>)
    requires i < |entries| && j < |entries| && entries[i].Kept() && entries[j].Kept()
    requires ClusterOf(entries, i) == ClusterOf(entries, j)
    ensures path != [] && path[0] == i && path[|path| - 1] == j && Chain(entries, path, ClusterOf(entries, i))
    ensures forall x :: 0 <= x < |path| ==> path[x] <= i || path[x] <= j
  {
    var up := ChainUp(entries, i);
    var down := ChainUp(entries, j);
    OpenersDiffer(entries, up[|up| - 1], down[|down| - 1]);
    var back := Reverse(down);
    path := up + back[1..];
    assert back[0] == up[|up| - 1];
    forall x | 0 <= x < |path| - 1 ensures Linked(entries, path[x], path[x + 1]) {
      if x >= |up| - 1 {
        var y := x - (|up| - 1);
        assert path[x] == back[y] == down[|down| - 1 - y];
        assert path[x + 1] == back[y + 1] == down[|down| - 2 - y];
      }
    }
    assert back[|back| - 1] == down[0] == j;
  }

  // -------------------------------------------------------------------------
  // Same title, same cluster?
  // -------------------------------------------------------------------------

  /** The URL of this entry was filed in one cluster and its title in another. */
  predicate Bridge(entries: seq<Entry>, n: nat) {
    && n < |entries| && entries[n].Kept() && entries[n].Key().Some?
    && FirstUrl(entries, n, entries[n].canonical.value).Some?
    && FirstTitle(entries, n, entries[n].Key().value).Some?
    && ClusterOf(entries, FirstUrl(entries, n, entries[n].canonical.value).value)
       != ClusterOf(entries, FirstTitle(entries, n, entries[n].Key().value).value)
  }

  predicate SameTitle(entries: seq<Entry>, i: nat, j: nat) {
    && i < |entries| && j < |entries| && entries[i].Kept() && entries[j].Kept()
    && entries[i].normalizedTitle == entries[j].normalizedTitle && ByteLen(entries[i].normalizedTitle) >= 12
  }

  ghost predicate TitlesTogether(entries: seq<Entry>) {
    forall i, j :: SameTitle(entries, i, j) ==> ClusterOf(entries, i) == ClusterOf(entries, j)
  }

  /** The entries at the two ends are joined by linked entries that all come before the `n`-th. */
  predicate LinkedPath(entries: seq<Entry>, path: seq<nat>, n: nat) {
    && path != [] && (forall x :: 0 <= x < |path| ==> path[x] < n)
    && (forall x :: 0 <= x < |path| - 1 ==> Linked(entries, path[x], path[x + 1]))
  }

  ghost predicate JoinedBelow(entries: seq<Entry>, n: nat, a: nat, b: nat) {
    exists path :: LinkedPath(entries, path, n) && path[0] == a && path[|path| - 1] == b
  }

  /** Entry `n` comes after an entry of its URL, first seen at `a`, and one of its long title, first seen at `b`. */
  predicate Between(entries: seq<Entry>, n: nat, a: nat, b: nat) {
    && n < |entries| && entries[n].Kept() && ByteLen(entries[n].normalizedTitle) >= 12
    && FirstUrl(entries, n, entries[n].canonical.value) == Some(a)
    && FirstTitle(entries, n, entries[n].normalizedTitle) == Some(b)
  }

  ghost predicate AlwaysJoined(entries: seq<Entry>) {
    forall n, a, b :: Between(entries, n, a, b) ==> JoinedBelow(entries, n, a, b)
  }

  /** Equal long titles always share a cluster exactly when no entry is the first to join
      its URL to its title: the second index never merges two clusters that exist already. */
  lemma TitlesShareUnlessBridged(entries: seq<Entry>)
    ensures TitlesTogether(entries) <==> AlwaysJoined(entries)
  {
    WhenTitlesShare(entries);
    if TitlesTogether(entries) {
      forall n, a, b | Between(entries, n, a, b) ensures JoinedBelow(entries, n, a, b) {
        assert !Bridge(entries, n);
        var path := ChainBetween(entries, a, b);
        assert LinkedPath(entries, path, n);
      }
    }
    if AlwaysJoined(entries) {
      forall n: nat ensures !Bridge(entries, n) {
        if n < |entries| { NoBridgeWhenJoined(entries, n); }
      }
    }
  }

  lemma {:induction false} NoBridgeWhenJoined(entries: seq<Entry>, n: nat)
    requires n < |entries| && AlwaysJoined(entries)
    ensures !Bridge(entries, n)
  {
    forall m: nat | m < n ensures !Bridge(entries, m) { NoBridgeWhenJoined(entries, m); }
    if Bridge(entries, n) {
      var a := FirstUrl(entries, n, entries[n].canonical.value).value;
      var b := FirstTitle(entries, n, entries[n].Key().value).value;
      assert Between(entries, n, a, b);
      var path :| LinkedPath(entries, path, n) && path[0] == a && path[|path| - 1] == b;
      PathStaysInCluster(entries, path, n);
    }
  }

  /** As long as no entry is a bridge, links stay inside a cluster. */
  lemma {:induction false} PathStaysInCluster(entries: seq<Entry>, path: seq<nat>, n: nat)
    requires n < |entries| && LinkedPath(entries, path, n) && forall m: nat :: m < n ==> !Bridge(entries, m)
    requires entries[path[0]].Kept()
    ensures entries[path[|path| - 1]].Kept()
    ensures ClusterOf(entries, path[0]) == ClusterOf(entries, path[|path| - 1])
  {
    if |path| > 1 {
      var i, j, rest := path[0], path[1], path[1..];
      assert Linked(entries, i, j);
      assert forall x :: 0 <= x < |rest| ==> rest[x] == path[x + 1];
      if entries[i].canonical == entries[j].canonical {
        SameUrlSameCluster(entries, i, j);
      } else {
        ClusterOfFirstTitle(entries, i);
        ClusterOfFirstTitle(entries, j);
      }
      PathStaysInCluster(entries, rest, n);
    }
  }

  /** The same in terms of the clusters: no entry follows its URL into one cluster when its title has another. */
  lemma WhenTitlesShare(entries: seq<Entry>)
    ensures TitlesTogether(entries) <==> forall n :: !Bridge(entries, n)
  {
    if n: nat :| Bridge(entries, n) {
      var first := FirstTitle(entries, n, entries[n].Key().value).value;
      assert SameTitle(entries, n, first);
    } else {
      forall i, j | SameTitle(entries, i, j) ensures ClusterOf(entries, i) == ClusterOf(entries, j) {
        ClusterOfFirstTitle(entries, i);
        ClusterOfFirstTitle(entries, j);
      }
    }
  }

  lemma ClusterOfFirstTitle(entries: seq<Entry>, i: nat)
    requires i < |entries| && entries[i].Kept() && entries[i].Key().Some? && !Bridge(entries, i)
    ensures var first := FirstTitle(entries, |entries|, entries[i].Key().value);
            first.Some? && ClusterOf(entries, i) == ClusterOf(entries, first.value)
  {
    var key := entries[i].Key().value;
    if FirstTitle(entries, i, key).Some? {
      FirstTitleIsFirst(entries, i, |entries|, key);
    } else {
      assert FirstTitle(entries, i + 1, key) == Some(i);
      FirstTitleIsFirst(entries, i + 1, |entries|, key);
    }
  }

  // -------------------------------------------------------------------------
  // build_article
  // -------------------------------------------------------------------------

  /** `max_by_key((word count, -id))`, which keeps the last of several maxima. */
  function Best(members: seq<Entry>): (b: nat)
    requires members != []
    ensures b < |members|
    ensures forall i :: 0 <= i < |members| ==>
              members[i].words < members[b].words
              || (members[i].words == members[b].words && members[b].id <= members[i].id)
  {
    var last := |members| - 1;
    if last == 0 then 0
    else
      var b := Best(members[..last]);
      if members[b].words < members[last].words
         || (members[b].words == members[last].words && members[last].id <= members[b].id)
      then last else b
  }

  function SeenAt(e: Entry): int { if e.publishedAt.Some? then e.publishedAt.value else e.fetchedAt }

  /** The earliest time any member was seen. */
  function FirstSeen(members: seq<Entry>): (t: int)
    requires members != []
    ensures exists i :: 0 <= i < |members| && SeenAt(members[i]) == t
    ensures forall i :: 0 <= i < |members| ==> t <= SeenAt(members[i])
  {
    if |members| == 1 then SeenAt(members[0])
    else
      var t, first := FirstSeen(members[1..]), SeenAt(members[0]);
      assert forall i :: 0 < i < |members| ==> members[i] == members[1..][i - 1];
      if first < t then first else t
  }

  predicate Ascending(ids: seq<int>) { forall i :: 0 <= i < |ids| - 1 ==> ids[i] < ids[i + 1] }

  function InsertId(id: int, ids: seq<int>): (r: seq<int>)
    requires Ascending(ids)
    ensures Ascending(r) && r != [] && r[0] == (if ids != [] && ids[0] < id then ids[0] else id)
    ensures forall x :: x in r <==> x == id || x in ids
  {
    if ids == [] || id < ids[0] then [id] + ids
    else if id == ids[0] then ids
    else
      assert ids == [ids[0]] + ids[1..];
      [ids[0]] + InsertId(id, ids[1..])
  }

  /** `sort_by_key` and `dedup_by_key` on the entry ids. */
  function SourceIds(members: seq<Entry>): (ids: seq<int>)
    ensures Ascending(ids)
    ensures forall x :: x in ids <==> exists i :: 0 <= i < |members| && members[i].id == x
  {
    if members == [] then []
    else
      assert forall i :: 0 < i < |members| ==> members[i] == members[1..][i - 1];
      InsertId(members[0].id, SourceIds(members[1..]))
  }

  datatype Article = Article(canonicalUrl: string, bestEntryId: int, words: nat, firstSeen: int, sources: seq<int>)

  function BuildArticle(members: seq<Entry>): Article
    requires members != [] && forall e :: e in members ==> e.Kept()
  {
    var best := members[Best(members)];
    assert best in members && best.Kept();
    Article(best.canonical.value, best.id, best.words, FirstSeen(members), SourceIds(members))
  }

  lemma MembersAreKept(entries: seq<Entry>, k: nat)
    requires k < Opened(entries, |entries|)
    ensures Members(entries, |entries|, k) != []
    ensures forall e :: e in Members(entries, |entries|, k) ==> e.Kept()
  {
    ClustersAreNonEmpty(entries, |entries|, k);
    forall e | e in Members(entries, |entries|, k) ensures e.Kept() {
      MembersAreAssigned(entries, |entries|, k, e);
    }
  }

  /** Entry `i` is in cluster `k`. */
  predicate InCluster(entries: seq<Entry>, i: nat, k: nat) {
    i < |entries| && entries[i].Kept() && ClusterOf(entries, i) == k
  }

  lemma ClusterMembers(entries: seq<Entry>, k: nat)
    ensures forall i: nat :: InCluster(entries, i, k) ==> entries[i] in Members(entries, |entries|, k)
    ensures forall e :: e in Members(entries, |entries|, k) ==>
              exists i: nat :: InCluster(entries, i, k) && entries[i] == e
  {
    forall e
      ensures e in Members(entries, |entries|, k) <==> exists i: nat :: InCluster(entries, i, k) && entries[i] == e
    {
      MembersAreAssigned(entries, |entries|, k, e);
      if i: nat :| InCluster(entries, i, k) && entries[i] == e {
        assert e in Members(entries, |entries|, k);
      }
      if e in Members(entries, |entries|, k) {
        var i: nat :| i < |entries| && entries[i] == e && entries[i].Kept() && ClusterOf(entries, i) == k;
        assert InCluster(entries, i, k);
      }
    }
  }

  function ArticleOf(entries: seq<Entry>, k: nat): Article
    requires k < Opened(entries, |entries|)
  {
    MembersAreKept(entries, k);
    BuildArticle(Members(entries, |entries|, k))
  }

  /** The article of a cluster: URL, id and words are those of one of its entries, than
      which no other has more words, nor as many and a lower id; it was first seen when the
      first of them was; and its sources are their ids, in order and once each. */
  lemma ArticleIsOfTheRichest(entries: seq<Entry>, k: nat)
    requires k < Opened(entries, |entries|)
    ensures var a := ArticleOf(entries, k);
            && (exists i: nat :: InCluster(entries, i, k) && entries[i].canonical == Some(a.canonicalUrl)
                                 && entries[i].id == a.bestEntryId && entries[i].words == a.words)
            && (forall i: nat :: InCluster(entries, i, k) ==>
                  entries[i].words < a.words || (entries[i].words == a.words && a.bestEntryId <= entries[i].id))
    ensures var a := ArticleOf(entries, k);
            && (forall i: nat :: InCluster(entries, i, k) ==> a.firstSeen <= Time(entries[i]))
            && (exists i: nat :: InCluster(entries, i, k) && a.firstSeen == Time(entries[i]))
    ensures var ids := ArticleOf(entries, k).sources;
            && (forall x, y :: 0 <= x < y < |ids| ==> ids[x] < ids[y])
            && (forall id :: id in ids <==> exists i: nat :: InCluster(entries, i, k) && entries[i].id == id)
  {
    MembersAreKept(entries, k);
    RichestOfCluster(entries, k);
    FirstOfCluster(entries, k);
    AscendingApart(SourceIds(Members(entries, |entries|, k)));
    forall id
      ensures id in ArticleOf(entries, k).sources <==> exists i: nat :: InCluster(entries, i, k) && entries[i].id == id
    {
      SourceOfCluster(entries, k, id);
    }
  }

  lemma RichestOfCluster(entries: seq<Entry>, k: nat)
    requires k < Opened(entries, |entries|)
    ensures var members := Members(entries, |entries|, k);
            members != [] &&
            var best := members[Best(members)];
            && (exists i: nat :: InCluster(entries, i, k) && entries[i] == best)
            && (forall i: nat :: InCluster(entries, i, k) ==>
                  entries[i].words < best.words || (entries[i].words == best.words && best.id <= entries[i].id))
  {
    var members := Members(entries, |entries|, k);
    MembersAreKept(entries, k);
    ClusterMembers(entries, k);
    assert members[Best(members)] in members;
  }

  lemma FirstOfCluster(entries: seq<Entry>, k: nat)
    requires k < Opened(entries, |entries|)
    ensures Members(entries, |entries|, k) != []
    ensures var t := FirstSeen(Members(entries, |entries|, k));
            && (forall i: nat :: InCluster(entries, i, k) ==> t <= Time(entries[i]))
            && (exists i: nat :: InCluster(entries, i, k) && t == Time(entries[i]))
  {
    var members := Members(entries, |entries|, k);
    MembersAreKept(entries, k);
    ClusterMembers(entries, k);
    var f :| 0 <= f < |members| && SeenAt(members[f]) == FirstSeen(members);
    assert members[f] in members;
  }

  /** When an entry was published, or else fetched. */
  function Time(e: Entry): int { match e.publishedAt case Some(t) => t case None => e.fetchedAt }

  lemma SourceOfCluster(entries: seq<Entry>, k: nat, id: int)
    ensures id in SourceIds(Members(entries, |entries|, k))
       <==> exists i: nat :: InCluster(entries, i, k) && entries[i].id == id
  {
    var members := Members(entries, |entries|, k);
    ClusterMembers(entries, k);
    if id in SourceIds(members) {
      var m :| 0 <= m < |members| && members[m].id == id;
      assert members[m] in members;
    }
    if i: nat :| InCluster(entries, i, k) && entries[i].id == id {
      var m :| 0 <= m < |members| && members[m] == entries[i];
    }
  }

  lemma {:induction false} AscendingApart(ids: seq<int>)
    requires Ascending(ids)
    ensures forall x, y :: 0 <= x < y < |ids| ==> ids[x] < ids[y]
  {
    if |ids| > 1 {
      var rest := ids[1..];
      assert forall x :: 0 <= x < |rest| ==> rest[x] == ids[x + 1];
      AscendingApart(rest);
      assert forall z :: 0 <= z < |rest| ==> rest[0] <= rest[z];
    }
  }

  /** No two articles of a run have the same canonical URL. */
  lemma ArticleUrlsAreDistinct(entries: seq<Entry>, k: nat, l: nat)
    requires k < Opened(entries, |entries|) && l < Opened(entries, |entries|)
    ensures Members(entries, |entries|, k) != [] && Members(entries, |entries|, l) != []
    ensures forall e :: e in Members(entries, |entries|, k) || e in Members(entries, |entries|, l) ==> e.Kept()
    ensures BuildArticle(Members(entries, |entries|, k)).canonicalUrl
         == BuildArticle(Members(entries, |entries|, l)).canonicalUrl
        ==> k == l
  {
    var n := |entries|;
    MembersAreKept(entries, k);
    MembersAreKept(entries, l);
    var a, b := Members(entries, n, k), Members(entries, n, l);
    MembersAreAssigned(entries, n, k, a[Best(a)]);
    MembersAreAssigned(entries, n, l, b[Best(b)]);
    var i :| 0 <= i < n && entries[i] == a[Best(a)] && entries[i].Kept() && ClusterOf(entries, i) == k;
    var j :| 0 <= j < n && entries[j] == b[Best(b)] && entries[j].Kept() && ClusterOf(entries, j) == l;
    if entries[i].canonical == entries[j].canonical { SameUrlSameCluster(entries, i, j); }
  }

  /** The title index comes second: an entry follows its URL although an earlier one
      of its title has opened a cluster of its own. Any three such entries show it. */
  lemma TitleLosesToUrl(a: Entry, b: Entry, c: Entry)
    requires a.Kept() && b.Kept() && c.Kept() && a.canonical != b.canonical
    requires a.normalizedTitle != b.normalizedTitle && ByteLen(b.normalizedTitle) >= 12
    requires c.canonical == a.canonical && c.normalizedTitle == b.normalizedTitle
    ensures Bridge([a, b, c], 2) && ClusterOf([a, b, c], 2) != ClusterOf([a, b, c], 1)
  {
    var s := [a, b, c];
    var url, key := a.canonical.value, b.Key().value;
    assert FirstUrl(s, 1, url) == Some(0) && FirstUrl(s, 2, url) == Some(0);
    assert FirstUrl(s, 1, b.canonical.value) == None;
    assert FirstTitle(s, 1, key) == None && FirstTitle(s, 2, key) == Some(1);
    assert Parent(s, 0) == None && Parent(s, 1) == None;
    assert Opened(s, 1) == 1;
  }
}
