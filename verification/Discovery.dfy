/** `src/discovery.rs`: proposing feeds for the hosts of articles, with a memo of hosts and a table of candidates. */
module Discovery {
  import opened Text
  import opened Sorting
  import opened FeedGuesses

  const RECHECK_SECONDS := 90 * 24 * 3600

  // -------------------------------------------------------------------------
  // The tables
  // -------------------------------------------------------------------------

  datatype Decision = Undecided | Added | Dismissed

  datatype Candidate = Candidate(host: string, title: Option<string>, status: Decision, firstSeen: int, lastSeen: int)

  type Candidates = map<string, Candidate>

  /** `feed_candidates` by feed URL, `feed_discovery_hosts` by host, and, as history,
      every lookup that was recorded. */
  datatype State = State(candidates: Candidates, checkedAt: map<string, int>, lookups: seq<(string, int)>)

  /** The operator's subscriptions: hosts of feeds and sites, and normalized feed URLs. */
  datatype Subscriptions = Subscriptions(hosts: set<string>, urls: set<string>)

  /** `norm_url`. */
  function NormUrl(url: string): string { LowerAll(StripEnd(Trim(url), '/')) }

  predicate Subscribed(subs: Subscriptions, url: string, host: string) {
    NormUrl(url) in subs.urls || host in subs.hosts
  }

  function Upserted(candidates: Candidates, v: Validated, host: string, now: int): Candidates {
    if v.url in candidates then
      var row := candidates[v.url];
      candidates[v.url := row.(lastSeen := now, title := if row.title.Some? then row.title else v.Title())]
    else candidates[v.url := Candidate(host, v.Title(), Undecided, now, now)]
  }

  function UpsertedAll(candidates: Candidates, kept: seq<Validated>, host: string, now: int): Candidates
    decreases |kept|
  {
    if kept == [] then candidates
    else UpsertedAll(Upserted(candidates, kept[0], host, now), kept[1..], host, now)
  }

  function Marked(s: State, host: string, now: int): State {
    s.(checkedAt := s.checkedAt[host := now], lookups := s.lookups + [(host, now)])
  }

  function Reconciled(candidates: Candidates, subs: Subscriptions): Candidates {
    map url | url in candidates ::
      if candidates[url].status == Undecided && Subscribed(subs, url, candidates[url].host)
      then candidates[url].(status := Added) else candidates[url]
  }

  function Decided(candidates: Candidates, url: string, status: Decision): Candidates {
    if url in candidates then candidates[url := candidates[url].(status := status)] else candidates
  }

  // -------------------------------------------------------------------------
  // Choosing the hosts
  // -------------------------------------------------------------------------

  /** An article with its host, if its URL has one. */
  datatype Article = Article(host: Option<string>, url: string, aggregatorOnly: bool, score: real)

  datatype Lookup = Lookup(host: string, url: string, score: real)

  datatype Config = Config(skipHosts: seq<string>, maxLookups: nat)

  /** `host_matches`. */
  predicate HostMatches(host: string, entry: string) {
    var e := LowerAll(Trim(entry));
    e != "" && (host == e || EndsWith(host, "." + e))
  }

  predicate Skipped(host: string, skipHosts: seq<string>) {
    exists i :: 0 <= i < |skipHosts| && HostMatches(host, skipHosts[i])
  }

  /** The article is a lead: it came through aggregators only, and the operator neither
      skips its host nor subscribes to it. */
  predicate Lead(a: Article, cfg: Config, subs: Subscriptions) {
    a.aggregatorOnly && a.host.Some? && !Skipped(a.host.value, cfg.skipHosts) && a.host.value !in subs.hosts
  }

  /** The entry of the article's host, made or improved: the best score wins, and its
      article lends the URL. */
  function Noted(hosts: seq<Lookup>, host: string, url: string, score: real): seq<Lookup> {
    if hosts == [] || StringBefore(host, hosts[0].host) then [Lookup(host, url, score)] + hosts
    else if hosts[0].host == host then
      (if score > hosts[0].score then [Lookup(host, url, score)] else [hosts[0]]) + hosts[1..]
    else [hosts[0]] + Noted(hosts[1..], host, url, score)
  }

  function NotedLead(hosts: seq<Lookup>, a: Article, cfg: Config, subs: Subscriptions): seq<Lookup> {
    if Lead(a, cfg, subs) then Noted(hosts, a.host.value, a.url, a.score) else hosts
  }

  /** `by_host`, a `BTreeMap`: the leads grouped by host, in the order of the hosts. */
  function Grouped(articles: seq<Article>, cfg: Config, subs: Subscriptions): seq<Lookup>
    decreases |articles|
  {
    if articles == [] then []
    else NotedLead(Grouped(articles[..|articles| - 1], cfg, subs), articles[|articles| - 1], cfg, subs)
  }

  /** The memo is still good: the host was looked up no more than 90 days ago. */
  predicate Fresh(checkedAt: map<string, int>, host: string, now: int) {
    host in checkedAt && checkedAt[host] >= now - RECHECK_SECONDS
  }

  function Stale(hosts: seq<Lookup>, checkedAt: map<string, int>, now: int): seq<Lookup> {
    if hosts == [] then []
    else (if Fresh(checkedAt, hosts[0].host, now) then [] else [hosts[0]]) + Stale(hosts[1..], checkedAt, now)
  }

  predicate ScoresHigher(a: Lookup, b: Lookup) { a.score >= b.score }

  /** The hosts to look up: the best-scored of those without a fresh memo. */
  function Queue(articles: seq<Article>, checkedAt: map<string, int>, subs: Subscriptions,
                 cfg: Config, now: int): seq<Lookup> {
    Take(Sort(Stale(Grouped(articles, cfg, subs), checkedAt, now), ScoresHigher), cfg.maxLookups)
  }

  // -------------------------------------------------------------------------
  // One pass
  // -------------------------------------------------------------------------

  /** What a lookup brings: a transport failure, which says nothing about the host, or
      the feeds that were found there. */
  datatype Answer = Unreachable | Checked(validated: seq<Validated>)

  /** The network: what each lookup brings, and the lookups in the order in which their
      answers are written. A pass that is cut short leaves some out. */
  datatype World = World(answer: Lookup -> Answer, answered: seq<Lookup> -> seq<Lookup>) {
    ghost predicate Valid() { forall queue :: multiset(answered(queue)) <= multiset(queue) }
  }

  function Written(s: State, host: string, answer: Answer, now: int): State {
    match answer
    case Unreachable => s
    case Checked(validated) =>
      Marked(s.(candidates := UpsertedAll(s.candidates, Deduped(validated), host, now)), host, now)
  }

  function WrittenAll(s: State, looked: seq<Lookup>, w: World, now: int): State
    decreases |looked|
  {
    if looked == [] then s
    else WrittenAll(Written(s, looked[0].host, w.answer(looked[0]), now), looked[1..], w, now)
  }

  function Passed(s: State, articles: seq<Article>, subs: Subscriptions, cfg: Config, w: World, now: int): State {
    var queue := Queue(articles, s.checkedAt, subs, cfg, now);
    WrittenAll(s.(candidates := Reconciled(s.candidates, subs)), w.answered(queue), w, now)
  }

  /** The database, and `run` as it works on it. */
  class FeedDb {
    var candidates: Candidates
    var checkedAt: map<string, int>
    ghost var lookups: seq<(string, int)>

    constructor (s: State)
      ensures Contents() == s
    {
      candidates, checkedAt, lookups := s.candidates, s.checkedAt, s.lookups;
    }

    ghost function Contents(): State
      reads this
    {
      State(candidates, checkedAt, lookups)
    }

    /** `upsert_candidate`. */
    method UpsertCandidate(v: Validated, host: string, now: int)
      modifies this`candidates
      ensures candidates == Upserted(old(candidates), v, host, now)
      ensures v.url in candidates && candidates[v.url].lastSeen == now
      ensures v.url !in old(candidates) ==>
                candidates[v.url] == Candidate(host, if v.rawTitle == v.url then v.sniffedTitle else Some(v.rawTitle),
                                               Undecided, now, now)
      ensures v.url in old(candidates) ==>
                var before, after := old(candidates)[v.url], candidates[v.url];
                && after.host == before.host && after.status == before.status && after.firstSeen == before.firstSeen
                && after.title == if before.title.Some? then before.title
                                  else if v.rawTitle == v.url then v.sniffedTitle else Some(v.rawTitle)
      ensures forall url :: url != v.url ==> (url in candidates <==> url in old(candidates))
      ensures forall url :: url != v.url && url in candidates ==> candidates[url] == old(candidates)[url]
    {
      if v.url in candidates {
        var row := candidates[v.url];
        var title := if row.title.Some? then row.title else v.Title();
        candidates := candidates[v.url := row.(lastSeen := now, title := title)];
      } else {
        candidates := candidates[v.url := Candidate(host, v.Title(), Undecided, now, now)];
      }
    }

    /** `mark_host_checked`: for the next 90 days, and no longer, the host is fresh,
        whenever it was looked up before. */
    method MarkHostChecked(host: string, now: int)
      modifies this`checkedAt, this`lookups
      ensures forall t :: Fresh(checkedAt, host, t) <==> t <= now + 90 * 24 * 3600
      ensures forall h, t :: h != host ==> (Fresh(checkedAt, h, t) <==> Fresh(old(checkedAt), h, t))
      ensures Contents() == Marked(old(Contents()), host, now)
    {
      checkedAt := checkedAt[host := now];
      lookups := lookups + [(host, now)];
    }

    /** `set_status`: the operator's decision. */
    method SetStatus(url: string, status: Decision)
      modifies this`candidates
      ensures candidates == Decided(old(candidates), url, status)
    {
      if url in candidates {
        candidates := candidates[url := candidates[url].(status := status)];
      }
    }

    /** `reconcile_added`, over the undecided candidates: those become `added` whose URL,
        but for case, blanks around it and slashes at its end, is the URL of a subscribed
        feed, or whose host is that of one. Nothing else changes. */
    method ReconcileAdded(subs: Subscriptions)
      modifies this`candidates
      ensures candidates.Keys == old(candidates).Keys
      ensures forall url :: url in candidates ==>
                var before := old(candidates)[url];
                candidates[url] == before.(status := if before.status == Undecided
                                                        && (LowerAll(StripEnd(Trim(url), '/')) in subs.urls
                                                            || before.host in subs.hosts)
                                                     then Added else before.status)
      ensures candidates == Reconciled(old(candidates), subs)
    {
      var undecided := set url | url in candidates && candidates[url].status == Undecided;
      while undecided != {}
        invariant undecided <= old(candidates).Keys == candidates.Keys
        invariant forall url :: url in undecided ==> old(candidates)[url].status == Undecided
        invariant forall url :: url in candidates ==>
                    candidates[url] == (if url in undecided then old(candidates)[url]
                                        else Reconciled(old(candidates), subs)[url])
        decreases |undecided|
      {
        var url :| url in undecided;
        undecided := undecided - {url};
        if Subscribed(subs, url, candidates[url].host) {
          SetStatus(url, Added);
        }
      }
      assert candidates == Reconciled(old(candidates), subs);
    }

    /** `run`. */
    method Run(articles: seq<Article>, subs: Subscriptions, cfg: Config, w: World, now: int)
      modifies this
      ensures Contents() == Passed(old(Contents()), articles, subs, cfg, w, now)
    {
      ReconcileAdded(subs);
      var hosts := GroupByHost(articles, subs, cfg);
      var queue := QueueStale(hosts, now);
      queue := Take(Sort(queue, ScoresHigher), cfg.maxLookups);
      WriteAnswers(w.answered(queue), w, now);
    }

    method GroupByHost(articles: seq<Article>, subs: Subscriptions, cfg: Config) returns (hosts: seq<Lookup>)
      ensures hosts == Grouped(articles, cfg, subs)
    {
      hosts := [];
      for i := 0 to |articles|
        invariant hosts == Grouped(articles[..i], cfg, subs)
      {
        assert articles[..i + 1][..i] == articles[..i];
        var a := articles[i];
        if !a.aggregatorOnly || a.host.None? {
          continue;
        }
        if Skipped(a.host.value, cfg.skipHosts) || a.host.value in subs.hosts {
          continue;
        }
        hosts := Noted(hosts, a.host.value, a.url, a.score);
      }
      assert articles[..|articles|] == articles;
    }

    method QueueStale(hosts: seq<Lookup>, now: int) returns (queue: seq<Lookup>)
      ensures queue == Stale(hosts, checkedAt, now)
    {
      queue := [];
      for i := 0 to |hosts|
        invariant queue + Stale(hosts[i..], checkedAt, now) == Stale(hosts, checkedAt, now)
      {
        assert hosts[i..][1..] == hosts[i + 1..];
        if !Fresh(checkedAt, hosts[i].host, now) {
          queue := queue + [hosts[i]];
        }
      }
      assert queue + [] == queue;
    }

    method WriteAnswers(looked: seq<Lookup>, w: World, now: int)
      modifies this
      ensures Contents() == WrittenAll(old(Contents()), looked, w, now)
    {
      for i := 0 to |looked|
        invariant WrittenAll(Contents(), looked[i..], w, now) == WrittenAll(old(Contents()), looked, w, now)
      {
        assert looked[i..][1..] == looked[i + 1..];
        match w.answer(looked[i])
        case Unreachable =>
        case Checked(validated) =>
          var kept := DedupeGuesses(validated);
          WriteCandidates(kept, looked[i].host, now);
          MarkHostChecked(looked[i].host, now);
      }
    }

    method WriteCandidates(kept: seq<Validated>, host: string, now: int)
      modifies this`candidates
      ensures candidates == UpsertedAll(old(candidates), kept, host, now)
    {
      for i := 0 to |kept|
        invariant UpsertedAll(candidates, kept[i..], host, now) == UpsertedAll(old(candidates), kept, host, now)
      {
        assert kept[i..][1..] == kept[i + 1..];
        UpsertCandidate(kept[i], host, now);
      }
    }
  }
}
