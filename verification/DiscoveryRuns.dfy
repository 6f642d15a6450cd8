/** What holds over any sequence of discovery passes and operator decisions. */
module DiscoveryRuns {
  import opened Text
  import opened Sorting
  import opened FeedGuesses
  import opened Discovery

  // -------------------------------------------------------------------------
  // Which hosts a pass looks up
  // -------------------------------------------------------------------------

  ghost predicate HostsIncrease(hosts: seq<Lookup>) {
    forall i, j :: 0 <= i < j < |hosts| ==> StringBefore(hosts[i].host, hosts[j].host)
  }

  ghost predicate OnePerHost(queue: seq<Lookup>) {
    forall i, j :: 0 <= i < j < |queue| ==> queue[i].host != queue[j].host
  }

  /** The entry stands for an article: one of the leads. */
  predicate FromLead(e: Lookup, articles: seq<Article>, cfg: Config, subs: Subscriptions) {
    exists i :: 0 <= i < |articles| && Lead(articles[i], cfg, subs)
             && Lookup(articles[i].host.value, articles[i].url, articles[i].score) == e
  }

  /** Some entry of the host scores no less. */
  predicate Covers(hosts: seq<Lookup>, host: string, score: real) {
    exists i :: 0 <= i < |hosts| && hosts[i].host == host && hosts[i].score >= score
  }

  lemma {:induction false} NotedIs(hosts: seq<Lookup>, host: string, url: string, score: real)
    requires HostsIncrease(hosts)
    ensures var r := Noted(hosts, host, url, score);
            && HostsIncrease(r)
            && (forall e :: e in r ==> e in hosts || e == Lookup(host, url, score))
            && (r[0].host == host || (hosts != [] && r[0].host == hosts[0].host))
            && Covers(r, host, score)
            && (forall e :: e in hosts ==> Covers(r, e.host, e.score))
    decreases hosts, 1
  {
    var r := Noted(hosts, host, url, score);
    if hosts == [] || StringBefore(host, hosts[0].host) {
      forall j | 0 < j < |r| ensures StringBefore(r[0].host, r[j].host) {
        BeforeIsStrictOrder(host, hosts[0].host, r[j].host);
      }
      assert forall i :: 0 <= i < |hosts| ==> r[i + 1] == hosts[i];
      assert r[0].host == host && r[0].score >= score;
    } else if hosts[0].host == host {
      assert forall i :: 0 < i < |hosts| ==> r[i] == hosts[i];
      assert r[0].host == host && r[0].score >= score && r[0].score >= hosts[0].score;
    } else {
      BeforeIsStrictOrder(hosts[0].host, host, "");
      NotedRest(hosts, host, url, score);
    }
  }

  lemma {:induction false} NotedRest(hosts: seq<Lookup>, host: string, url: string, score: real)
    requires HostsIncrease(hosts) && hosts != [] && StringBefore(hosts[0].host, host)
    ensures var r := [hosts[0]] + Noted(hosts[1..], host, url, score);
            && HostsIncrease(r)
            && (forall e :: e in r ==> e in hosts || e == Lookup(host, url, score))
            && Covers(r, host, score)
            && (forall e :: e in hosts ==> Covers(r, e.host, e.score))
    decreases hosts, 0
  {
    var rest := Noted(hosts[1..], host, url, score);
    var r := [hosts[0]] + rest;
    NotedIs(hosts[1..], host, url, score);
    forall j | 0 < j < |r| ensures StringBefore(r[0].host, r[j].host) {
      assert rest[j - 1] in rest;
    }
    CoversBehind(hosts[0], rest, host, score);
    forall e | e in hosts ensures Covers(r, e.host, e.score) {
      CoversBehind(hosts[0], rest, e.host, e.score);
      assert e == hosts[0] || e in hosts[1..];
    }
  }

  lemma CoversBehind(first: Lookup, rest: seq<Lookup>, host: string, score: real)
    ensures Covers(rest, host, score) || (first.host == host && first.score >= score)
         ==> Covers([first] + rest, host, score)
  {
    var r := [first] + rest;
    if Covers(rest, host, score) {
      var i :| 0 <= i < |rest| && rest[i].host == host && rest[i].score >= score;
      assert r[i + 1] == rest[i];
    } else if first.host == host && first.score >= score {
      assert r[0] == first;
    }
  }

  /** The grouping has one entry a host, each stands for a lead, and no lead of the
      host scores higher. */
  lemma {:induction false} GroupedIs(articles: seq<Article>, cfg: Config, subs: Subscriptions)
    ensures var hosts := Grouped(articles, cfg, subs);
            && HostsIncrease(hosts)
            && (forall e :: e in hosts ==> FromLead(e, articles, cfg, subs))
            && (forall i :: 0 <= i < |articles| && Lead(articles[i], cfg, subs) ==>
                  Covers(hosts, articles[i].host.value, articles[i].score))
    decreases |articles|
  {
    if articles != [] {
      var k := |articles| - 1;
      GroupedIs(articles[..k], cfg, subs);
      GroupedStep(articles, cfg, subs, Grouped(articles[..k], cfg, subs));
    }
  }

  lemma CoversAll(hosts: seq<Lookup>, r: seq<Lookup>, host: string, score: real)
    requires Covers(hosts, host, score) && forall e :: e in hosts ==> Covers(r, e.host, e.score)
    ensures Covers(r, host, score)
  {
    var i :| 0 <= i < |hosts| && hosts[i].host == host && hosts[i].score >= score;
    assert hosts[i] in hosts;
    var j :| 0 <= j < |r| && r[j].host == hosts[i].host && r[j].score >= hosts[i].score;
    assert r[j].host == host && r[j].score >= score;
  }

  lemma GroupedStep(articles: seq<Article>, cfg: Config, subs: Subscriptions, hosts: seq<Lookup>)
    requires articles != [] && HostsIncrease(hosts)
    requires forall e :: e in hosts ==> FromLead(e, articles[..|articles| - 1], cfg, subs)
    requires forall i :: 0 <= i < |articles| - 1 && Lead(articles[i], cfg, subs) ==>
               Covers(hosts, articles[i].host.value, articles[i].score)
    ensures var r := NotedLead(hosts, articles[|articles| - 1], cfg, subs);
            && HostsIncrease(r)
            && (forall e :: e in r ==> FromLead(e, articles, cfg, subs))
            && (forall i :: 0 <= i < |articles| && Lead(articles[i], cfg, subs) ==>
                  Covers(r, articles[i].host.value, articles[i].score))
  {
    var k := |articles| - 1;
    var a, r := articles[k], NotedLead(hosts, articles[k], cfg, subs);
    forall e | FromLead(e, articles[..k], cfg, subs) ensures FromLead(e, articles, cfg, subs) {
      var i :| 0 <= i < k && Lead(articles[i], cfg, subs)
               && Lookup(articles[i].host.value, articles[i].url, articles[i].score) == e;
    }
    if Lead(a, cfg, subs) {
      NotedIs(hosts, a.host.value, a.url, a.score);
      assert FromLead(Lookup(a.host.value, a.url, a.score), articles, cfg, subs);
      forall i | 0 <= i < k && Lead(articles[i], cfg, subs)
        ensures Covers(r, articles[i].host.value, articles[i].score) {
        CoversAll(hosts, r, articles[i].host.value, articles[i].score);
      }
    }
  }

  lemma {:induction false} StaleIs(hosts: seq<Lookup>, checkedAt: map<string, int>, now: int)
    requires HostsIncrease(hosts)
    ensures forall e :: e in Stale(hosts, checkedAt, now) <==> e in hosts && !Fresh(checkedAt, e.host, now)
    ensures HostsIncrease(Stale(hosts, checkedAt, now))
  {
    if hosts != [] {
      var rest := Stale(hosts[1..], checkedAt, now);
      StaleIs(hosts[1..], checkedAt, now);
      assert hosts == [hosts[0]] + hosts[1..];
      var r := Stale(hosts, checkedAt, now);
      forall i, j | 0 <= i < j < |r| ensures StringBefore(r[i].host, r[j].host) {
        assert r[j] in rest;
        if !Fresh(checkedAt, hosts[0].host, now) && i == 0 {
          assert rest[j - 1] in hosts[1..];
        }
      }
    }
  }

  lemma {:induction false} CountOf(queue: seq<Lookup>, e: Lookup)
    requires OnePerHost(queue)
    ensures multiset(queue)[e] <= 1
  {
    if queue != [] {
      CountOf(queue[1..], e);
      assert queue == [queue[0]] + queue[1..];
      if e == queue[0] {
        assert e !in queue[1..];
      }
    }
  }

  /** Rearranging a queue or leaving some of it out keeps one entry a host. */
  lemma SelectionKeepsOnePerHost(queue: seq<Lookup>, r: seq<Lookup>)
    requires OnePerHost(queue) && multiset(r) <= multiset(queue)
    ensures OnePerHost(r) && |r| <= |queue| && forall e :: e in r ==> e in queue
  {
    SubMultiset(queue, r);
    forall i, j | 0 <= i < j < |r| ensures r[i].host != r[j].host {
      assert r[i] in queue && r[j] in queue;
      CountOf(queue, r[i]);
      OccursTwice(r, i, j);
    }
  }

  lemma OccursTwice(r: seq<Lookup>, i: nat, j: nat)
    requires i < j < |r|
    ensures r[i] == r[j] ==> multiset(r)[r[i]] >= 2
  {
    if r[i] == r[j] {
      assert r == r[..j] + r[j..];
      assert r[i] in r[..j] && r[j] in r[j..];
      assert multiset(r)[r[i]] == multiset(r[..j])[r[i]] + multiset(r[j..])[r[i]];
    }
  }

  lemma SubMultiset(queue: seq<Lookup>, r: seq<Lookup>)
    requires multiset(r) <= multiset(queue)
    ensures |r| <= |queue| && forall e :: e in r ==> e in queue
  {
    forall e | e in r ensures e in queue {
      assert e in multiset(r);
      assert e in multiset(queue);
    }
    var left := multiset(queue) - multiset(r);
    assert multiset(queue) == multiset(r) + left;
  }

  ghost predicate Waiting(e: Lookup, articles: seq<Article>, checkedAt: map<string, int>, subs: Subscriptions,
                          cfg: Config, now: int) {
    FromLead(e, articles, cfg, subs) && !Fresh(checkedAt, e.host, now)
  }

  /** The queue: within the limit, one entry a host, and each a lead whose host has no
      fresh memo. */
  lemma QueueIs(articles: seq<Article>, checkedAt: map<string, int>, subs: Subscriptions, cfg: Config, now: int)
    ensures var queue := Queue(articles, checkedAt, subs, cfg, now);
            && |queue| <= cfg.maxLookups
            && OnePerHost(queue)
            && forall e :: e in queue ==> Waiting(e, articles, checkedAt, subs, cfg, now)
  {
    var hosts := Grouped(articles, cfg, subs);
    var stale := Stale(hosts, checkedAt, now);
    var sorted := Sort(stale, ScoresHigher);
    var queue := Queue(articles, checkedAt, subs, cfg, now);
    GroupedIs(articles, cfg, subs);
    StaleIs(hosts, checkedAt, now);
    forall i, j | 0 <= i < j < |stale| ensures stale[i].host != stale[j].host {
      BeforeIsStrictOrder(stale[i].host, "", "");
    }
    SortSorts(stale, Lookup("", "", 0.0), ScoresHigher);
    SelectionKeepsOnePerHost(stale, sorted);
  }

  /** No host is passed over for one that scores less: a lead that could have been
      looked up is in the queue by its host, or the queue is full of scores as high. */
  lemma QueueIsBestFirst(articles: seq<Article>, checkedAt: map<string, int>, subs: Subscriptions,
                         cfg: Config, now: int, i: nat)
    requires i < |articles| && Lead(articles[i], cfg, subs) && !Fresh(checkedAt, articles[i].host.value, now)
    ensures var queue := Queue(articles, checkedAt, subs, cfg, now);
            || Covers(queue, articles[i].host.value, articles[i].score)
            || (|queue| == cfg.maxLookups && forall e :: e in queue ==> e.score >= articles[i].score)
  {
    var a := articles[i];
    var hosts := Grouped(articles, cfg, subs);
    var stale := Stale(hosts, checkedAt, now);
    GroupedIs(articles, cfg, subs);
    StaleIs(hosts, checkedAt, now);
    var x :| 0 <= x < |hosts| && hosts[x].host == a.host.value && hosts[x].score >= a.score;
    assert hosts[x] in stale;
    var sorted := Sort(stale, ScoresHigher);
    SortSorts(stale, hosts[x], ScoresHigher);
    SortKeepsMembers(stale, ScoresHigher, hosts[x]);
    BestOfSorted(sorted, hosts[x], cfg.maxLookups);
    CoversMore(Queue(articles, checkedAt, subs, cfg, now), hosts[x], a.score);
  }

  lemma CoversMore(queue: seq<Lookup>, e: Lookup, score: real)
    requires e.score >= score
    ensures Covers(queue, e.host, e.score) ==> Covers(queue, e.host, score)
  {
    if Covers(queue, e.host, e.score) {
      var i :| 0 <= i < |queue| && queue[i].host == e.host && queue[i].score >= e.score;
      assert queue[i].score >= score;
    }
  }

  lemma BestOfSorted(sorted: seq<Lookup>, e: Lookup, limit: nat)
    requires e in sorted && Sorted(sorted, ScoresHigher)
    ensures var kept := Take(sorted, limit);
            Covers(kept, e.host, e.score) || (|kept| == limit && forall k :: k in kept ==> k.score >= e.score)
  {
    var kept := Take(sorted, limit);
    var y :| 0 <= y < |sorted| && sorted[y] == e;
    if y < |kept| {
      assert kept[y].host == e.host && kept[y].score >= e.score;
    } else {
      forall k | k in kept ensures k.score >= e.score {
        var z :| 0 <= z < |kept| && kept[z] == k;
        assert ScoresHigher(sorted[z], sorted[y]);
      }
    }
  }

  /** The host is the one an entry of the skip list names, or below that. */
  ghost predicate IsBelow(host: string, entry: string) {
    var e := LowerAll(Trim(entry));
    e != "" && (host == e || exists below :: host == below + ("." + e))
  }

  lemma SkipsHostsBelow(host: string, entry: string)
    ensures HostMatches(host, entry) <==> IsBelow(host, entry)
  {
    var suffix := "." + LowerAll(Trim(entry));
    if EndsWith(host, suffix) {
      assert host == host[..|host| - |suffix|] + suffix;
    }
  }

  /** An article leads to a lookup if aggregators alone brought it, its host is no subscribed
      one, and no entry of the skip list names that or a host above it. */
  lemma LeadIs(a: Article, cfg: Config, subs: Subscriptions)
    ensures Lead(a, cfg, subs) <==>
              a.aggregatorOnly && a.host.Some? && a.host.value !in subs.hosts
              && forall k :: 0 <= k < |cfg.skipHosts| ==> !IsBelow(a.host.value, cfg.skipHosts[k])
  {
    if a.host.Some? {
      forall k | 0 <= k < |cfg.skipHosts|
        ensures HostMatches(a.host.value, cfg.skipHosts[k]) <==> IsBelow(a.host.value, cfg.skipHosts[k])
      {
        SkipsHostsBelow(a.host.value, cfg.skipHosts[k]);
      }
    }
  }

  // -------------------------------------------------------------------------
  // The memo
  // -------------------------------------------------------------------------

  /** The memo holds a host's last recorded lookup, and any two of them are more than
      90 days apart. */
  ghost predicate Spaced(s: State) {
    && (forall i :: 0 <= i < |s.lookups| ==>
          s.lookups[i].0 in s.checkedAt && s.lookups[i].1 <= s.checkedAt[s.lookups[i].0])
    && (forall i, j :: 0 <= i < j < |s.lookups| && s.lookups[i].0 == s.lookups[j].0 ==>
          s.lookups[j].1 - s.lookups[i].1 > 90 * 24 * 3600)
  }

  lemma MarkKeepsSpacing(s: State, host: string, now: int)
    requires Spaced(s) && !Fresh(s.checkedAt, host, now)
    ensures Spaced(Marked(s, host, now))
  {
  }

  /** What writing the answers records: the answered hosts among those looked up, once
      each, at this moment. */
  lemma {:induction false} WrittenIs(s: State, looked: seq<Lookup>, w: World, now: int)
    requires Spaced(s) && OnePerHost(looked) && forall e :: e in looked ==> !Fresh(s.checkedAt, e.host, now)
    ensures var t := WrittenAll(s, looked, w, now);
            && Spaced(t)
            && s.lookups <= t.lookups && |t.lookups| <= |s.lookups| + |looked|
            && (forall i :: |s.lookups| <= i < |t.lookups| ==>
                  t.lookups[i].1 == now && IsHostOf(t.lookups[i].0, looked, w))
    decreases |looked|
  {
    if looked != [] {
      var e, rest := looked[0], looked[1..];
      var u := Written(s, e.host, w.answer(e), now);
      assert Spaced(u) by {
        if w.answer(e).Checked? {
          MarkKeepsSpacing(s.(candidates := u.candidates), e.host, now);
        }
      }
      forall x | x in rest ensures x in looked && !Fresh(u.checkedAt, x.host, now) {
        var i :| 0 <= i < |rest| && rest[i] == x;
        assert looked[i + 1] == x;
      }
      WrittenIs(u, rest, w, now);
      forall h ensures IsHostOf(h, looked, w) <==> (e.host == h && w.answer(e).Checked?) || IsHostOf(h, rest, w) {
        IsHostOfCons(h, looked, w);
      }
    }
  }

  lemma IsHostOfCons(host: string, looked: seq<Lookup>, w: World)
    requires looked != []
    ensures IsHostOf(host, looked, w)
         <==> (looked[0].host == host && w.answer(looked[0]).Checked?) || IsHostOf(host, looked[1..], w)
  {
    var rest := looked[1..];
    if IsHostOf(host, rest, w) {
      var i :| 0 <= i < |rest| && rest[i].host == host && w.answer(rest[i]).Checked?;
      assert looked[i + 1] == rest[i];
    }
    if IsHostOf(host, looked, w) {
      var i :| 0 <= i < |looked| && looked[i].host == host && w.answer(looked[i]).Checked?;
      assert i > 0 ==> rest[i - 1] == looked[i];
    }
  }

  predicate Recorded(lookups: seq<(string, int)>, host: string, now: int) { (host, now) in lookups }

  /** The memo and the history take up exactly the hosts that answered: a host that
      could not be reached leaves no trace and is tried again by the next pass. */
  lemma {:induction false} AnswersAreRecorded(s: State, looked: seq<Lookup>, w: World, now: int, host: string)
    ensures var t := WrittenAll(s, looked, w, now);
            && s.lookups <= t.lookups
            && (IsHostOf(host, looked, w) ==>
                Recorded(t.lookups, host, now) && host in t.checkedAt && t.checkedAt[host] == now)
            && (!IsHostOf(host, looked, w) ==>
                  && (host in t.checkedAt <==> host in s.checkedAt)
                  && (host in t.checkedAt ==> t.checkedAt[host] == s.checkedAt[host])
                  && (Recorded(t.lookups, host, now) ==> Recorded(s.lookups, host, now)))
    decreases |looked|
  {
    if looked != [] {
      var u := Written(s, looked[0].host, w.answer(looked[0]), now);
      AnswersAreRecorded(u, looked[1..], w, now, host);
      IsHostOfCons(host, looked, w);
      RecordedStays(u.lookups, WrittenAll(s, looked, w, now).lookups, host, now);
      RecordedStays(s.lookups, u.lookups, host, now);
    }
  }

  lemma RecordedStays(a: seq<(string, int)>, b: seq<(string, int)>, host: string, now: int)
    requires a <= b
    ensures Recorded(a, host, now) ==> Recorded(b, host, now)
  {
    if Recorded(a, host, now) {
      var i :| 0 <= i < |a| && a[i] == (host, now);
      assert b[i] == a[i];
    }
  }

  predicate IsHostOf(host: string, looked: seq<Lookup>, w: World) {
    exists i :: 0 <= i < |looked| && looked[i].host == host && w.answer(looked[i]).Checked?
  }

  /** One pass: it records no more lookups than its limit, all of them of hosts the
      operator neither skips nor subscribes to, and the spacing holds on. */
  lemma PassIs(s: State, articles: seq<Article>, subs: Subscriptions, cfg: Config, w: World, now: int)
    requires Spaced(s) && w.Valid()
    ensures var t := Passed(s, articles, subs, cfg, w, now);
            && Spaced(t)
            && s.lookups <= t.lookups && |t.lookups| - |s.lookups| <= cfg.maxLookups
            && forall i :: |s.lookups| <= i < |t.lookups| ==>
                 && t.lookups[i].1 == now
                 && !Skipped(t.lookups[i].0, cfg.skipHosts) && t.lookups[i].0 !in subs.hosts
                 && !Fresh(s.checkedAt, t.lookups[i].0, now)
  {
    var queue := Queue(articles, s.checkedAt, subs, cfg, now);
    var looked := w.answered(queue);
    QueueIs(articles, s.checkedAt, subs, cfg, now);
    SelectionKeepsOnePerHost(queue, looked);
    var u := s.(candidates := Reconciled(s.candidates, subs));
    WrittenIs(u, looked, w, now);
    var t := WrittenAll(u, looked, w, now);
    forall i | |s.lookups| <= i < |t.lookups|
      ensures !Skipped(t.lookups[i].0, cfg.skipHosts) && t.lookups[i].0 !in subs.hosts
      ensures !Fresh(s.checkedAt, t.lookups[i].0, now)
    {
      WasLead(t.lookups[i].0, looked, queue, w, articles, s.checkedAt, subs, cfg, now);
    }
  }

  lemma WasLead(host: string, looked: seq<Lookup>, queue: seq<Lookup>, w: World, articles: seq<Article>,
                checkedAt: map<string, int>, subs: Subscriptions, cfg: Config, now: int)
    requires IsHostOf(host, looked, w) && forall e :: e in looked ==> e in queue
    requires forall e :: e in queue ==> Waiting(e, articles, checkedAt, subs, cfg, now)
    ensures !Skipped(host, cfg.skipHosts) && host !in subs.hosts && !Fresh(checkedAt, host, now)
  {
    var j :| 0 <= j < |looked| && looked[j].host == host && w.answer(looked[j]).Checked?;
    assert Waiting(looked[j], articles, checkedAt, subs, cfg, now);
  }

  // -------------------------------------------------------------------------
  // The candidates
  // -------------------------------------------------------------------------

  /** The row kept its host, the moment it was first seen, and its title once it had one. */
  predicate SameRow(a: Candidate, b: Candidate) {
    a.host == b.host && a.firstSeen == b.firstSeen && (a.title.Some? ==> b.title == a.title)
  }

  /** Every row is still there, and one that was decided still has its decision. An
      undecided one is at most added: only the operator dismisses. */
  ghost predicate Grown(a: Candidates, b: Candidates) {
    forall url :: url in a ==>
      && url in b && SameRow(a[url], b[url])
      && (b[url].status == a[url].status || (a[url].status == Undecided && b[url].status == Added))
  }

  lemma {:induction false} UpsertsGrow(candidates: Candidates, kept: seq<Validated>, host: string, now: int)
    ensures Grown(candidates, UpsertedAll(candidates, kept, host, now))
    decreases |kept|
  {
    if kept != [] { UpsertsGrow(Upserted(candidates, kept[0], host, now), kept[1..], host, now); }
  }

  lemma {:induction false} WritesGrow(s: State, looked: seq<Lookup>, w: World, now: int)
    ensures Grown(s.candidates, WrittenAll(s, looked, w, now).candidates)
    decreases |looked|
  {
    if looked != [] {
      var e := looked[0];
      match w.answer(e) {
        case Unreachable =>
        case Checked(validated) => UpsertsGrow(s.candidates, Deduped(validated), e.host, now);
      }
      WritesGrow(Written(s, e.host, w.answer(e), now), looked[1..], w, now);
    }
  }

  /** What an answer proposes is a candidate afterwards. */
  lemma {:induction false} ProposalsAreKept(s: State, looked: seq<Lookup>, w: World, now: int, i: nat, v: Validated)
    requires i < |looked| && w.answer(looked[i]).Checked? && v in Deduped(w.answer(looked[i]).validated)
    ensures v.url in WrittenAll(s, looked, w, now).candidates
    decreases |looked|
  {
    var e := looked[0];
    var u := Written(s, e.host, w.answer(e), now);
    if i == 0 {
      UpsertedArePresent(s.candidates, Deduped(w.answer(e).validated), e.host, now, v);
      WritesGrow(u, looked[1..], w, now);
    } else {
      ProposalsAreKept(u, looked[1..], w, now, i - 1, v);
    }
  }

  lemma {:induction false} UpsertedArePresent(candidates: Candidates, kept: seq<Validated>,
                                              host: string, now: int, v: Validated)
    requires v in kept
    ensures v.url in UpsertedAll(candidates, kept, host, now)
    decreases |kept|
  {
    var first := Upserted(candidates, kept[0], host, now);
    if v == kept[0] {
      UpsertsGrow(first, kept[1..], host, now);
    } else {
      UpsertedArePresent(first, kept[1..], host, now, v);
    }
  }

  lemma PassGrows(s: State, articles: seq<Article>, subs: Subscriptions, cfg: Config, w: World, now: int)
    ensures Grown(s.candidates, Passed(s, articles, subs, cfg, w, now).candidates)
  {
    var u := s.(candidates := Reconciled(s.candidates, subs));
    WritesGrow(u, w.answered(Queue(articles, s.checkedAt, subs, cfg, now)), w, now);
  }

  // -------------------------------------------------------------------------
  // Any run
  // -------------------------------------------------------------------------

  /** A discovery pass, or the operator adding or dismissing a candidate. */
  datatype Event =
    | Discover(articles: seq<Article>, subs: Subscriptions, cfg: Config, w: World, now: int)
    | Decide(url: string, status: Decision)
  {
    ghost predicate Valid() { if Discover? then w.Valid() else status != Undecided }
  }

  function Next(s: State, e: Event): State {
    match e
    case Discover(articles, subs, cfg, w, now) => Passed(s, articles, subs, cfg, w, now)
    case Decide(url, status) => s.(candidates := Decided(s.candidates, url, status))
  }

  function After(s: State, events: seq<Event>): State
    decreases |events|
  {
    if events == [] then s else After(Next(s, events[0]), events[1..])
  }

  /** Whatever the passes see and by whatever clock, two recorded lookups of one host
      are more than 90 days apart. */
  lemma {:induction false} LookupsStaySpaced(s: State, events: seq<Event>)
    requires Spaced(s) && forall i :: 0 <= i < |events| ==> events[i].Valid()
    ensures Spaced(After(s, events)) && s.lookups <= After(s, events).lookups
    decreases |events|
  {
    if events != [] {
      var e := events[0];
      if e.Discover? {
        PassIs(s, e.articles, e.subs, e.cfg, e.w, e.now);
      }
      LookupsStaySpaced(Next(s, e), events[1..]);
    }
  }

  /** The operator's last word on a candidate. */
  function LastWord(events: seq<Event>, url: string): Option<Decision> {
    if events == [] then None
    else
      var later := LastWord(events[1..], url);
      if later.Some? then later
      else if events[0].Decide? && events[0].url == url then Some(events[0].status)
      else None
  }

  /** A row keeps its host, its first title and the moment it was first seen through
      any run, and its decision is the operator's last word on it. Without one, a row
      that was decided stays so, and any other is never dismissed. */
  lemma {:induction false} DecisionsStand(s: State, events: seq<Event>, url: string)
    requires url in s.candidates && forall i :: 0 <= i < |events| ==> events[i].Valid()
    ensures var t := After(s, events).candidates;
            && url in t && SameRow(s.candidates[url], t[url])
            && match LastWord(events, url)
               case Some(word) => t[url].status == word
               case None =>
                 t[url].status == s.candidates[url].status
                 || (s.candidates[url].status == Undecided && t[url].status == Added)
    decreases |events|
  {
    if events != [] {
      var e := events[0];
      if e.Discover? {
        PassGrows(s, e.articles, e.subs, e.cfg, e.w, e.now);
      }
      DecisionsStand(Next(s, e), events[1..], url);
    }
  }
}
