/** `src/imports.rs`: the queue of historical ratings and the run that drains it. */
module Imports {
  import opened Text
  import opened Ratings

  const BATCH_SIZE := 20

  datatype Status = Pending | Imported(article: nat) | Failed

  /** One row of `rating_imports`; its id is its position. */
  datatype Row = Row(url: string, verdict: string, status: Status)

  /** The store as a run sees it: the queue, the article of each known canonical URL
      (ids count up), and the rating log. */
  datatype Store = Store(rows: seq<Row>, articles: map<string, nat>, nextArticle: nat, log: Log)

  /** The outside world: URL canonicalization, whether a page can be fetched and
      read, and the clock at the n-th row of the run. */
  datatype World = World(canonical: string -> Option<string>, readable: string -> bool, clock: nat -> int)

  /** `vote`: the labels that are verdicts. */
  predicate IsVote(verdict: string) {
    verdict == "loved" || verdict == "good" || verdict == "not_for_me" || verdict == SLOP
  }

  datatype Outcome = Created | Existing | Rejected

  /** `process` and `finish` for row `id`. A page that was fetched stays an article
      even when the verdict turns out to be no verdict. */
  function Process(s: Store, id: nat, w: World, now: int): (r: (Store, Outcome))
    requires id < |s.rows|
    ensures |r.0.rows| == |s.rows| && r.0.rows[id].status != Pending
    ensures forall i :: 0 <= i < |s.rows| && i != id ==> r.0.rows[i] == s.rows[i]
    ensures r.0.rows[id].url == s.rows[id].url && r.0.rows[id].verdict == s.rows[id].verdict
  {
    var row := s.rows[id];
    var failed := s.(rows := s.rows[id := row.(status := Failed)]);
    match w.canonical(row.url)
    case None => (failed, Rejected)
    case Some(url) =>
      var known := url in s.articles;
      if !known && !w.readable(url) then (failed, Rejected)
      else
        var article := if known then s.articles[url] else s.nextArticle;
        var t := if known then s else s.(articles := s.articles[url := article], nextArticle := s.nextArticle + 1);
        if !IsVote(row.verdict) then (t.(rows := failed.rows), Rejected)
        else
          (t.(rows := s.rows[id := row.(status := Imported(article))],
              log := s.log + [Event(article, true, row.verdict, now)]),
           if known then Existing else Created)
  }

  /** The pending ids from `k` on, lowest first. */
  function PendingFrom(rows: seq<Row>, k: nat): seq<nat>
    requires k <= |rows|
    decreases |rows| - k
  {
    if k == |rows| then []
    else (if rows[k].status == Pending then [k] else []) + PendingFrom(rows, k + 1)
  }

  function PendingIds(rows: seq<Row>): seq<nat> { PendingFrom(rows, 0) }

  /** They are the pending rows, each once, in increasing order. */
  lemma {:induction false} PendingAreListed(rows: seq<Row>, k: nat)
    requires k <= |rows|
    ensures forall i :: i in PendingFrom(rows, k) <==> k <= i < |rows| && rows[i].status == Pending
    ensures forall x, y :: 0 <= x < y < |PendingFrom(rows, k)| ==> PendingFrom(rows, k)[x] < PendingFrom(rows, k)[y]
    decreases |rows| - k
  {
    if k < |rows| {
      PendingAreListed(rows, k + 1);
      var rest := PendingFrom(rows, k + 1);
      assert forall x :: 0 <= x < |rest| ==> rest[x] in rest;
    }
  }

  lemma {:induction false} PendingAgree(rows: seq<Row>, other: seq<Row>, k: nat)
    requires k <= |rows| == |other| && forall i :: k <= i < |rows| ==> rows[i] == other[i]
    ensures PendingFrom(rows, k) == PendingFrom(other, k)
    decreases |rows| - k
  {
    if k < |rows| { PendingAgree(rows, other, k + 1); }
  }

  /** Finishing the first pending row leaves the others. */
  lemma {:induction false} PendingAfterFirst(rows: seq<Row>, other: seq<Row>, k: nat)
    requires k <= |rows| == |other| && PendingFrom(rows, k) != []
    requires forall i :: 0 <= i < |rows| && i != PendingFrom(rows, k)[0] ==> other[i] == rows[i]
    requires PendingFrom(rows, k)[0] < |rows| ==> other[PendingFrom(rows, k)[0]].status != Pending
    ensures PendingFrom(rows, k)[0] < |rows| && rows[PendingFrom(rows, k)[0]].status == Pending
    ensures PendingFrom(other, k) == PendingFrom(rows, k)[1..]
    decreases |rows| - k
  {
    if rows[k].status == Pending {
      assert PendingFrom(rows, k)[0] == k && PendingFrom(rows, k)[1..] == PendingFrom(rows, k + 1);
      PendingAgree(rows, other, k + 1);
    } else {
      assert PendingFrom(rows, k) == PendingFrom(rows, k + 1);
      PendingAfterFirst(rows, other, k + 1);
    }
  }

  /** New rows are pending behind the old ones. */
  lemma {:induction false} PendingAppend(rows: seq<Row>, added: seq<Row>, k: nat)
    requires k <= |rows| && forall i :: 0 <= i < |added| ==> added[i].status == Pending
    ensures PendingFrom(rows, k) <= PendingFrom(rows + added, k)
    ensures |PendingFrom(rows + added, k)| == |PendingFrom(rows, k)| + |added|
    decreases |rows| - k
  {
    if k < |rows| {
      PendingAppend(rows, added, k + 1);
    } else {
      AllPending(rows + added, k);
    }
  }

  lemma {:induction false} AllPending(rows: seq<Row>, k: nat)
    requires k <= |rows| && forall i :: k <= i < |rows| ==> rows[i].status == Pending
    ensures |PendingFrom(rows, k)| == |rows| - k
    decreases |rows| - k
  {
    if k < |rows| { AllPending(rows, k + 1); }
  }

  lemma FirstIsPending(rows: seq<Row>)
    requires PendingIds(rows) != []
    ensures PendingIds(rows)[0] < |rows| && rows[PendingIds(rows)[0]].status == Pending
  {
    PendingAreListed(rows, 0);
    assert PendingIds(rows)[0] in PendingIds(rows);
  }

  // -------------------------------------------------------------------------
  // The simple form: one row at a time, lowest id first
  // -------------------------------------------------------------------------

  /** What a run has done: the rows it finished, in order, and its counters. */
  datatype Report = Report(store: Store, done: seq<nat>, created: nat, existing: nat, failed: nat)

  /** New rows that arrive while the run works: `arrivals[n]` right after its n-th row. */
  type Arrivals = seq<seq<(string, string)>>

  function NewRows(batch: seq<(string, string)>): (rows: seq<Row>)
    ensures |rows| == |batch|
    ensures forall i :: 0 <= i < |rows| ==> rows[i] == Row(batch[i].0, batch[i].1, Pending)
  {
    seq(|batch|, i requires 0 <= i < |batch| => Row(batch[i].0, batch[i].1, Pending))
  }

  /** `queue`: appended, all pending. */
  function Queued(s: Store, batch: seq<(string, string)>): Store { s.(rows := s.rows + NewRows(batch)) }

  function Arriving(arrivals: Arrivals): seq<(string, string)> { if arrivals == [] then [] else arrivals[0] }
  function Later(arrivals: Arrivals): Arrivals { if arrivals == [] then [] else arrivals[1..] }

  function Work(s: Store, arrivals: Arrivals): nat {
    |PendingIds(s.rows)| + Expected(arrivals)
  }

  function Expected(arrivals: Arrivals): nat {
    if arrivals == [] then 0 else |arrivals[0]| + Expected(arrivals[1..])
  }

  function Drain(s: Store, w: World, arrivals: Arrivals, n: nat): Report
    decreases Work(s, arrivals)
  {
    if PendingIds(s.rows) == [] then Report(s, [], 0, 0, 0)
    else
      FirstIsPending(s.rows);
      var id := PendingIds(s.rows)[0];
      var (t, outcome) := Process(s, id, w, w.clock(n));
      ProcessShrinks(s, w, arrivals, n);
      Counted(id, outcome, Drain(Queued(t, Arriving(arrivals)), w, Later(arrivals), n + 1))
  }

  /** One finished row in front of what comes after it. */
  function Counted(id: nat, outcome: Outcome, r: Report): Report {
    Report(r.store, [id] + r.done,
           r.created + (if outcome == Created then 1 else 0),
           r.existing + (if outcome == Existing then 1 else 0),
           r.failed + (if outcome == Rejected then 1 else 0))
  }

  /** Finishing the lowest pending row and queueing more: the other pending rows come
      first, in their old order, and then the new ones. */
  lemma PendingAfter(s: Store, w: World, now: int, batch: seq<(string, string)>)
    requires PendingIds(s.rows) != []
    ensures PendingIds(s.rows)[0] < |s.rows|
    ensures var t := Queued(Process(s, PendingIds(s.rows)[0], w, now).0, batch);
            && PendingIds(s.rows)[1..] <= PendingIds(t.rows)
            && |PendingIds(t.rows)| == |PendingIds(s.rows)| - 1 + |batch|
  {
    FirstIsPending(s.rows);
    var done := Process(s, PendingIds(s.rows)[0], w, now).0;
    PendingAfterFirst(s.rows, done.rows, 0);
    PendingAppend(done.rows, NewRows(batch), 0);
  }

  lemma ProcessShrinks(s: Store, w: World, arrivals: Arrivals, n: nat)
    requires PendingIds(s.rows) != []
    ensures PendingIds(s.rows)[0] < |s.rows|
    ensures Work(Queued(Process(s, PendingIds(s.rows)[0], w, w.clock(n)).0, Arriving(arrivals)), Later(arrivals))
         < Work(s, arrivals)
  {
    PendingAfter(s, w, w.clock(n), Arriving(arrivals));
  }

  // -------------------------------------------------------------------------
  // What a run has done
  // -------------------------------------------------------------------------

  /** The row keeps what was asked for; only its status changes. */
  predicate SameRequest(a: Row, b: Row) { a.url == b.url && a.verdict == b.verdict }

  /** The state after the first row of a run and the rows queued meanwhile. */
  function AfterFirst(s: Store, w: World, arrivals: Arrivals, n: nat): Store
    requires PendingIds(s.rows) != []
    ensures Work(AfterFirst(s, w, arrivals, n), Later(arrivals)) < Work(s, arrivals)
  {
    FirstIsPending(s.rows);
    ProcessShrinks(s, w, arrivals, n);
    Queued(Process(s, PendingIds(s.rows)[0], w, w.clock(n)).0, Arriving(arrivals))
  }

  lemma DrainUnfolds(s: Store, w: World, arrivals: Arrivals, n: nat)
    requires PendingIds(s.rows) != []
    ensures var id := PendingIds(s.rows)[0];
            && id < |s.rows| && s.rows[id].status == Pending
            && Drain(s, w, arrivals, n)
               == Counted(id, Process(s, id, w, w.clock(n)).1,
                          Drain(AfterFirst(s, w, arrivals, n), w, Later(arrivals), n + 1))
  {
    FirstIsPending(s.rows);
    ProcessShrinks(s, w, arrivals, n);
  }

  /** The first row is finished, its request and all other rows are as before, the new
      rows stand behind them, and the log has grown by the one event of an imported row. */
  lemma FirstRowDone(s: Store, w: World, arrivals: Arrivals, n: nat)
    requires PendingIds(s.rows) != []
    ensures var id, u := PendingIds(s.rows)[0], AfterFirst(s, w, arrivals, n);
            && id < |s.rows| <= |u.rows| && u.rows[id].status != Pending && SameRequest(s.rows[id], u.rows[id])
            && (forall i :: 0 <= i < |s.rows| && i != id ==> u.rows[i] == s.rows[i])
            && (forall i :: |s.rows| <= i < |u.rows| ==> u.rows[i].status == Pending)
            && s.log <= u.log
            && |u.log| == |s.log| + if Process(s, id, w, w.clock(n)).1 == Rejected then 0 else 1
  {
    FirstIsPending(s.rows);
  }

  /** A run leaves nothing pending, keeps every request and every row that was finished
      before, and appends one rating event for each row it imports and nothing else. */
  lemma {:induction false} DrainFinishesEveryRow(s: Store, w: World, arrivals: Arrivals, n: nat)
    ensures var r := Drain(s, w, arrivals, n);
            && |s.rows| <= |r.store.rows|
            && PendingIds(r.store.rows) == []
            && (forall i :: 0 <= i < |s.rows| ==> SameRequest(s.rows[i], r.store.rows[i]))
            && (forall i :: 0 <= i < |s.rows| && s.rows[i].status != Pending ==> r.store.rows[i] == s.rows[i])
            && |r.done| == r.created + r.existing + r.failed
            && s.log <= r.store.log && |r.store.log| == |s.log| + r.created + r.existing
    decreases Work(s, arrivals)
  {
    if PendingIds(s.rows) != [] {
      DrainUnfolds(s, w, arrivals, n);
      FirstRowDone(s, w, arrivals, n);
      DrainFinishesEveryRow(AfterFirst(s, w, arrivals, n), w, Later(arrivals), n + 1);
    }
  }

  /** It finishes each pending row, also those queued while it runs, and no other row. */
  lemma {:induction false} DrainFinishesThePending(s: Store, w: World, arrivals: Arrivals, n: nat)
    ensures var r := Drain(s, w, arrivals, n);
            && |s.rows| <= |r.store.rows|
            && (forall i: nat :: i in r.done <==> i < |r.store.rows| && (i < |s.rows| ==> s.rows[i].status == Pending))
    decreases Work(s, arrivals)
  {
    DrainFinishesEveryRow(s, w, arrivals, n);
    if PendingIds(s.rows) == [] {
      PendingAreListed(s.rows, 0);
      assert forall i: nat :: i !in PendingIds(s.rows);
    } else {
      var id, u := PendingIds(s.rows)[0], AfterFirst(s, w, arrivals, n);
      DrainUnfolds(s, w, arrivals, n);
      FirstRowDone(s, w, arrivals, n);
      DrainFinishesThePending(u, w, Later(arrivals), n + 1);
      PendingStep(s.rows, u.rows, id, Drain(u, w, Later(arrivals), n + 1), Drain(s, w, arrivals, n));
    }
  }

  lemma PendingStep(rows: seq<Row>, next: seq<Row>, id: nat, rest: Report, r: Report)
    requires id < |rows| <= |next| <= |rest.store.rows| && rows[id].status == Pending && next[id].status != Pending
    requires forall i :: 0 <= i < |rows| && i != id ==> next[i] == rows[i]
    requires forall i :: |rows| <= i < |next| ==> next[i].status == Pending
    requires r.store == rest.store && r.done == [id] + rest.done
    requires forall i: nat :: i in rest.done <==>
               i < |rest.store.rows| && (i < |next| ==> next[i].status == Pending)
    ensures forall i: nat :: i in r.done <==> i < |r.store.rows| && (i < |rows| ==> rows[i].status == Pending)
  {
    forall i: nat
      ensures i in r.done <==> i < |r.store.rows| && (i < |rows| ==> rows[i].status == Pending)
    {
      assert i in r.done <==> i == id || i in rest.done;
    }
  }

  /** It goes in increasing id order, so it finishes none twice. */
  lemma {:induction false} DrainGoesInOrder(s: Store, w: World, arrivals: Arrivals, n: nat)
    ensures var done := Drain(s, w, arrivals, n).done;
            forall x, y :: 0 <= x < y < |done| ==> done[x] < done[y]
    decreases Work(s, arrivals)
  {
    if PendingIds(s.rows) != [] {
      DrainUnfolds(s, w, arrivals, n);
      FirstRowDone(s, w, arrivals, n);
      var id, u := PendingIds(s.rows)[0], AfterFirst(s, w, arrivals, n);
      DrainGoesInOrder(u, w, Later(arrivals), n + 1);
      DrainFinishesThePending(u, w, Later(arrivals), n + 1);
      NothingBeforeFirst(s.rows);
      OrderedCons(id, Drain(u, w, Later(arrivals), n + 1).done);
    }
  }

  lemma NothingBeforeFirst(rows: seq<Row>)
    requires PendingIds(rows) != []
    ensures forall i: nat :: i < |rows| && i < PendingIds(rows)[0] ==> rows[i].status != Pending
  {
    PendingAreListed(rows, 0);
    var ids := PendingIds(rows);
    assert forall x :: 0 <= x < |ids| ==> ids[0] <= ids[x];
  }

  lemma OrderedCons(id: nat, ids: seq<nat>)
    requires forall i: nat :: i in ids ==> id < i
    requires forall x, y :: 0 <= x < y < |ids| ==> ids[x] < ids[y]
    ensures forall x, y :: 0 <= x < y < |[id] + ids| ==> ([id] + ids)[x] < ([id] + ids)[y]
  {
    var all := [id] + ids;
    forall x, y | 0 <= x < y < |all| ensures all[x] < all[y] {
      assert all[y] == ids[y - 1] && ids[y - 1] in ids;
    }
  }

  // -------------------------------------------------------------------------
  // Which rows are imported, and as what
  // -------------------------------------------------------------------------

  /** The row can be imported: its URL has a canonical form that is known or can be read,
      and its label is a verdict. */
  predicate Importable(row: Row, known: set<string>, w: World) {
    && w.canonical(row.url).Some?
    && (w.canonical(row.url).value in known || w.readable(w.canonical(row.url).value))
    && row.verdict in ["loved", "good", "not_for_me", "slop"]
  }

  /** The row is imported exactly if it can be: as the article of its URL, or as a new one
      if the URL was unknown, and with one explicit event of its verdict. Otherwise it
      fails, and the log is as it was. */
  lemma RowIsImported(s: Store, id: nat, w: World, now: int)
    requires id < |s.rows|
    ensures var row, (t, outcome) := s.rows[id], Process(s, id, w, now);
            if Importable(row, s.articles.Keys, w) then
              var url := w.canonical(row.url).value;
              var article := if url in s.articles then s.articles[url] else s.nextArticle;
              && t.rows[id].status == Imported(article) && url in t.articles && t.articles[url] == article
              && t.log == s.log + [Event(article, true, row.verdict, now)]
              && outcome == if url in s.articles then Existing else Created
            else t.rows[id].status == Failed && t.log == s.log && outcome == Rejected
  {
  }

  /** Articles are only added, and only for pages that can be read. */
  ghost predicate Learned(before: map<string, nat>, after: map<string, nat>, w: World) {
    && (forall url :: url in before ==> url in after && after[url] == before[url])
    && (forall url :: url in after && url !in before ==> w.readable(url))
  }

  lemma ProcessLearns(s: Store, id: nat, w: World, now: int)
    requires id < |s.rows|
    ensures var row, t := s.rows[id], Process(s, id, w, now).0;
            && Learned(s.articles, t.articles, w)
            && t.articles.Keys == Known(s.articles.Keys, row, w)
  {
  }

  /** The URLs that are known once a row has been processed, imported or not. */
  function Known(known: set<string>, row: Row, w: World): set<string> {
    match w.canonical(row.url)
    case Some(url) => if w.readable(url) then known + {url} else known
    case None => known
  }

  lemma StillImportable(row: Row, s: map<string, nat>, t: map<string, nat>, w: World)
    requires Learned(s, t, w)
    ensures Importable(row, s.Keys, w) <==> Importable(row, t.Keys, w)
  {
    if w.canonical(row.url).Some? {
      var url := w.canonical(row.url).value;
      assert url in t && url !in s ==> w.readable(url);
    }
  }

  /** The events of the rows that were imported, in the order of the run. */
  function EventsOf(ids: seq<nat>, rows: seq<Row>, w: World, n: nat): seq<Event> {
    if ids == [] then []
    else
      var rest := EventsOf(ids[1..], rows, w, n + 1);
      if ids[0] < |rows| && rows[ids[0]].status.Imported? then
        [Event(rows[ids[0]].status.article, true, rows[ids[0]].verdict, w.clock(n))] + rest
      else rest
  }

  /** How many of the rows were imported with a URL that was new then. */
  function Firsts(ids: seq<nat>, rows: seq<Row>, known: set<string>, w: World): nat {
    if ids == [] then 0
    else if ids[0] >= |rows| then Firsts(ids[1..], rows, known, w)
    else
      var row := rows[ids[0]];
      (if row.status.Imported? && w.canonical(row.url).Some? && w.canonical(row.url).value !in known then 1 else 0)
      + Firsts(ids[1..], rows, Known(known, row, w), w)
  }

  /** A row of the run ends up as the article of its URL if it could be imported when the
      run began, and fails if not: what happens to it does not depend on the other rows. */
  predicate Settled(r: Report, id: nat, known: set<string>, w: World) {
    && id < |r.store.rows|
    && var row := r.store.rows[id];
       if Importable(row, known, w) then
         && w.canonical(row.url).value in r.store.articles
         && row.status == Imported(r.store.articles[w.canonical(row.url).value])
       else row.status == Failed
  }

  lemma {:induction false} DrainLearns(s: Store, w: World, arrivals: Arrivals, n: nat)
    ensures Learned(s.articles, Drain(s, w, arrivals, n).store.articles, w)
    decreases Work(s, arrivals)
  {
    if PendingIds(s.rows) != [] {
      DrainUnfolds(s, w, arrivals, n);
      ProcessLearns(s, PendingIds(s.rows)[0], w, w.clock(n));
      DrainLearns(AfterFirst(s, w, arrivals, n), w, Later(arrivals), n + 1);
    }
  }

  /** Which rows a run imports, as which articles, and what it leaves in the log: one event
      for each row it imports, in their order, with the article, the verdict and the time. */
  lemma {:induction false} DrainImportsWhatItCan(s: Store, w: World, arrivals: Arrivals, n: nat)
    ensures var r := Drain(s, w, arrivals, n);
            && (forall id :: id in r.done ==> Settled(r, id, s.articles.Keys, w))
            && r.store.log == s.log + EventsOf(r.done, r.store.rows, w, n)
            && r.created == Firsts(r.done, r.store.rows, s.articles.Keys, w)
    decreases Work(s, arrivals)
  {
    var r := Drain(s, w, arrivals, n);
    if PendingIds(s.rows) == [] {
      assert s.log + [] == s.log;
    } else {
      var id, u := PendingIds(s.rows)[0], AfterFirst(s, w, arrivals, n);
      var rest := Drain(u, w, Later(arrivals), n + 1);
      DrainUnfolds(s, w, arrivals, n);
      FirstRowDone(s, w, arrivals, n);
      DrainFinishesEveryRow(u, w, Later(arrivals), n + 1);
      DrainImportsWhatItCan(u, w, Later(arrivals), n + 1);
      ProcessLearns(s, id, w, w.clock(n));
      DrainLearns(u, w, Later(arrivals), n + 1);
      FirstIsSettled(s, w, n, id, r, u);
      forall i | i in rest.done ensures Settled(r, i, s.articles.Keys, w) {
        StillImportable(r.store.rows[i], s.articles, u.articles, w);
      }
      DrainLogs(s, w, n, id, r, u, rest);
    }
  }

  lemma FirstIsSettled(s: Store, w: World, n: nat, id: nat, r: Report, u: Store)
    requires id < |s.rows| <= |u.rows| && id < |r.store.rows| && r.store.rows[id] == u.rows[id]
    requires u.rows[id] == Process(s, id, w, w.clock(n)).0.rows[id]
    requires u.articles == Process(s, id, w, w.clock(n)).0.articles && Learned(u.articles, r.store.articles, w)
    ensures Settled(r, id, s.articles.Keys, w)
  {
    RowIsImported(s, id, w, w.clock(n));
  }

  lemma DrainLogs(s: Store, w: World, n: nat, id: nat, r: Report, u: Store, rest: Report)
    requires id < |s.rows| && r == Counted(id, Process(s, id, w, w.clock(n)).1, rest)
    requires id < |u.rows| && u.rows[id] == Process(s, id, w, w.clock(n)).0.rows[id]
    requires u.log == Process(s, id, w, w.clock(n)).0.log
    requires u.articles == Process(s, id, w, w.clock(n)).0.articles
    requires id < |r.store.rows| && r.store.rows[id] == u.rows[id]
    requires rest.store.log == u.log + EventsOf(rest.done, rest.store.rows, w, n + 1)
    requires rest.created == Firsts(rest.done, rest.store.rows, u.articles.Keys, w)
    ensures r.store.log == s.log + EventsOf(r.done, r.store.rows, w, n)
    ensures r.created == Firsts(r.done, r.store.rows, s.articles.Keys, w)
  {
    RowIsImported(s, id, w, w.clock(n));
    ProcessLearns(s, id, w, w.clock(n));
    assert r.done[0] == id && r.done[1..] == rest.done;
  }

  /** The last row of `ids` that was imported as this article. */
  function LastImport(rows: seq<Row>, ids: seq<nat>, article: nat): (r: Option<nat>)
    ensures r.Some? ==> r.value in ids && r.value < |rows| && rows[r.value].status == Imported(article)
  {
    if ids == [] then None
    else
      var later := LastImport(rows, ids[1..], article);
      if later.Some? then later
      else if ids[0] < |rows| && rows[ids[0]].status == Imported(article) then Some(ids[0])
      else None
  }

  /** Of every article the run touched, the last event is that of its highest row; of any
      other article neither the last event nor the verdict has changed. */
  lemma {:induction false} LastRowIsLast(s: Store, w: World, arrivals: Arrivals, n: nat, article: nat)
    ensures var r := Drain(s, w, arrivals, n);
            var last := LastEvent(r.store.log, article);
            match LastImport(r.store.rows, r.done, article)
            case Some(id) =>
              last.Some? && last.value >= |s.log|
              && r.store.log[last.value].verdict == r.store.rows[id].verdict
            case None => last == LastEvent(s.log, article) && Latest(r.store.log, article) == Latest(s.log, article)
    decreases Work(s, arrivals)
  {
    if PendingIds(s.rows) != [] {
      var id, u := PendingIds(s.rows)[0], AfterFirst(s, w, arrivals, n);
      FirstStays(s, w, arrivals, n);
      ProcessVerdict(s, id, w, w.clock(n), article);
      LastRowIsLast(u, w, Later(arrivals), n + 1, article);
      LastImportStep(Drain(s, w, arrivals, n), Drain(u, w, Later(arrivals), n + 1), id, article);
    }
  }

  /** The first row is as it was left, and the run goes on with the rest. */
  lemma FirstStays(s: Store, w: World, arrivals: Arrivals, n: nat)
    requires PendingIds(s.rows) != []
    ensures var id, u := PendingIds(s.rows)[0], AfterFirst(s, w, arrivals, n);
            var r, rest := Drain(s, w, arrivals, n), Drain(u, w, Later(arrivals), n + 1);
            && id < |s.rows| && id < |u.rows| && id < |r.store.rows|
            && u.rows[id] == Process(s, id, w, w.clock(n)).0.rows[id] && u.log == Process(s, id, w, w.clock(n)).0.log
            && r.store == rest.store && r.done == [id] + rest.done
            && r.store.rows[id] == u.rows[id] && SameRequest(s.rows[id], u.rows[id]) && s.log <= u.log <= r.store.log
  {
    DrainUnfolds(s, w, arrivals, n);
    FirstRowDone(s, w, arrivals, n);
    DrainFinishesEveryRow(AfterFirst(s, w, arrivals, n), w, Later(arrivals), n + 1);
  }

  lemma LastImportStep(r: Report, rest: Report, id: nat, article: nat)
    requires r.store == rest.store && r.done == [id] + rest.done && id < |r.store.rows|
    ensures LastImport(r.store.rows, r.done, article)
         == if LastImport(r.store.rows, rest.done, article).Some? then LastImport(r.store.rows, rest.done, article)
            else if r.store.rows[id].status == Imported(article) then Some(id) else None
  {
    assert r.done[1..] == rest.done;
  }

  lemma ProcessVerdict(s: Store, id: nat, w: World, now: int, article: nat)
    requires id < |s.rows|
    ensures var t := Process(s, id, w, now).0;
            && s.log <= t.log
            && if t.rows[id].status == Imported(article)
               then |t.log| == |s.log| + 1 && LastEvent(t.log, article) == Some(|s.log|)
                     && t.log[|s.log|].verdict == s.rows[id].verdict
               else LastEvent(t.log, article) == LastEvent(s.log, article)
                     && Latest(t.log, article) == Latest(s.log, article)
  {
    var t := Process(s, id, w, now).0;
    if t.log != s.log {
      AppendedIsLatest(s.log, t.log[|s.log|], article);
      assert t.log == s.log + [t.log[|s.log|]];
    }
  }

  /** So the verdict on an article the run touched is the event of its highest row,
      exactly if no event of that article carries a later time. */
  lemma LastRowDecides(s: Store, w: World, arrivals: Arrivals, n: nat, article: nat)
    ensures var r := Drain(s, w, arrivals, n);
            match LastImport(r.store.rows, r.done, article)
            case Some(id) =>
              var last := LastEvent(r.store.log, article);
              && last.Some? && last.value >= |s.log| && r.store.log[last.value].verdict == r.store.rows[id].verdict
              && (Latest(r.store.log, article) == last <==>
                    forall i: nat :: Explicit(r.store.log, i, article) ==>
                      r.store.log[i].at <= r.store.log[last.value].at)
            case None => Latest(r.store.log, article) == Latest(s.log, article)
  {
    LastRowIsLast(s, w, arrivals, n, article);
    WhenLatestIsLast(Drain(s, w, arrivals, n).store.log, article);
  }

  ghost predicate ClockRuns(w: World) { forall m: nat, n: nat :: m <= n ==> w.clock(m) <= w.clock(n) }

  /** No event of a log is later than one at or behind position `from`. */
  predicate Rising(log: Log, from: nat) { forall i, j :: 0 <= i <= j < |log| && from <= j ==> log[i].at <= log[j].at }

  /** A clock that does not run backwards dates the events of a run in their order. */
  lemma {:induction false} SteadyClockRises(s: Store, w: World, arrivals: Arrivals, n: nat)
    requires ClockRuns(w) && UpTo(s.log, w.clock(n))
    ensures Rising(Drain(s, w, arrivals, n).store.log, |s.log|)
    decreases Work(s, arrivals)
  {
    if PendingIds(s.rows) != [] {
      var u := AfterFirst(s, w, arrivals, n);
      DrainGoesOn(s, w, arrivals, n);
      StillUpTo(s, w, n, u);
      SteadyClockRises(u, w, Later(arrivals), n + 1);
      RisesFromBefore(s.log, u.log, Drain(s, w, arrivals, n).store.log);
    }
  }

  lemma DrainGoesOn(s: Store, w: World, arrivals: Arrivals, n: nat)
    requires PendingIds(s.rows) != []
    ensures PendingIds(s.rows)[0] < |s.rows|
    ensures var u := AfterFirst(s, w, arrivals, n);
            && u.log == Process(s, PendingIds(s.rows)[0], w, w.clock(n)).0.log
            && Drain(s, w, arrivals, n).store == Drain(u, w, Later(arrivals), n + 1).store
            && u.log <= Drain(s, w, arrivals, n).store.log
  {
    DrainUnfolds(s, w, arrivals, n);
    DrainFinishesEveryRow(AfterFirst(s, w, arrivals, n), w, Later(arrivals), n + 1);
  }

  /** The first event of a run is no earlier than what was in the log. */
  lemma StillUpTo(s: Store, w: World, n: nat, u: Store)
    requires ClockRuns(w) && UpTo(s.log, w.clock(n)) && PendingIds(s.rows) != []
    requires PendingIds(s.rows)[0] < |s.rows| && u.log == Process(s, PendingIds(s.rows)[0], w, w.clock(n)).0.log
    ensures UpTo(u.log, w.clock(n + 1)) && s.log <= u.log && |u.log| <= |s.log| + 1
    ensures |u.log| > |s.log| ==> forall i :: 0 <= i < |s.log| ==> s.log[i].at <= u.log[|s.log|].at
  {
    RowIsImported(s, PendingIds(s.rows)[0], w, w.clock(n));
    assert w.clock(n) <= w.clock(n + 1);
  }

  lemma RisesFromBefore(a: Log, b: Log, c: Log)
    requires a <= b <= c && |b| <= |a| + 1 && Rising(c, |b|)
    requires |b| > |a| ==> forall i :: 0 <= i < |a| ==> a[i].at <= b[|a|].at
    ensures Rising(c, |a|)
  {
    forall i, j | 0 <= i <= j < |c| && |a| <= j ensures c[i].at <= c[j].at {
      if j < |b| {
        assert c[i] == b[i] && c[j] == b[j] && (i < |a| ==> b[i] == a[i]);
      }
    }
  }

  /** By such a clock the verdict on every article the run touched is that of its highest row. */
  lemma LastRowDecidesBySteadyClock(s: Store, w: World, arrivals: Arrivals, n: nat, article: nat)
    requires ClockRuns(w) && UpTo(s.log, w.clock(n))
    ensures var r := Drain(s, w, arrivals, n);
            var id := LastImport(r.store.rows, r.done, article);
            id.Some? ==>
              && Latest(r.store.log, article).Some?
              && r.store.log[Latest(r.store.log, article).value].verdict == r.store.rows[id.value].verdict
  {
    var log := Drain(s, w, arrivals, n).store.log;
    LastRowDecides(s, w, arrivals, n, article);
    SteadyClockRises(s, w, arrivals, n);
    forall i: nat | Explicit(log, i, article)
      ensures LastEvent(log, article).Some? && i <= LastEvent(log, article).value {
      LastEventIsLast(log, article, i);
    }
  }

  // -------------------------------------------------------------------------
  // The run as written: batches of twenty
  // -------------------------------------------------------------------------

  /** `pending`: the lowest ids, at most a batch. */
  function Batch(rows: seq<Row>): seq<nat> {
    var ids := PendingIds(rows);
    if |ids| <= BATCH_SIZE then ids else ids[..BATCH_SIZE]
  }

  /** The rows finished so far and the counters; `all` is the report this leads to. */
  datatype Tally = Tally(done: seq<nat>, created: nat, existing: nat, failed: nat) {
    function Plus(id: nat, outcome: Outcome): Tally {
      Tally(done + [id],
            if outcome == Created then created + 1 else created,
            if outcome == Existing then existing + 1 else existing,
            if outcome == Rejected then failed + 1 else failed)
    }
    function Then(r: Report): Report {
      Report(r.store, done + r.done, created + r.created, existing + r.existing, failed + r.failed)
    }
  }

  lemma TallyStep(t: Tally, id: nat, outcome: Outcome, r: Report)
    ensures t.Then(Counted(id, outcome, r)) == t.Plus(id, outcome).Then(r)
  {
  }

  ghost predicate OnTrack(t: Tally, s: Store, w: World, coming: Arrivals, all: Report) {
    t.Then(Drain(s, w, coming, |t.done|)) == all
  }

  /** One row of a batch is one step of the simple form. */
  lemma OnTrackStep(t: Tally, s: Store, w: World, coming: Arrivals, all: Report)
    requires PendingIds(s.rows) != [] && PendingIds(s.rows)[0] < |s.rows| && OnTrack(t, s, w, coming, all)
    ensures var id := PendingIds(s.rows)[0];
            var (after, outcome) := Process(s, id, w, w.clock(|t.done|));
            OnTrack(t.Plus(id, outcome), Queued(after, Arriving(coming)), w, Later(coming), all)
  {
    var id := PendingIds(s.rows)[0];
    var step := Process(s, id, w, w.clock(|t.done|));
    TallyStep(t, id, step.1, Drain(Queued(step.0, Arriving(coming)), w, Later(coming), |t.done| + 1));
  }

  class Importer {
    var store: Store

    constructor (s: Store)
      ensures store == s
    {
      store := s;
    }

    /** `run_with`. New rows may be queued after every row it finishes; a batch read
        before that still holds the lowest pending ids, so the order is not disturbed. */
    method Run(w: World, arrivals: Arrivals) returns (imported: nat, tally: Tally)
      modifies this
      ensures Report(store, tally.done, tally.created, tally.existing, tally.failed)
           == Drain(old(store), w, arrivals, 0)
      ensures imported == tally.created + tally.existing
    {
      imported, tally := 0, Tally([], 0, 0, 0);
      var coming := arrivals;
      ghost var all := Drain(store, w, arrivals, 0);
      assert [] + all.done == all.done;
      while true
        invariant imported == tally.created + tally.existing
        invariant OnTrack(tally, store, w, coming, all)
        decreases Work(store, coming)
      {
        var batch := Batch(store.rows);
        if batch == [] {
          assert tally.done + [] == tally.done;
          return;
        }
        imported, tally, coming := RunBatch(w, batch, coming, imported, tally, all);
      }
    }

    /** The inner loop: the rows of one batch. */
    method RunBatch(w: World, batch: seq<nat>, arrivals: Arrivals, before: nat, start: Tally, ghost all: Report)
      returns (imported: nat, tally: Tally, coming: Arrivals)
      requires batch != [] && batch <= PendingIds(store.rows)
      requires OnTrack(start, store, w, arrivals, all) && before == start.created + start.existing
      modifies this
      ensures OnTrack(tally, store, w, coming, all) && imported == tally.created + tally.existing
      ensures Work(store, coming) < Work(old(store), arrivals)
    {
      imported, tally, coming := before, start, arrivals;
      var i := 0;
      assert batch[0..] == batch;
      while i < |batch|
        invariant 0 <= i <= |batch|
        invariant imported == tally.created + tally.existing
        invariant batch[i..] <= PendingIds(store.rows)
        invariant OnTrack(tally, store, w, coming, all)
        invariant Work(store, coming) <= Work(old(store), arrivals) - i
      {
        assert batch[i..][0] == batch[i] && batch[i..][1..] == batch[i + 1..];
        var outcome := FinishRow(w, batch[i], w.clock(|tally.done|), coming, batch[i..], tally, all);
        if outcome != Rejected {
          imported := imported + 1;
        }
        tally := tally.Plus(batch[i], outcome);
        coming := Later(coming);
        i := i + 1;
      }
    }

    /** `process` and `finish` for one row of the batch, and the rows queued meanwhile. */
    method FinishRow(w: World, id: nat, now: int, coming: Arrivals, ghost ahead: seq<nat>,
                     ghost tally: Tally, ghost all: Report)
      returns (outcome: Outcome)
      requires ahead != [] && ahead[0] == id && ahead <= PendingIds(store.rows)
      requires now == w.clock(|tally.done|) && OnTrack(tally, store, w, coming, all)
      modifies this
      ensures ahead[1..] <= PendingIds(store.rows)
      ensures Work(store, Later(coming)) < Work(old(store), coming)
      ensures OnTrack(tally.Plus(id, outcome), store, w, Later(coming), all)
    {
      PendingAfter(store, w, now, Arriving(coming));
      ProcessShrinks(store, w, coming, |tally.done|);
      OnTrackStep(tally, store, w, coming, all);
      var step := Process(store, id, w, now);
      outcome := step.1;
      store := Queued(step.0, Arriving(coming));
    }
  }
}
