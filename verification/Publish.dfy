/** `src/publish.rs`: the retention sweeps over the publish directories, and the scan behind the OPDS feed. */
module Publish {
  import opened Text
  import opened Sorting
  import opened Dates
  import opened PublishNames

  /** A directory entry; only a regular file is ever listed or removed. */
  datatype Entry = Entry(name: string, regular: bool, modified: int)

  /** The outside world: the date parser, and the files that cannot be removed. */
  datatype World = World(read: Reader, stuck: string -> bool) {
    function Date(e: Entry): Option<Date> { DateOf(e.name, read) }

    predicate Foreign(e: Entry) { Date(e).None? }
    predicate Stuck(e: Entry) { stuck(e.name) }

    /** Of an issue, and older than the cutoff. */
    predicate Expired(e: Entry, cutoff: Dates.Date) {
      Date(e).Some? && Date(e).value.Before(cutoff) && e.regular
    }

    predicate Xtc(e: Entry) {
      Date(e).Some? && e.regular && Extension(e.name).Some? && IsXtcExtension(Extension(e.name).value)
    }

    predicate NotXtc(e: Entry) { !Xtc(e) }

    predicate Epub(e: Entry) { Date(e).Some? && e.regular && Extension(e.name) == Some("epub") }

    /** Newer issues first, and by path within an issue. Foreign files come last. */
    predicate NewestFirst(a: Entry, b: Entry) {
      if Date(a) == Date(b) then a.name == b.name || StringBefore(a.name, b.name)
      else Later(Date(a), Date(b))
    }

    /** The order of the feed: newer issues first, then the standard edition, then the
        file that was written last, then by name. */
    predicate FeedOrder(a: Entry, b: Entry) {
      if Date(a) != Date(b) then Later(Date(a), Date(b))
      else if EditionOf(a.name) != EditionOf(b.name) then EditionOf(a.name) == Standard
      else if a.modified != b.modified then a.modified > b.modified
      else a.name == b.name || StringBefore(a.name, b.name)
    }
  }

  predicate Later(a: Option<Date>, b: Option<Date>) {
    a.Some? && (b.None? || b.value.Before(a.value))
  }

  lemma LaterIsStrictOrder(a: Option<Date>, b: Option<Date>, c: Option<Date>)
    ensures !Later(a, a)
    ensures Later(a, b) && Later(b, c) ==> Later(a, c)
    ensures Later(a, b) || Later(b, a) || a == b
  {
  }

  lemma NewestFirstRanks(w: World)
    ensures Ranking(w.NewestFirst)
  {
    forall a, b, c
      ensures w.NewestFirst(a, b) || w.NewestFirst(b, a)
      ensures w.NewestFirst(a, b) && w.NewestFirst(b, c) ==> w.NewestFirst(a, c)
    {
      LaterIsStrictOrder(w.Date(a), w.Date(b), w.Date(c));
      BeforeIsStrictOrder(a.name, b.name, c.name);
    }
  }

  lemma FeedOrderRanks(w: World)
    ensures Ranking(w.FeedOrder)
  {
    forall a, b, c
      ensures w.FeedOrder(a, b) || w.FeedOrder(b, a)
      ensures w.FeedOrder(a, b) && w.FeedOrder(b, c) ==> w.FeedOrder(a, c)
    {
      LaterIsStrictOrder(w.Date(a), w.Date(b), w.Date(c));
      BeforeIsStrictOrder(a.name, b.name, c.name);
    }
  }

  // -------------------------------------------------------------------------
  // The sweeps
  // -------------------------------------------------------------------------

  ghost predicate DistinctNames(entries: seq<Entry>) {
    forall i, j :: 0 <= i < j < |entries| ==> entries[i].name != entries[j].name
  }

  type Test = Entry -> bool

  function ExpiredBy(cutoff: Date, w: World): Test { (e: Entry) => w.Expired(e, cutoff) }

  /** What a sweep leaves behind: what it did not mean to remove, and what it could not. */
  function Outside(doomed: seq<Entry>, stuck: Test): Test { (e: Entry) => e !in doomed || stuck(e) }

  function Swept(entries: seq<Entry>, doomed: seq<Entry>, stuck: Test): seq<Entry>
  {
    Filter(entries, Outside(doomed, stuck))
  }

  function Expired(entries: seq<Entry>, cutoff: Date, w: World): seq<Entry> { Filter(entries, ExpiredBy(cutoff, w)) }

  /** The entries that pass a test, in order. */
  function Ranked(entries: seq<Entry>, mine: Test, le: (Entry, Entry) -> bool): seq<Entry>
  {
    Sort(Filter(entries, mine), le)
  }

  /** Those of them behind the first `keep`. */
  function Surplus(entries: seq<Entry>, keep: nat, mine: Test, le: (Entry, Entry) -> bool): seq<Entry> {
    Behind(Ranked(entries, mine, le), keep)
  }

  function Behind(es: seq<Entry>, keep: nat): seq<Entry> { if |es| <= keep then [] else es[keep..] }

  function NotNamed(e: Entry): Test { (x: Entry) => x.name != e.name }

  lemma {:induction false} NamesStayDistinct(entries: seq<Entry>, p: Test)
    requires DistinctNames(entries)
    ensures DistinctNames(Filter(entries, p))
  {
    if entries != [] {
      NamesStayDistinct(entries[1..], p);
      forall x | x in Filter(entries[1..], p) ensures x.name != entries[0].name {
        FilterMembers(entries[1..], p, x);
      }
    }
  }

  lemma {:induction false} OneFewer(entries: seq<Entry>, e: Entry)
    requires DistinctNames(entries) && e in entries
    ensures |Filter(entries, NotNamed(e))| == |entries| - 1
  {
    if entries[0] == e {
      FilterAll(entries[1..], NotNamed(e));
    } else {
      assert entries == [entries[0]] + entries[1..];
      OneFewer(entries[1..], e);
    }
  }

  lemma RemoveStep(listing: seq<Entry>, doomed: seq<Entry>, e: Entry, stuck: Test)
    requires DistinctNames(listing) && e in listing && e !in doomed
    ensures Swept(listing, doomed + [e], stuck)
         == if stuck(e) then Swept(listing, doomed, stuck) else Filter(Swept(listing, doomed, stuck), NotNamed(e))
    ensures !stuck(e) ==> |Swept(listing, doomed + [e], stuck)| == |Swept(listing, doomed, stuck)| - 1
  {
    var before, after := Outside(doomed, stuck), Outside(doomed + [e], stuck);
    if stuck(e) {
      FilterAgree(listing, before, after);
    } else {
      FilterTwice(listing, before, NotNamed(e));
      FilterAgree(listing, Both(before, NotNamed(e)), after);
      FilterMembers(listing, before, e);
      NamesStayDistinct(listing, before);
      OneFewer(Swept(listing, doomed, stuck), e);
    }
  }

  /** A publish directory. */
  class Directory {
    var entries: seq<Entry>

    ghost predicate Valid()
      reads this
    {
      DistinctNames(entries)
    }

    constructor (listing: seq<Entry>)
      requires DistinctNames(listing)
      ensures Valid() && entries == listing
    {
      entries := listing;
    }

    /** `remove_file`, of a file of the listing, after `doomed`. */
    method Remove(e: Entry, w: World, ghost listing: seq<Entry>, ghost doomed: seq<Entry>) returns (ok: bool)
      requires DistinctNames(listing) && e in listing && e !in doomed && entries == Swept(listing, doomed, w.Stuck)
      modifies this
      ensures entries == Swept(listing, doomed + [e], w.Stuck)
      ensures ok == !w.Stuck(e) && |entries| == |old(entries)| - if ok then 1 else 0
      ensures Valid()
    {
      RemoveStep(listing, doomed, e, w.Stuck);
      NamesStayDistinct(listing, Outside(doomed + [e], w.Stuck));
      ok := !w.Stuck(e);
      if ok {
        entries := Filter(entries, NotNamed(e));
      }
    }

    /** `prune_dir`. */
    method Prune(cutoff: Date, w: World) returns (removed: nat)
      requires Valid()
      modifies this
      ensures Valid() && entries == Swept(old(entries), Expired(old(entries), cutoff, w), w.Stuck)
      ensures removed == |old(entries)| - |entries|
    {
      var listing := entries;
      removed := 0;
      ghost var doomed: seq<Entry> := [];
      FilterAll(listing, Outside([], w.Stuck));
      for i := 0 to |listing|
        invariant Valid() && doomed == Expired(listing[..i], cutoff, w)
        invariant entries == Swept(listing, doomed, w.Stuck) && removed == |listing| - |entries|
      {
        ExpiredSoFar(listing, i, cutoff, w);
        if w.Expired(listing[i], cutoff) {
          var ok := Remove(listing[i], w, listing, doomed);
          doomed := doomed + [listing[i]];
          if ok {
            removed := removed + 1;
          }
        }
      }
      assert listing[..|listing|] == listing;
    }

    /** `prune_xtc_dir`. */
    method PruneXtc(keep: nat, w: World) returns (removed: nat)
      requires Valid()
      modifies this
      ensures Valid() && entries == Swept(old(entries), Surplus(old(entries), keep, w.Xtc, w.NewestFirst), w.Stuck)
      ensures removed == |old(entries)| - |entries|
    {
      var ours := ListXtc(w);
      ours := Sort(ours, w.NewestFirst);
      NewestFirstRanks(w);
      SurplusIsListed(entries, keep, w.Xtc, w.NewestFirst);
      removed := RemoveAll(Behind(ours, keep), w);
    }

    method ListXtc(w: World) returns (ours: seq<Entry>)
      ensures ours == Filter(entries, w.Xtc)
    {
      ours := [];
      for i := 0 to |entries|
        invariant ours == Filter(entries[..i], w.Xtc)
      {
        assert entries[..i + 1] == entries[..i] + [entries[i]];
        FilterConcat(entries[..i], [entries[i]], w.Xtc);
        if w.Xtc(entries[i]) {
          ours := ours + [entries[i]];
        }
      }
      assert entries[..|entries|] == entries;
    }

    method RemoveAll(surplus: seq<Entry>, w: World) returns (removed: nat)
      requires Valid() && Distinct(surplus) && forall e :: e in surplus ==> e in entries
      modifies this
      ensures Valid() && entries == Swept(old(entries), surplus, w.Stuck)
      ensures removed == |old(entries)| - |entries|
    {
      ghost var listing := entries;
      removed := 0;
      FilterAll(listing, Outside([], w.Stuck));
      for i := 0 to |surplus|
        invariant Valid() && entries == Swept(listing, surplus[..i], w.Stuck) && removed == |listing| - |entries|
      {
        assert surplus[..i + 1] == surplus[..i] + [surplus[i]];
        var ok := Remove(surplus[i], w, listing, surplus[..i]);
        if ok {
          removed := removed + 1;
        }
      }
      assert surplus[..|surplus|] == surplus;
    }
  }

  lemma ExpiredSoFar(listing: seq<Entry>, i: nat, cutoff: Date, w: World)
    requires DistinctNames(listing) && i < |listing|
    ensures listing[i] !in Expired(listing[..i], cutoff, w)
    ensures Expired(listing[..i + 1], cutoff, w)
         == Expired(listing[..i], cutoff, w) + if w.Expired(listing[i], cutoff) then [listing[i]] else []
  {
    assert listing[..i + 1] == listing[..i] + [listing[i]];
    FilterConcat(listing[..i], [listing[i]], ExpiredBy(cutoff, w));
    FilterMembers(listing[..i], ExpiredBy(cutoff, w), listing[i]);
  }

  lemma SurplusIsListed(listing: seq<Entry>, keep: nat, mine: Test, le: (Entry, Entry) -> bool)
    requires Ranking(le) && Distinct(listing)
    ensures Distinct(Ranked(listing, mine, le)) && Distinct(Surplus(listing, keep, mine, le))
    ensures forall e :: e in Ranked(listing, mine, le) <==> e in listing && mine(e)
    ensures forall e :: e in Surplus(listing, keep, mine, le) ==> e in listing && mine(e)
  {
    var ours := Filter(listing, mine);
    FilterKeepsDistinct(listing, mine);
    SortKeepsDistinct(ours, le);
    forall e ensures e in Ranked(listing, mine, le) <==> e in listing && mine(e) {
      SortKeepsMembers(ours, le, e);
      FilterMembers(listing, mine, e);
    }
  }

  // -------------------------------------------------------------------------
  // What a sweep leaves
  // -------------------------------------------------------------------------

  /** A sweep takes nothing but what it is meant to take, and the rest keeps its order. */
  lemma OthersStay(entries: seq<Entry>, doomed: seq<Entry>, stuck: Test, other: Test)
    requires forall e :: e in doomed ==> !other(e)
    ensures Filter(Swept(entries, doomed, stuck), other) == Filter(entries, other)
  {
    FilterTwice(entries, Outside(doomed, stuck), other);
    FilterAgree(entries, Both(Outside(doomed, stuck), other), other);
  }

  /** The sweep by age: foreign files stay, and so does every issue from the cutoff on;
      an older one is gone, if it is a file and could be removed. A second sweep removes
      nothing. */
  lemma AgeSweep(entries: seq<Entry>, cutoff: Date, w: World)
    ensures var after := Swept(entries, Expired(entries, cutoff, w), w.Stuck);
            && Filter(after, w.Foreign) == Filter(entries, w.Foreign)
            && (forall e :: e in after <==>
                  e in entries && !(w.Date(e).Some? && w.Date(e).value.Before(cutoff) && e.regular && !w.stuck(e.name)))
            && Swept(after, Expired(after, cutoff, w), w.Stuck) == after
  {
    var doomed := Expired(entries, cutoff, w);
    var after := Swept(entries, doomed, w.Stuck);
    forall e ensures e in doomed <==> e in entries && w.Expired(e, cutoff) {
      FilterMembers(entries, ExpiredBy(cutoff, w), e);
    }
    OthersStay(entries, doomed, w.Stuck, w.Foreign);
    forall e ensures e in after <==> e in entries && Outside(doomed, w.Stuck)(e) {
      FilterMembers(entries, Outside(doomed, w.Stuck), e);
    }
    forall e ensures Outside(doomed, w.Stuck)(e) <==> !(e in entries && w.Expired(e, cutoff) && !w.stuck(e.name)) {
      assert w.Stuck(e) == w.stuck(e.name);
    }
    forall e | e in after ensures Outside(Expired(after, cutoff, w), w.Stuck)(e) {
      FilterMembers(after, ExpiredBy(cutoff, w), e);
    }
    FilterAll(after, Outside(Expired(after, cutoff, w), w.Stuck));
  }

  /** After a sweep by count: the first `keep`, and behind them, still in order, those
      that could not be removed. */
  lemma AfterSweep(entries: seq<Entry>, keep: nat, mine: Test, le: (Entry, Entry) -> bool, stuck: Test)
    requires Ranking(le) && Distinct(entries)
    ensures var ours := Ranked(entries, mine, le);
            var k := if |ours| <= keep then |ours| else keep;
            Ranked(Swept(entries, Surplus(entries, keep, mine, le), stuck), mine, le)
            == ours[..k] + Filter(Behind(ours, keep), stuck)
  {
    var ours, surplus := Ranked(entries, mine, le), Surplus(entries, keep, mine, le);
    var k := if |ours| <= keep then |ours| else keep;
    var left := Outside(surplus, stuck);
    SurplusIsListed(entries, keep, mine, le);
    FilterTwice(entries, left, mine);
    FilterTwice(entries, mine, left);
    FilterAgree(entries, Both(left, mine), Both(mine, left));
    SortOfFilter(Filter(entries, mine), le, left);
    FrontStays(ours, k, stuck);
    assert Behind(ours, keep) == ours[k..];
  }

  lemma FrontStays(ours: seq<Entry>, k: nat, stuck: Test)
    requires k <= |ours| && Distinct(ours)
    ensures Filter(ours, Outside(ours[k..], stuck)) == ours[..k] + Filter(ours[k..], stuck)
  {
    var left := Outside(ours[k..], stuck);
    assert ours == ours[..k] + ours[k..];
    FilterConcat(ours[..k], ours[k..], left);
    forall i | 0 <= i < k ensures left(ours[..k][i]) {
      assert ours[i] !in ours[k..];
    }
    FilterAll(ours[..k], left);
    FilterAgree(ours[k..], left, stuck);
  }

  lemma SecondSweep(entries: seq<Entry>, keep: nat, mine: Test, le: (Entry, Entry) -> bool, stuck: Test)
    requires Ranking(le) && Distinct(entries)
    ensures var after := Swept(entries, Surplus(entries, keep, mine, le), stuck);
            Swept(after, Surplus(after, keep, mine, le), stuck) == after
  {
    var ours := Ranked(entries, mine, le);
    var after := Swept(entries, Surplus(entries, keep, mine, le), stuck);
    var again := Surplus(after, keep, mine, le);
    AfterSweep(entries, keep, mine, le, stuck);
    assert again == Filter(Behind(ours, keep), stuck);
    forall e | e in after ensures Outside(again, stuck)(e) {
      FilterMembers(Behind(ours, keep), stuck, e);
    }
    FilterAll(after, Outside(again, stuck));
  }

  lemma KeptComesFirst(entries: seq<Entry>, keep: nat, mine: Test, le: (Entry, Entry) -> bool, e: Entry, gone: Entry)
    requires Ranking(le) && Distinct(entries)
    requires e in entries && mine(e) && e !in Surplus(entries, keep, mine, le)
    requires gone in Surplus(entries, keep, mine, le)
    ensures le(e, gone)
  {
    var ours := Ranked(entries, mine, le);
    SurplusIsListed(entries, keep, mine, le);
    SortSorts(Filter(entries, mine), e, le);
    var i :| 0 <= i < |ours| && ours[i] == e;
    var j :| 0 <= j < |ours[keep..]| && ours[keep..][j] == gone;
    InSuffix(ours, keep, i);
    assert le(ours[i], ours[keep + j]);
  }

  lemma InSuffix(es: seq<Entry>, keep: nat, i: nat)
    requires keep <= |es| && i < |es|
    ensures keep <= i ==> es[i] in es[keep..]
  {
    if keep <= i { assert es[keep..][i - keep] == es[i]; }
  }

  lemma {:induction false} NoneStuck(es: seq<Entry>, stuck: Test)
    requires forall e :: e in es ==> !stuck(e)
    ensures Filter(es, stuck) == []
  {
    if es != [] { NoneStuck(es[1..], stuck); }
  }

  lemma NamesTellApart(entries: seq<Entry>)
    requires DistinctNames(entries)
    ensures Distinct(entries)
  {
  }

  function XtcSurplus(entries: seq<Entry>, keep: nat, w: World): seq<Entry>
  {
    Surplus(entries, keep, w.Xtc, w.NewestFirst)
  }

  /** The sweep by count leaves every file alone that is no XTC file of ours, and a
      second sweep removes nothing. */
  lemma XtcSweep(entries: seq<Entry>, keep: nat, w: World)
    requires DistinctNames(entries)
    ensures var after := Swept(entries, XtcSurplus(entries, keep, w), w.Stuck);
            && Filter(after, w.NotXtc) == Filter(entries, w.NotXtc)
            && Swept(after, XtcSurplus(after, keep, w), w.Stuck) == after
  {
    NewestFirstRanks(w);
    NamesTellApart(entries);
    SurplusIsListed(entries, keep, w.Xtc, w.NewestFirst);
    OthersStay(entries, XtcSurplus(entries, keep, w), w.Stuck, w.NotXtc);
    SecondSweep(entries, keep, w.Xtc, w.NewestFirst, w.Stuck);
  }

  /** Of `n` XTC files it leaves the smaller of `keep` and `n`, and those of the surplus
      that could not be removed. */
  lemma XtcSweepCounts(entries: seq<Entry>, keep: nat, w: World)
    requires DistinctNames(entries)
    ensures var n := |Filter(entries, w.Xtc)|;
            var surplus := XtcSurplus(entries, keep, w);
            && |Filter(Swept(entries, surplus, w.Stuck), w.Xtc)|
               == (if n <= keep then n else keep) + |Filter(surplus, w.Stuck)|
            && (Filter(surplus, w.Stuck) == [] <==> forall e :: e in surplus ==> !w.Stuck(e))
  {
    var surplus := XtcSurplus(entries, keep, w);
    NewestFirstRanks(w);
    NamesTellApart(entries);
    SurplusIsListed(entries, keep, w.Xtc, w.NewestFirst);
    AfterSweep(entries, keep, w.Xtc, w.NewestFirst, w.Stuck);
    if forall e :: e in surplus ==> !w.Stuck(e) {
      NoneStuck(surplus, w.Stuck);
    } else {
      var e :| e in surplus && w.Stuck(e);
      FilterMembers(surplus, w.Stuck, e);
    }
  }

  /** No XTC file it leaves is of an older issue than one it removes, or comes behind it in
      the same issue, except for those it could not remove. */
  lemma XtcSweepKeepsNewest(entries: seq<Entry>, keep: nat, w: World, e: Entry, gone: Entry)
    requires DistinctNames(entries)
    requires e in Swept(entries, XtcSurplus(entries, keep, w), w.Stuck) && w.Xtc(e) && !w.Stuck(e)
    requires gone in entries && gone !in Swept(entries, XtcSurplus(entries, keep, w), w.Stuck)
    ensures w.Xtc(gone) && !w.Date(e).value.Before(w.Date(gone).value)
    ensures w.Date(e) == w.Date(gone) ==> e.name == gone.name || StringBefore(e.name, gone.name)
  {
    var surplus := XtcSurplus(entries, keep, w);
    NewestFirstRanks(w);
    NamesTellApart(entries);
    SurplusIsListed(entries, keep, w.Xtc, w.NewestFirst);
    FilterMembers(entries, Outside(surplus, w.Stuck), e);
    FilterMembers(entries, Outside(surplus, w.Stuck), gone);
    KeptComesFirst(entries, keep, w.Xtc, w.NewestFirst, e, gone);
  }

  // -------------------------------------------------------------------------
  // The OPDS feed
  // -------------------------------------------------------------------------

  const OPDS_FEED_ISSUES := 14

  type Dating = Entry -> Option<Date>

  /** The dates of the files, by first appearance. */
  function DatesOf(files: seq<Entry>, date: Dating): seq<Option<Date>>
    decreases |files|
  {
    if files == [] then []
    else
      var k := |files| - 1;
      var before := DatesOf(files[..k], date);
      if date(files[k]) in before then before else before + [date(files[k])]
  }

  /** `retain`, with the dates seen so far. */
  method RetainNewest(files: seq<Entry>, limit: nat, w: World) returns (kept: seq<Entry>)
    ensures kept == Retained(files, limit, w.Date)
  {
    kept := [];
    var dates: seq<Option<Date>> := [];
    for i := 0 to |files|
      invariant dates == DatesOf(files[..i], w.Date) && kept == Retained(files[..i], limit, w.Date)
    {
      assert files[..i + 1][..i] == files[..i];
      var date := w.Date(files[i]);
      if date !in dates {
        dates := dates + [date];
      }
      // Its position among the dates is below the limit.
      if date in Take(dates, limit) {
        kept := kept + [files[i]];
      }
    }
    assert files[..|files|] == files;
  }

  function Retained(files: seq<Entry>, limit: nat, date: Dating): seq<Entry>
    decreases |files|
  {
    if files == [] then []
    else
      var k := |files| - 1;
      var before := Retained(files[..k], limit, date);
      if date(files[k]) in Take(DatesOf(files, date), limit) then before + [files[k]] else before
  }

  /** What the feed lists. */
  function Feed(entries: seq<Entry>, w: World): seq<Entry> {
    Retained(Sort(Filter(entries, w.Epub), w.FeedOrder), OPDS_FEED_ISSUES, w.Date)
  }

  /** `scan_epub_dir`. */
  method ScanEpubDir(entries: seq<Entry>, w: World) returns (files: seq<Entry>)
    ensures files == Feed(entries, w)
  {
    files := [];
    for i := 0 to |entries|
      invariant files == Filter(entries[..i], w.Epub)
    {
      assert entries[..i + 1] == entries[..i] + [entries[i]];
      FilterConcat(entries[..i], [entries[i]], w.Epub);
      if w.Epub(entries[i]) {
        files := files + [entries[i]];
      }
    }
    assert entries[..|entries|] == entries;
    files := Sort(files, w.FeedOrder);
    files := RetainNewest(files, OPDS_FEED_ISSUES, w);
  }

  ghost predicate ByDate(files: seq<Entry>, date: Dating) {
    forall i, j :: 0 <= i < j < |files| ==> !Later(date(files[j]), date(files[i]))
  }

  predicate Dated(files: seq<Entry>, date: Dating, d: Option<Date>)
  {
    exists i :: 0 <= i < |files| && date(files[i]) == d
  }

  lemma DatedSnoc(files: seq<Entry>, date: Dating, d: Option<Date>)
    requires files != []
    ensures Dated(files, date, d) <==> Dated(files[..|files| - 1], date, d) || date(files[|files| - 1]) == d
  {
    var before := files[..|files| - 1];
    if Dated(before, date, d) {
      var i :| 0 <= i < |before| && date(before[i]) == d;
      assert date(files[i]) == d;
    }
    if Dated(files, date, d) {
      var i :| 0 <= i < |files| && date(files[i]) == d;
      assert i < |before| ==> date(before[i]) == d;
    }
  }

  lemma {:induction false} DatesAre(files: seq<Entry>, date: Dating)
    ensures Distinct(DatesOf(files, date))
    ensures forall d :: d in DatesOf(files, date) <==> Dated(files, date, d)
    decreases |files|
  {
    if files != [] {
      DatesAre(files[..|files| - 1], date);
      forall d ensures d in DatesOf(files, date) <==> Dated(files, date, d) {
        DatedSnoc(files, date, d);
      }
    }
  }

  /** Sorted files: the date of the last file is the last of the dates. */
  lemma {:induction false} LastDate(files: seq<Entry>, date: Dating)
    requires ByDate(files, date) && files != []
    ensures var dates := DatesOf(files, date); dates != [] && dates[|dates| - 1] == date(files[|files| - 1])
    decreases |files|
  {
    var k := |files| - 1;
    var before := files[..k];
    DatesAre(before, date);
    if date(files[k]) in DatesOf(before, date) {
      var i :| 0 <= i < |before| && date(before[i]) == date(files[k]);
      LaterIsStrictOrder(date(files[k]), date(files[k - 1]), date(files[i]));
      LastDate(before, date);
    }
  }

  /** Dates up to file `k`. */
  function Rank(files: seq<Entry>, k: nat, date: Dating): nat
    requires k < |files|
  {
    |DatesOf(files[..k + 1], date)|
  }

  lemma LastIsRetained(files: seq<Entry>, limit: nat, date: Dating)
    requires ByDate(files, date) && files != []
    ensures var before := files[..|files| - 1];
            Retained(files, limit, date)
            == if |DatesOf(files, date)| <= limit then Retained(before, limit, date) + [files[|files| - 1]]
               else Retained(before, limit, date)
  {
    LastDate(files, date);
    DatesAre(files, date);
    InPrefix(DatesOf(files, date), limit);
  }

  lemma {:induction false} AllRetained(files: seq<Entry>, limit: nat, date: Dating)
    requires ByDate(files, date) && |DatesOf(files, date)| <= limit
    ensures Retained(files, limit, date) == files
    decreases |files|
  {
    if files != [] {
      DatesGrow(files, date, |files| - 1);
      AllRetained(files[..|files| - 1], limit, date);
      LastIsRetained(files, limit, date);
    }
  }

  /** Of sorted files the feed keeps a prefix: each file with no more than `limit` dates
      up to it. */
  lemma RetainedIsPrefix(files: seq<Entry>, limit: nat, date: Dating, k: nat)
    requires ByDate(files, date) && k < |files|
    ensures Retained(files, limit, date) <= files
    ensures k < |Retained(files, limit, date)| <==> Rank(files, k, date) <= limit
  {
    RetainedStarts(files, limit, date);
    RetainedReaches(files, limit, date, k);
  }

  lemma {:induction false} RetainedStarts(files: seq<Entry>, limit: nat, date: Dating)
    requires ByDate(files, date)
    ensures Retained(files, limit, date) <= files
    decreases |files|
  {
    if files == [] {
    } else if |DatesOf(files, date)| <= limit {
      AllRetained(files, limit, date);
    } else {
      LastIsRetained(files, limit, date);
      RetainedStarts(files[..|files| - 1], limit, date);
    }
  }

  lemma {:induction false} RetainedReaches(files: seq<Entry>, limit: nat, date: Dating, k: nat)
    requires ByDate(files, date) && k < |files|
    ensures k < |Retained(files, limit, date)| <==> Rank(files, k, date) <= limit
    decreases |files|
  {
    var n := |files| - 1;
    if |DatesOf(files, date)| <= limit {
      AllRetained(files, limit, date);
      DatesGrow(files, date, k + 1);
    } else if k < n {
      LastIsRetained(files, limit, date);
      RetainedReaches(files[..n], limit, date, k);
      SameRank(files, k, date);
    } else {
      LastIsRetained(files, limit, date);
      RetainedStarts(files[..n], limit, date);
      assert files[..n + 1] == files;
    }
  }

  lemma SameRank(files: seq<Entry>, k: nat, date: Dating)
    requires k < |files| - 1
    ensures Rank(files, k, date) == Rank(files[..|files| - 1], k, date)
  {
    assert files[..k + 1] == files[..|files| - 1][..k + 1];
  }

  lemma {:induction false} DatesGrow(files: seq<Entry>, date: Dating, k: nat)
    requires k <= |files|
    ensures DatesOf(files[..k], date) <= DatesOf(files, date)
    decreases |files|
  {
    if k == |files| {
      assert files[..k] == files;
    } else {
      var before := files[..|files| - 1];
      assert files[..k] == before[..k];
      DatesGrow(before, date, k);
    }
  }

  lemma InPrefix(dates: seq<Option<Date>>, limit: nat)
    requires Distinct(dates) && dates != []
    ensures dates[|dates| - 1] in Take(dates, limit) <==> |dates| <= limit
  {
  }

  /** The dates of the files that are newer than one. */
  function NewerDates(files: seq<Entry>, d: Option<Date>, date: Dating): set<Option<Date>> {
    set f | f in files && Later(date(f), d) :: date(f)
  }

  lemma {:induction false} SetOfDistinct(dates: seq<Option<Date>>)
    requires Distinct(dates)
    ensures |set d | d in dates| == |dates|
  {
    if dates != [] {
      SetOfDistinct(dates[1..]);
      assert dates == [dates[0]] + dates[1..];
      assert (set d | d in dates) == {dates[0]} + (set d | d in dates[1..]);
    }
  }

  /** In sorted files, the dates up to a file are its own and the newer ones. */
  lemma RankIsNewer(files: seq<Entry>, date: Dating, k: nat)
    requires ByDate(files, date) && k < |files|
    ensures Rank(files, k, date) == 1 + |NewerDates(files, date(files[k]), date)|
  {
    var upTo := files[..k + 1];
    var dates := DatesOf(upTo, date);
    LastDate(upTo, date);
    DatesAre(upTo, date);
    var newer := dates[..|dates| - 1];
    SetOfDistinct(newer);
    forall d ensures d in newer <==> d in NewerDates(files, date(files[k]), date) {
      DateIsNewer(files, date, k, upTo, d);
    }
    assert (set d | d in newer) == NewerDates(files, date(files[k]), date);
  }

  lemma DateIsNewer(files: seq<Entry>, date: Dating, k: nat, upTo: seq<Entry>, d: Option<Date>)
    requires ByDate(files, date) && k < |files| && upTo == files[..k + 1]
    requires DatesOf(upTo, date) != [] && Distinct(DatesOf(upTo, date))
    requires forall e :: e in DatesOf(upTo, date) <==> Dated(upTo, date, e)
    requires var dates := DatesOf(upTo, date); dates[|dates| - 1] == date(files[k])
    ensures var dates := DatesOf(upTo, date);
            d in dates[..|dates| - 1] <==> d in NewerDates(files, date(files[k]), date)
  {
    var dates := DatesOf(upTo, date);
    assert dates == dates[..|dates| - 1] + [date(files[k])];
    assert d in dates[..|dates| - 1] <==> d in dates && d != date(files[k]);
    LaterIsStrictOrder(d, date(files[k]), d);
    if d in dates && d != date(files[k]) {
      var i :| 0 <= i < |upTo| && date(upTo[i]) == d;
      assert files[i] in files && Later(date(files[i]), date(files[k]));
    }
    if d in NewerDates(files, date(files[k]), date) {
      var f :| f in files && Later(date(f), date(files[k])) && date(f) == d;
      var i :| 0 <= i < |files| && files[i] == f;
      assert i < k;
      assert date(upTo[i]) == d;
    }
  }

  lemma RetainedAre(files: seq<Entry>, limit: nat, date: Dating, e: Entry)
    requires ByDate(files, date)
    ensures Retained(files, limit, date) <= files
    ensures e in Retained(files, limit, date) <==> e in files && |NewerDates(files, date(e), date)| < limit
  {
    if files != [] {
      RetainedIsPrefix(files, limit, date, 0);
    }
    if e in files {
      var k :| 0 <= k < |files| && files[k] == e
               && (e in Retained(files, limit, date) ==> k < |Retained(files, limit, date)|);
      RetainedIsPrefix(files, limit, date, k);
      RankIsNewer(files, date, k);
    }
  }

  /** The feed is a prefix of our EPUB files in feed order, and a file is in it exactly
      if fewer than 14 dates are newer than its own: it never splits an issue. */
  lemma FeedHoldsNewestIssues(entries: seq<Entry>, w: World, e: Entry)
    ensures Feed(entries, w) <= Sort(Filter(entries, w.Epub), w.FeedOrder)
    ensures e in Feed(entries, w) <==>
              e in entries && w.Epub(e) && |NewerDates(Filter(entries, w.Epub), w.Date(e), w.Date)| < OPDS_FEED_ISSUES
  {
    var ours := Filter(entries, w.Epub);
    var files := Sort(ours, w.FeedOrder);
    FeedOrderRanks(w);
    SortSorts(ours, e, w.FeedOrder);
    FeedOrderIsByDate(files, w);
    FilterMembers(entries, w.Epub, e);
    SortKeepsMembers(ours, w.FeedOrder, e);
    RetainedAre(files, OPDS_FEED_ISSUES, w.Date, e);
    SameNewerDates(ours, w, w.Date(e));
  }

  lemma FeedOrderIsByDate(files: seq<Entry>, w: World)
    requires Sorted(files, w.FeedOrder)
    ensures ByDate(files, w.Date)
  {
    forall i, j | 0 <= i < j < |files| ensures !Later(w.Date(files[j]), w.Date(files[i])) {
      assert w.FeedOrder(files[i], files[j]);
      LaterIsStrictOrder(w.Date(files[i]), w.Date(files[j]), w.Date(files[i]));
    }
  }

  lemma SameNewerDates(ours: seq<Entry>, w: World, d: Option<Date>)
    ensures NewerDates(Sort(ours, w.FeedOrder), d, w.Date) == NewerDates(ours, d, w.Date)
  {
    FeedOrderRanks(w);
    forall f ensures f in Sort(ours, w.FeedOrder) <==> f in ours {
      SortKeepsMembers(ours, w.FeedOrder, f);
    }
  }
}
