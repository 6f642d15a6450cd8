/** The append-only rating log of `src/db.rs` and the view of the current verdicts. */
module Ratings {
  import opened Text

  /** One event; its id is its position in the log. `at` is where the text of `event_at`
      stands among such texts, because the database compares the texts. */
  datatype Event = Event(article: nat, explicit: bool, verdict: string, at: int)

  type Log = seq<Event>

  const CLEARED := "cleared"
  const SLOP := "slop"

  /** `i` ranks before `j`: `ORDER BY event_at DESC, id DESC`. */
  predicate Before(log: Log, i: nat, j: nat)
    requires i < |log| && j < |log|
  {
    log[i].at > log[j].at || (log[i].at == log[j].at && i >= j)
  }

  predicate Explicit(log: Log, i: nat, article: nat) {
    i < |log| && log[i].explicit && log[i].article == article
  }

  /** The event of rank 1 among the explicit ones of an article not older than `since`:
      the filter comes before the ranking. */
  function RankedFirst(log: Log, article: nat, since: Option<int>): (r: Option<nat>)
    ensures r.Some? ==> Explicit(log, r.value, article) && Recent(log, r.value, since)
  {
    if log == [] then None
    else
      var k := |log| - 1;
      var r := RankedFirst(log[..k], article, since);
      if !(Explicit(log, k, article) && Recent(log, k, since)) then r
      else if r.None? || Before(log, k, r.value) then Some(k)
      else r
  }

  /** It ranks before every other candidate, and is missing only when there is none. */
  lemma {:induction false} RankedFirstLeads(log: Log, article: nat, since: Option<int>, i: nat)
    requires Explicit(log, i, article) && Recent(log, i, since)
    ensures RankedFirst(log, article, since).Some? && Before(log, RankedFirst(log, article, since).value, i)
  {
    var k := |log| - 1;
    if i < k {
      assert log[..k][i] == log[i];
      RankedFirstLeads(log[..k], article, since, i);
    }
  }

  predicate Recent(log: Log, i: nat, since: Option<int>) {
    i < |log| && (since.Some? ==> log[i].at >= since.value)
  }

  /** The current verdict on an article, whatever its age. */
  function Latest(log: Log, article: nat): Option<nat> { RankedFirst(log, article, None) }

  /** `latest_explicit_ratings`: what the view shows for an article. */
  function Shown(log: Log, article: nat, since: int, includeCleared: bool): Option<nat> {
    match RankedFirst(log, article, Some(since))
    case Some(i) => if includeCleared || log[i].verdict != CLEARED then Some(i) else None
    case None => None
  }

  /** Filtering by age before ranking is the same as ranking the whole log and then
      looking at the age of the winner, since the ranking is by age first. A cleared
      verdict hides the article; it never brings an older verdict back. What is shown is
      the current verdict. */
  lemma LookbackCommutesWithRanking(log: Log, article: nat, since: int, includeCleared: bool)
    ensures RankedFirst(log, article, Some(since))
         == match Latest(log, article) case Some(i) => (if log[i].at >= since then Some(i) else None) case None => None
    ensures Shown(log, article, since, includeCleared).Some? <==>
            (Latest(log, article).Some?
             && log[Latest(log, article).value].at >= since
             && (includeCleared || log[Latest(log, article).value].verdict != "cleared"))
    ensures Shown(log, article, since, includeCleared).Some? ==>
              Shown(log, article, since, includeCleared) == Latest(log, article)
  {
    var recent, all := RankedFirst(log, article, Some(since)), Latest(log, article);
    if recent.Some? {
      RankedFirstLeads(log, article, None, recent.value);
      RankedFirstLeads(log, article, Some(since), all.value);
    } else if all.Some? && log[all.value].at >= since {
      RankedFirstLeads(log, article, Some(since), all.value);
    }
  }

  /** The explicit event of an article with the highest id. */
  function LastEvent(log: Log, article: nat): (r: Option<nat>)
    ensures r.Some? ==> Explicit(log, r.value, article)
  {
    if log == [] then None
    else
      var k := |log| - 1;
      if Explicit(log, k, article) then Some(k) else LastEvent(log[..k], article)
  }

  lemma {:induction false} LastEventIsLast(log: Log, article: nat, i: nat)
    requires Explicit(log, i, article)
    ensures LastEvent(log, article).Some? && i <= LastEvent(log, article).value
  {
    var k := |log| - 1;
    if i < k {
      assert log[..k][i] == log[i];
      LastEventIsLast(log[..k], article, i);
    }
  }

  /** The verdict on an article is the event that was recorded last, exactly if none of
      its events carries a later time. */
  lemma WhenLatestIsLast(log: Log, article: nat)
    ensures Latest(log, article).Some? <==> LastEvent(log, article).Some?
    ensures LastEvent(log, article).Some? ==>
              var last := LastEvent(log, article).value;
              Latest(log, article) == Some(last) <==>
                forall i: nat :: Explicit(log, i, article) ==> log[i].at <= log[last].at
  {
    var latest, last := Latest(log, article), LastEvent(log, article);
    if latest.Some? {
      LastEventIsLast(log, article, latest.value);
    }
    if last.Some? {
      RankedFirstLeads(log, article, None, last.value);
      forall i: nat | Explicit(log, i, article) && latest == last ensures log[i].at <= log[last.value].at {
        RankedFirstLeads(log, article, None, i);
      }
    }
  }

  /** The log only holds what happened until `now`. */
  predicate UpTo(log: Log, now: int) { forall i :: 0 <= i < |log| ==> log[i].at <= now }

  /** No explicit event of its article carries a later time. */
  predicate NoneLater(log: Log, e: Event) {
    forall i: nat :: i < |log| && Explicit(log, i, e.article) ==> log[i].at <= e.at
  }

  /** `append_rating_event`: an explicit event becomes the verdict on its article exactly
      if none there carries a later time; every other verdict stands. */
  lemma AppendedIsLatest(log: Log, e: Event, article: nat)
    ensures Latest(log + [e], article)
         == if e.explicit && e.article == article && NoneLater(log, e) then Some(|log|) else Latest(log, article)
    ensures LastEvent(log + [e], article)
         == if e.explicit && e.article == article then Some(|log|) else LastEvent(log, article)
  {
    assert (log + [e])[..|log|] == log;
    var latest := Latest(log, e.article);
    if e.explicit && e.article == article {
      forall i: nat | i < |log| && Explicit(log, i, article) ensures latest.Some? && log[i].at <= log[latest.value].at {
        RankedFirstLeads(log, article, None, i);
      }
    }
  }

  /** `slop_authors`: the authors of the articles whose verdict is `slop`, at any age. */
  function SlopAuthors(log: Log, authors: map<nat, string>): set<string> {
    set a | a in authors && IsSlop(log, a) :: authors[a]
  }

  predicate IsSlop(log: Log, article: nat) {
    Latest(log, article).Some? && log[Latest(log, article).value].verdict == SLOP
  }

  predicate HasSlop(log: Log, authors: map<nat, string>, author: string, besides: nat) {
    exists a :: a in authors && a != besides && authors[a] == author && IsSlop(log, a)
  }

  /** An author is penalized as long as one of his articles has `slop` as its verdict,
      and a new verdict takes effect on that article alone, if it takes effect. */
  lemma SlopFollowsTheVerdict(log: Log, e: Event, authors: map<nat, string>, author: string)
    requires e.explicit && e.article in authors
    ensures author in SlopAuthors(log + [e], authors)
       <==> (authors[e.article] == author && if NoneLater(log, e) then e.verdict == SLOP else IsSlop(log, e.article))
            || HasSlop(log, authors, author, e.article)
  {
    var after := log + [e];
    forall a
      ensures IsSlop(after, a)
         <==> if a == e.article && NoneLater(log, e) then e.verdict == SLOP else IsSlop(log, a) {
      AppendedIsLatest(log, e, a);
    }
    if author in SlopAuthors(after, authors) {
      var a :| a in authors && IsSlop(after, a) && authors[a] == author;
      assert a != e.article ==> IsSlop(log, a);
    }
    if HasSlop(log, authors, author, e.article) {
      var a :| a in authors && a != e.article && authors[a] == author && IsSlop(log, a);
      assert IsSlop(after, a);
    }
    if authors[e.article] == author && IsSlop(after, e.article) {
      assert author in SlopAuthors(after, authors);
    }
  }

  /** The `rating_events` table. */
  class RatingDb {
    var log: Log

    constructor ()
      ensures log == []
    {
      log := [];
    }

    /** Nothing is overwritten: the event is the last one of its article, it becomes the
        verdict there unless an earlier one carries a later time, and no other verdict
        changes. */
    method AppendRatingEvent(e: Event) returns (id: nat)
      modifies this
      ensures log == old(log) + [e] && id == |old(log)|
      ensures forall a :: Latest(log, a)
                       == if e.explicit && a == e.article && NoneLater(old(log), e) then Some(id)
                          else Latest(old(log), a)
      ensures forall a :: LastEvent(log, a) == if e.explicit && a == e.article then Some(id) else LastEvent(old(log), a)
    {
      id := |log|;
      ghost var before := log;
      log := log + [e];
      forall a
        ensures Latest(log, a)
             == (if e.explicit && a == e.article && NoneLater(before, e) then Some(id) else Latest(before, a))
                    && LastEvent(log, a) == if e.explicit && a == e.article then Some(id) else LastEvent(before, a)
      {
        AppendedIsLatest(before, e, a);
      }
    }
  }
}
