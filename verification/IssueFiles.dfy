/** What the sweeps and the feed of `src/publish.rs` do with the files of an issue, told from their names. */
module IssueFiles {
  import opened Text
  import opened Sorting
  import opened Dates
  import opened PublishNames
  import opened Publish

  /** The entry carries the name of an issue of `date`. */
  predicate Carries(e: Entry, date: Date, edition: Edition, extension: string) {
    && date.Valid() && date.year >= 0 && extension in ["epub", "xtc", "xtch"]
    && e.name == IssueName(date, edition, extension)
  }

  /** What the sweeps and the feed see in such a file. */
  lemma IssueIsSeen(e: Entry, date: Date, edition: Edition, extension: string, w: World)
    requires Carries(e, date, edition, extension) && Faithful(w.read)
    ensures w.Date(e) == Some(date) && EditionOf(e.name) == edition
    ensures w.Epub(e) <==> e.regular && extension == "epub"
    ensures w.Xtc(e) <==> e.regular && extension != "epub"
  {
    NameReadsBack(date, edition, extension, w.read);
  }

  /** The sweep by age removes an issue's file exactly if the issue is before the cutoff
      and the file is a regular one that can be removed. Dates are ordered as their texts. */
  lemma IssueExpires(entries: seq<Entry>, cutoff: Date, w: World, e: Entry, date: Date, edition: Edition,
                     extension: string)
    requires e in entries && Carries(e, date, edition, extension) && Faithful(w.read)
    requires cutoff.Valid() && cutoff.year >= 0
    ensures e !in Swept(entries, Expired(entries, cutoff, w), w.Stuck)
       <==> StringBefore(date.Print(), cutoff.Print()) && e.regular && !w.stuck(e.name)
  {
    IssueIsSeen(e, date, edition, extension, w);
    AgeSweep(entries, cutoff, w);
    PrintsInOrder(date, cutoff);
  }

  /** The sweep by count removes a file only if it is an XTC file of an issue that comes
      after no file it leaves. */
  lemma NewestXtcStays(entries: seq<Entry>, keep: nat, w: World, e: Entry, gone: Entry, date: Date, edition: Edition,
                       extension: string, other: Date, edition': Edition, extension': string)
    requires DistinctNames(entries) && Faithful(w.read)
    requires Carries(e, date, edition, extension) && Carries(gone, other, edition', extension')
    requires e in Swept(entries, XtcSurplus(entries, keep, w), w.Stuck) && !w.stuck(e.name)
    requires e.regular && extension != "epub"
    requires gone in entries && gone !in Swept(entries, XtcSurplus(entries, keep, w), w.Stuck)
    ensures gone.regular && extension' != "epub" && !StringBefore(date.Print(), other.Print())
  {
    IssueIsSeen(e, date, edition, extension, w);
    IssueIsSeen(gone, other, edition', extension', w);
    XtcSweepKeepsNewest(entries, keep, w, e, gone);
    PrintsInOrder(date, other);
  }

  /** The order of the feed: newer issues first; of one issue the standard edition first;
      of one edition the file written last; then by name. */
  lemma FeedInOrder(entries: seq<Entry>, w: World, i: nat, j: nat)
    requires i < j < |Feed(entries, w)|
    ensures var a, b := Feed(entries, w)[i], Feed(entries, w)[j];
            && w.Date(a).Some? && w.Date(b).Some?
            && var d, c := w.Date(a).value, w.Date(b).value;
               && (d != c ==> c.Before(d))
               && (d == c && EditionOf(a.name) != EditionOf(b.name) ==> EditionOf(a.name) == Standard)
               && (d == c && EditionOf(a.name) == EditionOf(b.name) ==> a.modified >= b.modified)
               && (d == c && EditionOf(a.name) == EditionOf(b.name) && a.modified == b.modified ==>
                     a.name == b.name || StringBefore(a.name, b.name))
  {
    var feed, files := Feed(entries, w), Sort(Filter(entries, w.Epub), w.FeedOrder);
    FeedOrderRanks(w);
    SortSorts(Filter(entries, w.Epub), feed[i], w.FeedOrder);
    FeedHoldsNewestIssues(entries, w, feed[i]);
    FeedHoldsNewestIssues(entries, w, feed[j]);
    assert feed[i] in feed && feed[j] in feed && feed[i] == files[i] && feed[j] == files[j];
    assert w.FeedOrder(files[i], files[j]);
  }

  /** The dates of our EPUB files after `date`. */
  function DatesAfter(entries: seq<Entry>, date: Date, w: World): set<Option<Date>> {
    set f | f in entries && w.Epub(f) && w.Date(f).Some? && date.Before(w.Date(f).value) :: w.Date(f)
  }

  /** An issue's EPUB is listed exactly if there are issues of fewer than 14 later dates. */
  lemma IssueIsListed(entries: seq<Entry>, w: World, e: Entry, date: Date, edition: Edition)
    requires e in entries && e.regular && Carries(e, date, edition, "epub") && Faithful(w.read)
    ensures e in Feed(entries, w) <==> |DatesAfter(entries, date, w)| < 14
  {
    IssueIsSeen(e, date, edition, "epub", w);
    FeedHoldsNewestIssues(entries, w, e);
    var ours := Filter(entries, w.Epub);
    forall f ensures f in ours <==> f in entries && w.Epub(f) {
      FilterMembers(entries, w.Epub, f);
    }
    assert NewerDates(ours, w.Date(e), w.Date) == DatesAfter(entries, date, w);
  }

  /** The name is that of an issue's file as far as the program can tell: it has our prefix
      and one of our extensions, in any case. */
  ghost predicate LooksOurs(name: string) {
    && "The Daily EPUB - " <= name
    && exists stem, extension :: stem != "" && '.' !in extension && name == stem + "." + extension
                                 && LowerAll(extension) in ["epub", "xtc", "xtch"]
  }

  lemma {:induction false} DotSplits(name: string)
    ensures match SplitAtLastDot(name)
            case Some((stem, extension)) => '.' !in extension && name == stem + "." + extension
            case None => '.' !in name
  {
    if name != "" && name[|name| - 1] != '.' {
      var k := |name| - 1;
      DotSplits(name[..k]);
      assert name == name[..k] + [name[k]];
    } else if name != "" {
      assert name == name[..|name| - 1] + "." + "";
    }
  }

  /** Files of anyone else are never removed, by either sweep, and never listed. */
  lemma ForeignFilesStay(entries: seq<Entry>, cutoff: Date, keep: nat, w: World, e: Entry)
    requires e in entries && !LooksOurs(e.name) && DistinctNames(entries)
    ensures e in Swept(entries, Expired(entries, cutoff, w), w.Stuck)
    ensures e in Swept(entries, XtcSurplus(entries, keep, w), w.Stuck)
    ensures e !in Feed(entries, w)
  {
    ForeignHasNoDate(e.name, w);
    AgeSweep(entries, cutoff, w);
    XtcSweep(entries, keep, w);
    FilterMembers(entries, w.NotXtc, e);
    FilterMembers(Swept(entries, XtcSurplus(entries, keep, w), w.Stuck), w.NotXtc, e);
    FeedHoldsNewestIssues(entries, w, e);
  }

  lemma ForeignHasNoDate(name: string, w: World)
    requires !LooksOurs(name)
    ensures DateOf(name, w.read) == None
  {
    DotSplits(name);
    if SplitAtLastDot(name).Some? {
      var (stem, extension) := SplitAtLastDot(name).value;
      assert name == stem + "." + extension;
    }
  }
}
