/** `dedupe_guesses` in `src/discovery.rs`: the few feeds of a host that are proposed. */
module FeedGuesses {
  import opened Sorting
  import opened Text

  const MAX_PER_HOST := 3

  /** A discover result whose body is a feed. Miniflux gives the URL as the title of a
      result it only guessed from a well-known path. */
  datatype Validated = Validated(url: string, rawTitle: string, json: bool, sniffedTitle: Option<string>) {
    predicate Guess() { rawTitle == url }
    function Title(): Option<string> { if Guess() then sniffedTitle else Some(rawTitle) }
  }

  type Choice = Validated -> bool

  function IsGuess(): Choice { (v: Validated) => v.Guess() }
  function Offers(title: string): Choice { (v: Validated) => !v.Guess() && v.rawTitle == title }
  function XmlOffers(title: string): Choice { (v: Validated) => !v.Guess() && v.rawTitle == title && !v.json }

  function First(results: seq<Validated>, p: Choice): Option<Validated> {
    if results == [] then None
    else if p(results[0]) then Some(results[0])
    else First(results[1..], p)
  }

  lemma {:induction false} FirstSnoc(results: seq<Validated>, v: Validated, p: Choice)
    ensures First(results + [v], p)
         == if First(results, p).Some? then First(results, p) else if p(v) then Some(v) else None
  {
    if results == [] {
    } else {
      assert (results + [v])[1..] == results[1..] + [v];
      FirstSnoc(results[1..], v, p);
    }
  }

  lemma {:induction false} FirstHolds(results: seq<Validated>, p: Choice)
    ensures match First(results, p)
            case Some(v) => p(v) && v in results
            case None => forall i :: 0 <= i < |results| ==> !p(results[i])
  {
    if results != [] { FirstHolds(results[1..], p); }
  }

  /** What stands for a title: its first XML feed, or its first feed if all are JSON. */
  function Pick(results: seq<Validated>, title: string): Option<Validated> {
    var xml := First(results, XmlOffers(title));
    if xml.Some? then xml else First(results, Offers(title))
  }

  /** The titles of the results that are no guesses, by first appearance. */
  function Titles(results: seq<Validated>): seq<string> {
    if results == [] then []
    else
      var k := |results| - 1;
      var before := Titles(results[..k]);
      if results[k].Guess() || results[k].rawTitle in before then before else before + [results[k].rawTitle]
  }

  function Picks(results: seq<Validated>, titles: seq<string>): seq<Validated> {
    if titles == [] then []
    else (match Pick(results, titles[0]) case Some(v) => [v] case None => []) + Picks(results, titles[1..])
  }

  function Guesses(results: seq<Validated>): seq<Validated> {
    match First(results, IsGuess()) case Some(v) => [v] case None => []
  }

  /** One result a title, then the first guess, and three at most. */
  function Deduped(results: seq<Validated>): seq<Validated> {
    Take(Picks(results, Titles(results)) + Guesses(results), MAX_PER_HOST)
  }

  // -------------------------------------------------------------------------
  // The loop as written, with its two parallel vectors
  // -------------------------------------------------------------------------

  ghost predicate Parallel(results: seq<Validated>, titles: seq<string>, kept: seq<Validated>) {
    |kept| == |titles| && forall x :: 0 <= x < |titles| ==> Pick(results, titles[x]) == Some(kept[x])
  }

  ghost predicate OnTrack(results: seq<Validated>, titles: seq<string>, kept: seq<Validated>) {
    titles == Titles(results) && Parallel(results, titles, kept)
  }

  method DedupeGuesses(results: seq<Validated>) returns (kept: seq<Validated>)
    ensures kept == Deduped(results)
  {
    kept := [];
    var titles: seq<string> := [];
    for i := 0 to |results|
      invariant OnTrack(results[..i], titles, kept)
    {
      assert results[..i + 1] == results[..i] + [results[i]];
      titles, kept := Collect(results[i], titles, kept, results[..i]);
    }
    assert results[..|results|] == results;
    ParallelIsPicks(results, titles, kept);
    kept := Take(kept + Guesses(results), MAX_PER_HOST);
  }

  /** The body of the loop: `v` comes after `seen`. */
  method Collect(v: Validated, titles: seq<string>, kept: seq<Validated>, ghost seen: seq<Validated>)
    returns (titles': seq<string>, kept': seq<Validated>)
    requires OnTrack(seen, titles, kept)
    ensures OnTrack(seen + [v], titles', kept')
  {
    titles', kept' := titles, kept;
    TitlesAre(seen);
    TitlesSnoc(seen, v);
    if v.Guess() {
      GuessStep(seen, v, titles, kept);
      return;
    }
    var at := Position(titles, v.rawTitle);
    if at < |titles| {
      UpdateStep(seen, v, titles, kept, at);
      if kept[at].json && !v.json {
        kept' := kept[at := v];
      }
    } else {
      AppendStep(seen, v, titles, kept);
      titles', kept' := titles + [v.rawTitle], kept + [v];
    }
  }

  lemma TitlesSnoc(results: seq<Validated>, v: Validated)
    ensures Titles(results + [v])
         == if v.Guess() || v.rawTitle in Titles(results) then Titles(results) else Titles(results) + [v.rawTitle]
  {
    assert (results + [v])[..|results|] == results;
  }

  method Position(titles: seq<string>, title: string) returns (at: nat)
    ensures at <= |titles| && title !in titles[..at] && (at < |titles| ==> titles[at] == title)
  {
    at := 0;
    while at < |titles| && titles[at] != title
      invariant at <= |titles| && title !in titles[..at]
    {
      at := at + 1;
    }
  }

  lemma PickSnoc(results: seq<Validated>, v: Validated, title: string)
    ensures var before := Pick(results, title);
            Pick(results + [v], title)
            == if v.Guess() || v.rawTitle != title then before
               else if before.None? || (before.value.json && !v.json) then Some(v)
               else before
  {
    FirstSnoc(results, v, Offers(title));
    FirstSnoc(results, v, XmlOffers(title));
    FirstHolds(results, Offers(title));
    FirstHolds(results, XmlOffers(title));
  }

  lemma GuessStep(results: seq<Validated>, v: Validated, titles: seq<string>, kept: seq<Validated>)
    requires v.Guess() && Parallel(results, titles, kept)
    ensures Parallel(results + [v], titles, kept)
  {
    forall x | 0 <= x < |titles| ensures Pick(results + [v], titles[x]) == Some(kept[x]) {
      PickSnoc(results, v, titles[x]);
    }
  }

  lemma UpdateStep(results: seq<Validated>, v: Validated, titles: seq<string>, kept: seq<Validated>, at: nat)
    requires !v.Guess() && Parallel(results, titles, kept) && at < |titles| && titles[at] == v.rawTitle
    requires forall x, y :: 0 <= x < y < |titles| ==> titles[x] != titles[y]
    ensures Parallel(results + [v], titles, if kept[at].json && !v.json then kept[at := v] else kept)
  {
    forall x | 0 <= x < |titles|
      ensures Pick(results + [v], titles[x]) == Some(if x == at && kept[at].json && !v.json then v else kept[x])
    {
      PickSnoc(results, v, titles[x]);
    }
  }

  lemma AppendStep(results: seq<Validated>, v: Validated, titles: seq<string>, kept: seq<Validated>)
    requires !v.Guess() && Parallel(results, titles, kept) && v.rawTitle !in titles && titles == Titles(results)
    ensures Parallel(results + [v], titles + [v.rawTitle], kept + [v])
  {
    TitlesAre(results);
    FirstHolds(results, Offers(v.rawTitle));
    FirstHolds(results, XmlOffers(v.rawTitle));
    var all, longer := titles + [v.rawTitle], kept + [v];
    forall x | 0 <= x < |all| ensures Pick(results + [v], all[x]) == Some(longer[x]) {
      PickSnoc(results, v, all[x]);
    }
  }

  lemma {:induction false} ParallelIsPicks(results: seq<Validated>, titles: seq<string>, kept: seq<Validated>)
    requires Parallel(results, titles, kept)
    ensures Picks(results, titles) == kept
  {
    if titles != [] { ParallelIsPicks(results, titles[1..], kept[1..]); }
  }

  // -------------------------------------------------------------------------
  // What is proposed
  // -------------------------------------------------------------------------

  predicate Offered(results: seq<Validated>, title: string) {
    exists i :: 0 <= i < |results| && Offers(title)(results[i])
  }

  /** The titles are distinct, and are those of the results that are no guesses. */
  lemma {:induction false} TitlesAre(results: seq<Validated>)
    ensures forall x, y :: 0 <= x < y < |Titles(results)| ==> Titles(results)[x] != Titles(results)[y]
    ensures forall t :: t in Titles(results) <==> Offered(results, t)
  {
    if results != [] {
      var k := |results| - 1;
      var before, v := results[..k], results[k];
      TitlesAre(before);
      assert forall i :: 0 <= i < k ==> before[i] == results[i];
      forall t ensures t in Titles(results) <==> Offered(results, t) {
        if Offered(before, t) {
          var i :| 0 <= i < |before| && Offers(t)(before[i]);
          assert Offers(t)(results[i]);
        }
        if Offers(t)(v) {
          assert Offers(t)(results[k]);
        }
      }
    }
  }

  lemma {:induction false} PicksAre(results: seq<Validated>, titles: seq<string>)
    requires forall t :: t in titles ==> Offered(results, t)
    ensures |Picks(results, titles)| == |titles|
    ensures forall x :: 0 <= x < |titles| ==> Stands(results, titles[x], Picks(results, titles)[x])
  {
    if titles != [] {
      assert Offered(results, titles[0]);
      FirstHolds(results, Offers(titles[0]));
      FirstHolds(results, XmlOffers(titles[0]));
      PicksAre(results, titles[1..]);
    }
  }

  /** `v` may stand for the title: it carries it, and if it is JSON no XML feed does. */
  predicate Stands(results: seq<Validated>, title: string, v: Validated) {
    && v in results && !v.Guess() && v.rawTitle == title
    && (v.json ==> forall i :: 0 <= i < |results| && Offers(title)(results[i]) ==> results[i].json)
  }

  lemma PicksStand(results: seq<Validated>)
    ensures var titles, picks := Titles(results), Picks(results, Titles(results));
            && |picks| == |titles|
            && (forall x :: 0 <= x < |titles| ==> Stands(results, titles[x], picks[x]))
            && (forall x, y :: 0 <= x < y < |titles| ==> titles[x] != titles[y])
  {
    TitlesAre(results);
    PicksAre(results, Titles(results));
  }

  /** The proposals of a host: three results at most; never two of one title, and never
      two guesses; a guess only behind the titled ones; and a JSON feed only when its
      title has no XML feed. */
  lemma WhatIsProposed(results: seq<Validated>)
    ensures var r := Deduped(results);
            && |r| <= 3
            && (forall x :: 0 <= x < |r| ==> r[x] in results && (r[x].Guess() || Stands(results, r[x].rawTitle, r[x])))
            && (forall x, y :: 0 <= x < y < |r| ==> !r[x].Guess() && (r[y].Guess() || r[x].rawTitle != r[y].rawTitle))
  {
    PicksStand(results);
    FirstHolds(results, IsGuess());
    assert Deduped(results) <= Picks(results, Titles(results)) + Guesses(results);
  }

  /** Unless there are three proposals, no title and no guess is missed. */
  lemma NothingIsMissed(results: seq<Validated>, i: nat)
    requires i < |results| && |Deduped(results)| < 3
    ensures exists x :: 0 <= x < |Deduped(results)|
              && if results[i].Guess() then Deduped(results)[x].Guess()
                 else Stands(results, results[i].rawTitle, Deduped(results)[x])
  {
    var titles, picks, r := Titles(results), Picks(results, Titles(results)), Deduped(results);
    PicksStand(results);
    FirstHolds(results, IsGuess());
    assert r == picks + Guesses(results);
    if results[i].Guess() {
      assert r[|picks|].Guess();
    } else {
      TitlesAre(results);
      assert Offers(results[i].rawTitle)(results[i]);
      assert Offered(results, results[i].rawTitle);
      var x :| 0 <= x < |titles| && titles[x] == results[i].rawTitle;
      assert r[x] == picks[x];
    }
  }
}
