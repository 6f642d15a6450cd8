/** Comment trees in `src/comments.rs`: their order and the word budget of a chapter. */
module CommentForest {
  import opened Text
  import opened Sorting

  const MAX_CHAPTER_WORDS := 4000

  datatype Comment = Comment(author: string, points: Option<int>, text: string, depth: nat, children: seq<Comment>) {
    function Score(): int { if points.Some? then points.value else 0 }
  }

  function Size(cs: seq<Comment>): nat {
    if cs == [] then 0 else 1 + Size(cs[0].children) + Size(cs[1..])
  }

  // -------------------------------------------------------------------------
  // sort_by_points
  // -------------------------------------------------------------------------

  predicate NoFewerPoints(a: Comment, b: Comment) { a.Score() >= b.Score() }

  /** `sort_by_key(Reverse(points))`, a stable sort. */
  function SortByPoints(cs: seq<Comment>): (r: seq<Comment>)
    ensures |r| == |cs|
  {
    Sort(cs, NoFewerPoints)
  }

  predicate Descending(cs: seq<Comment>) {
    forall i :: 0 <= i < |cs| - 1 ==> cs[i].Score() >= cs[i + 1].Score()
  }

  lemma DescendingCons(c: Comment, cs: seq<Comment>)
    requires Descending(cs) && (cs != [] ==> c.Score() >= cs[0].Score())
    ensures Descending([c] + cs)
  {
    var r := [c] + cs;
    assert forall i :: 0 <= i < |cs| ==> r[i + 1] == cs[i];
  }

  /** By falling points, and those of equal points as the platform sent them. */
  lemma ByPoints(cs: seq<Comment>, t: Comment)
    ensures Descending(SortByPoints(cs))
    ensures multiset(SortByPoints(cs)) == multiset(cs)
    ensures Ties(SortByPoints(cs), t, NoFewerPoints) == Ties(cs, t, NoFewerPoints)
    ensures Descending(cs) ==> SortByPoints(cs) == cs
  {
    SortSorts(cs, t, NoFewerPoints);
    if Descending(cs) {
      DescendingIsSorted(cs);
      SortedStays(cs, NoFewerPoints);
    }
  }

  lemma {:induction false} DescendingIsSorted(cs: seq<Comment>)
    requires Descending(cs)
    ensures Sorted(cs, NoFewerPoints)
  {
    if |cs| > 1 {
      var rest := cs[1..];
      assert forall i :: 0 <= i < |rest| ==> rest[i] == cs[i + 1];
      DescendingIsSorted(rest);
      forall i, j | 0 <= i < j < |cs| ensures NoFewerPoints(cs[i], cs[j]) {
        if i == 0 && j > 1 {
          assert NoFewerPoints(rest[0], rest[j - 1]);
        } else if i > 0 {
          assert NoFewerPoints(rest[i - 1], rest[j - 1]);
        }
      }
    }
  }

  // -------------------------------------------------------------------------
  // trim_to_budget
  // -------------------------------------------------------------------------

  /** What a comment body costs. The chapter counts words; nothing here depends on how. */
  type Pricing = string -> nat

  function Cost(cs: seq<Comment>, price: Pricing): nat {
    if cs == [] then 0 else price(cs[0].text) + Cost(cs[0].children, price) + Cost(cs[1..], price)
  }

  /** Keep comments in render order while they fit; a level stops at the first that
      does not, but the levels above it go on with what is left. */
  function TrimForest(cs: seq<Comment>, budget: nat, price: Pricing): (r: (seq<Comment>, nat))
    ensures r.1 <= budget && |r.0| <= |cs|
  {
    if cs == [] || price(cs[0].text) > budget then ([], budget)
    else
      var (children, left) := TrimForest(cs[0].children, budget - price(cs[0].text), price);
      var (rest, end) := TrimForest(cs[1..], left, price);
      ([cs[0].(children := children)] + rest, end)
  }

  method TrimToBudget(comments: seq<Comment>, budget: nat, price: Pricing) returns (kept: seq<Comment>, left: nat)
    ensures (kept, left) == TrimForest(comments, budget, price)
    decreases comments
  {
    kept, left := [], budget;
    var i := 0;
    assert comments[0..] == comments;
    while i < |comments|
      invariant 0 <= i <= |comments|
      invariant kept + TrimForest(comments[i..], left, price).0 == TrimForest(comments, budget, price).0
      invariant TrimForest(comments[i..], left, price).1 == TrimForest(comments, budget, price).1
    {
      var comment := comments[i];
      var cost := price(comment.text);
      if cost > left {
        assert TrimForest(comments[i..], left, price) == ([], left);
        assert kept + [] == kept;
        return;
      }
      assert comments[i..][1..] == comments[i + 1..];
      var children, rest := TrimToBudget(comment.children, left - cost, price);
      ghost var after := TrimForest(comments[i + 1..], rest, price).0;
      assert kept + ([comment.(children := children)] + after) == (kept + [comment.(children := children)]) + after;
      kept := kept + [comment.(children := children)];
      left := rest;
      i := i + 1;
    }
    assert TrimForest([], left, price) == ([], left) && kept + [] == kept;
  }

  /** `kept` is what is left of `cs` when each level keeps a prefix of its siblings. */
  predicate PrefixForest(kept: seq<Comment>, cs: seq<Comment>) {
    kept == []
    || (cs != []
        && kept[0] == cs[0].(children := kept[0].children)
        && PrefixForest(kept[0].children, cs[0].children)
        && PrefixForest(kept[1..], cs[1..]))
  }

  /** No word is lost: what is kept and what is left of the budget add up to it,
      and every level keeps a prefix of its siblings. */
  lemma {:induction false} TrimConserves(cs: seq<Comment>, budget: nat, price: Pricing)
    ensures Cost(TrimForest(cs, budget, price).0, price) + TrimForest(cs, budget, price).1 == budget
    ensures PrefixForest(TrimForest(cs, budget, price).0, cs)
  {
    if cs != [] && price(cs[0].text) <= budget {
      var (children, left) := TrimForest(cs[0].children, budget - price(cs[0].text), price);
      TrimConserves(cs[0].children, budget - price(cs[0].text), price);
      TrimConserves(cs[1..], left, price);
      var kept := TrimForest(cs, budget, price).0;
      assert kept[1..] == TrimForest(cs[1..], left, price).0;
    }
  }

  lemma {:induction false} TrimWhole(cs: seq<Comment>, budget: nat, price: Pricing)
    requires Cost(cs, price) <= budget
    ensures TrimForest(cs, budget, price) == (cs, budget - Cost(cs, price))
  {
    if cs != [] {
      TrimWhole(cs[0].children, budget - price(cs[0].text), price);
      TrimWhole(cs[1..], budget - price(cs[0].text) - Cost(cs[0].children, price), price);
      assert [cs[0]] + cs[1..] == cs;
    }
  }

  /** A forest comes through unchanged exactly when it fits. */
  lemma TrimKeepsWhatFits(cs: seq<Comment>, budget: nat, price: Pricing)
    ensures TrimForest(cs, budget, price).0 == cs <==> Cost(cs, price) <= budget
    ensures Cost(cs, price) <= budget ==> TrimForest(cs, budget, price) == (cs, budget - Cost(cs, price))
  {
    if Cost(cs, price) <= budget {
      TrimWhole(cs, budget, price);
    } else {
      TrimConserves(cs, budget, price);
    }
  }

  /** A level stops early only for want of words: the first comment it drops costs
      more than what is left at the end. */
  lemma {:induction false} TrimStopsOnlyWhenFull(cs: seq<Comment>, budget: nat, price: Pricing)
    ensures var (kept, left) := TrimForest(cs, budget, price);
            |kept| < |cs| ==> price(cs[|kept|].text) > left
  {
    if cs != [] && price(cs[0].text) <= budget {
      var left := TrimForest(cs[0].children, budget - price(cs[0].text), price).1;
      TrimStopsOnlyWhenFull(cs[1..], left, price);
    }
  }

  lemma TrimIsIdempotent(cs: seq<Comment>, budget: nat, price: Pricing)
    ensures TrimForest(TrimForest(cs, budget, price).0, budget, price).0 == TrimForest(cs, budget, price).0
  {
    TrimConserves(cs, budget, price);
    TrimKeepsWhatFits(TrimForest(cs, budget, price).0, budget, price);
  }

  // -------------------------------------------------------------------------
  // enforce_chapter_budget
  // -------------------------------------------------------------------------

  datatype Thread = Thread(itemUrl: string, totalComments: int, comments: seq<Comment>)

  /** One budget for all threads, in order. */
  function TrimThreads(threads: seq<Thread>, budget: nat, price: Pricing): (r: (seq<Thread>, nat))
    ensures |r.0| == |threads|
  {
    if threads == [] then ([], budget)
    else
      var (kept, left) := TrimForest(threads[0].comments, budget, price);
      var (rest, end) := TrimThreads(threads[1..], left, price);
      ([threads[0].(comments := kept)] + rest, end)
  }

  /** `retain(|t| !t.comments.is_empty())`. */
  function NonEmpty(threads: seq<Thread>): seq<Thread> {
    if threads == [] then []
    else (if threads[0].comments != [] then [threads[0]] else []) + NonEmpty(threads[1..])
  }

  function Enforced(threads: seq<Thread>, price: Pricing): seq<Thread> {
    NonEmpty(TrimThreads(threads, MAX_CHAPTER_WORDS, price).0)
  }

  method EnforceChapterBudget(threads: seq<Thread>, price: Pricing) returns (result: seq<Thread>)
    ensures result == Enforced(threads, price)
  {
    var budget: nat := MAX_CHAPTER_WORDS;
    var trimmed: seq<Thread> := [];
    assert threads[0..] == threads;
    for i := 0 to |threads|
      invariant trimmed + TrimThreads(threads[i..], budget, price).0 == TrimThreads(threads, MAX_CHAPTER_WORDS, price).0
    {
      assert threads[i..][1..] == threads[i + 1..];
      var kept, left := TrimToBudget(threads[i].comments, budget, price);
      ghost var rest := TrimThreads(threads[i + 1..], left, price).0;
      assert trimmed + ([threads[i].(comments := kept)] + rest) == (trimmed + [threads[i].(comments := kept)]) + rest;
      trimmed := trimmed + [threads[i].(comments := kept)];
      budget := left;
    }
    assert trimmed + [] == trimmed;
    result := NonEmpty(trimmed);
  }

  function ThreadsCost(threads: seq<Thread>, price: Pricing): nat {
    if threads == [] then 0 else Cost(threads[0].comments, price) + ThreadsCost(threads[1..], price)
  }

  lemma {:induction false} NonEmptyKeepsCost(threads: seq<Thread>, price: Pricing)
    ensures ThreadsCost(NonEmpty(threads), price) == ThreadsCost(threads, price)
    ensures forall t :: t in NonEmpty(threads) ==> t.comments != []
  {
    if threads != [] {
      NonEmptyKeepsCost(threads[1..], price);
      var rest := NonEmpty(threads[1..]);
      assert ([threads[0]] + rest)[1..] == rest && [] + rest == rest;
    }
  }

  lemma {:induction false} TrimThreadsConserves(threads: seq<Thread>, budget: nat, price: Pricing)
    ensures ThreadsCost(TrimThreads(threads, budget, price).0, price) + TrimThreads(threads, budget, price).1 == budget
    ensures ThreadsCost(threads, price) <= budget ==> TrimThreads(threads, budget, price).0 == threads
  {
    if threads != [] {
      var (kept, left) := TrimForest(threads[0].comments, budget, price);
      TrimConserves(threads[0].comments, budget, price);
      TrimKeepsWhatFits(threads[0].comments, budget, price);
      TrimThreadsConserves(threads[1..], left, price);
      var r := TrimThreads(threads, budget, price).0;
      assert r[1..] == TrimThreads(threads[1..], left, price).0;
    }
  }

  lemma {:induction false} NonEmptyStays(threads: seq<Thread>)
    requires forall t :: t in threads ==> t.comments != []
    ensures NonEmpty(threads) == threads
  {
    if threads != [] {
      assert threads[0] in threads;
      NonEmptyStays(threads[1..]);
    }
  }

  /** A chapter never exceeds its word cap and lists no empty thread; threads that
      have comments and fit together are left alone, so enforcing twice is enforcing once. */
  lemma ChapterBudgetHolds(threads: seq<Thread>, price: Pricing)
    ensures ThreadsCost(Enforced(threads, price), price) <= MAX_CHAPTER_WORDS
    ensures forall t :: t in Enforced(threads, price) ==> t.comments != []
    ensures ThreadsCost(threads, price) <= MAX_CHAPTER_WORDS && (forall t :: t in threads ==> t.comments != [])
        ==> Enforced(threads, price) == threads
    ensures Enforced(Enforced(threads, price), price) == Enforced(threads, price)
  {
    TrimThreadsConserves(threads, MAX_CHAPTER_WORDS, price);
    var trimmed := TrimThreads(threads, MAX_CHAPTER_WORDS, price).0;
    NonEmptyKeepsCost(trimmed, price);
    if forall t :: t in threads ==> t.comments != [] { NonEmptyStays(threads); }
    TrimThreadsConserves(Enforced(threads, price), MAX_CHAPTER_WORDS, price);
    NonEmptyStays(Enforced(threads, price));
  }
}
