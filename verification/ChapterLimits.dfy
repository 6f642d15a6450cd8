/** `truncate` and `prune_node` in `src/comments.rs`: the limits of a discussion chapter. */
module ChapterLimits {
  import opened Text
  import opened CommentText
  import opened CommentForest
  import opened Sorting

  const MAX_TOP_LEVEL := 8
  const MAX_DEPTH := 3
  const MAX_CHILDREN := 4
  const MAX_COMMENT_CHARS := 1200

  // -------------------------------------------------------------------------
  // prune_node, for any way of cutting a body
  // -------------------------------------------------------------------------

  /** How a body is cut, and which bodies come through the cut as they are. */
  datatype Cutter = Cutter(cut: string -> string, fits: string -> bool) {
    ghost predicate Valid() {
      forall s :: fits(cut(s)) && (cut(s) == "" <==> s == "") && (fits(s) ==> cut(s) == s)
    }
  }

  function LevelsLeft(depth: nat): nat { if depth < MAX_DEPTH then MAX_DEPTH - depth else 0 }

  function PruneNode(c: Comment, depth: nat, k: Cutter): Comment
    decreases LevelsLeft(depth), 0
  {
    var cut := c.(depth := depth, text := k.cut(c.text));
    if depth + 1 >= MAX_DEPTH then cut.(children := [])
    else cut.(children := PruneAll(Take(SortByPoints(c.children), MAX_CHILDREN), depth + 1, k))
  }

  /** `map(prune_node)` and then `filter(text is not empty)`. */
  function PruneAll(cs: seq<Comment>, depth: nat, k: Cutter): (r: seq<Comment>)
    ensures |r| <= |cs|
    decreases LevelsLeft(depth), 1, |cs|
  {
    if cs == [] then []
    else
      var c := PruneNode(cs[0], depth, k);
      if c.text == "" then PruneAll(cs[1..], depth, k) else [c] + PruneAll(cs[1..], depth, k)
  }

  function Pruned(cs: seq<Comment>, k: Cutter): seq<Comment> {
    PruneAll(Take(SortByPoints(cs), MAX_TOP_LEVEL), 0, k)
  }

  // -------------------------------------------------------------------------
  // The shape of a pruned forest
  // -------------------------------------------------------------------------

  /** The limits of section 3.7 of the project's spec, for a forest whose roots sit at `depth`. */
  predicate Shaped(cs: seq<Comment>, depth: nat, width: nat, k: Cutter) {
    && |cs| <= width
    && Descending(cs)
    && (cs != [] ==> depth < MAX_DEPTH)
    && forall i :: 0 <= i < |cs| ==> ShapedComment(cs[i], depth, k)
  }

  predicate ShapedComment(c: Comment, depth: nat, k: Cutter) {
    c.depth == depth && c.text != "" && k.fits(c.text) && Shaped(c.children, depth + 1, MAX_CHILDREN, k)
  }

  lemma ShapedCons(c: Comment, rest: seq<Comment>, depth: nat, width: nat, k: Cutter)
    requires width > 0 && Shaped(rest, depth, width - 1, k) && ShapedComment(c, depth, k) && depth < MAX_DEPTH
    requires rest != [] ==> c.Score() >= rest[0].Score()
    ensures Shaped([c] + rest, depth, width, k)
  {
    DescendingCons(c, rest);
  }

  lemma ShapedUncons(cs: seq<Comment>, depth: nat, width: nat, k: Cutter)
    requires Shaped(cs, depth, width, k) && cs != []
    ensures width > 0 && Shaped(cs[1..], depth, width - 1, k) && ShapedComment(cs[0], depth, k) && depth < MAX_DEPTH
    ensures |cs| > 1 ==> cs[0].Score() >= cs[1..][0].Score()
  {
    var tail := cs[1..];
    assert forall i :: 0 <= i < |tail| ==> tail[i] == cs[i + 1];
  }

  lemma {:induction false} PruneNodeShapes(c: Comment, depth: nat, k: Cutter)
    requires k.Valid() && depth < MAX_DEPTH
    ensures var p := PruneNode(c, depth, k);
            && p.Score() == c.Score() && (p.text == "" <==> c.text == "")
            && (p.text != "" ==> ShapedComment(p, depth, k))
    decreases LevelsLeft(depth), 0
  {
    if depth + 1 < MAX_DEPTH {
      ByPoints(c.children, c);
      PruneAllShapes(Take(SortByPoints(c.children), MAX_CHILDREN), depth + 1, MAX_CHILDREN, k);
    }
  }

  lemma {:induction false} PruneAllShapes(cs: seq<Comment>, depth: nat, width: nat, k: Cutter)
    requires k.Valid() && depth < MAX_DEPTH && Descending(cs) && |cs| <= width
    ensures Shaped(PruneAll(cs, depth, k), depth, width, k)
    ensures cs != [] && PruneAll(cs, depth, k) != [] ==> PruneAll(cs, depth, k)[0].Score() <= cs[0].Score()
    decreases LevelsLeft(depth), 1, |cs|
  {
    if cs != [] {
      PruneNodeShapes(cs[0], depth, k);
      assert |cs| > 1 ==> cs[1..][0] == cs[1];
      PruneAllShapes(cs[1..], depth, width - 1, k);
      if cs[0].text != "" {
        ShapedCons(PruneNode(cs[0], depth, k), PruneAll(cs[1..], depth, k), depth, width, k);
      }
    }
  }

  /** Pruning leaves a forest alone that is within the limits already. */
  lemma {:induction false} PruneKeepsShaped(cs: seq<Comment>, depth: nat, width: nat, k: Cutter)
    requires k.Valid() && Shaped(cs, depth, width, k)
    ensures PruneAll(cs, depth, k) == cs && Take(SortByPoints(cs), width) == cs
    decreases cs
  {
    if cs != [] {
      ByPoints(cs, cs[0]);
      ShapedUncons(cs, depth, width, k);
      PruneKeepsShaped(cs[0].children, depth + 1, MAX_CHILDREN, k);
      assert PruneNode(cs[0], depth, k) == cs[0];
      PruneKeepsShaped(cs[1..], depth, width - 1, k);
    }
  }

  lemma {:induction false} TrimKeepsShape(cs: seq<Comment>, budget: nat, price: Pricing, depth: nat, width: nat,
                                          k: Cutter)
    requires Shaped(cs, depth, width, k)
    ensures Shaped(TrimForest(cs, budget, price).0, depth, width, k)
    ensures TrimForest(cs, budget, price).0 != [] ==>
              cs != [] && TrimForest(cs, budget, price).0[0].Score() == cs[0].Score()
    decreases cs
  {
    if cs != [] && price(cs[0].text) <= budget {
      ShapedUncons(cs, depth, width, k);
      var (children, left) := TrimForest(cs[0].children, budget - price(cs[0].text), price);
      TrimKeepsShape(cs[0].children, budget - price(cs[0].text), price, depth + 1, MAX_CHILDREN, k);
      TrimKeepsShape(cs[1..], left, price, depth, width - 1, k);
      ShapedCons(cs[0].(children := children), TrimForest(cs[1..], left, price).0, depth, width, k);
    }
  }

  /** No body is dropped but an empty one: when none is empty, the roots of the
      result are the first ones in the stable order, each pruned on its own. */
  lemma {:induction false} PruneDropsOnlyEmpty(cs: seq<Comment>, depth: nat, k: Cutter)
    requires k.Valid() && depth < MAX_DEPTH
    requires forall i :: 0 <= i < |cs| ==> cs[i].text != ""
    ensures |PruneAll(cs, depth, k)| == |cs|
    ensures forall i :: 0 <= i < |cs| ==>
              var p := PruneAll(cs, depth, k)[i];
              p.author == cs[i].author && p.points == cs[i].points && p.text == k.cut(cs[i].text)
  {
    if cs != [] {
      PruneNodeShapes(cs[0], depth, k);
      PruneDropsOnlyEmpty(cs[1..], depth, k);
    }
  }

  // --- Sizes -----------------------------------------------------------------

  /** The most comments a level of `width` siblings at `depth` can hold, replies included. */
  function MaxSize(depth: nat, width: nat): nat
    decreases LevelsLeft(depth), width
  {
    if depth >= MAX_DEPTH || width == 0 then 0
    else 1 + MaxSize(depth + 1, MAX_CHILDREN) + MaxSize(depth, width - 1)
  }

  lemma {:induction false} ShapedIsSmall(cs: seq<Comment>, depth: nat, width: nat, k: Cutter)
    requires Shaped(cs, depth, width, k)
    ensures Size(cs) <= MaxSize(depth, width)
    decreases cs
  {
    if cs != [] {
      ShapedUncons(cs, depth, width, k);
      ShapedIsSmall(cs[0].children, depth + 1, MAX_CHILDREN, k);
      ShapedIsSmall(cs[1..], depth, width - 1, k);
      assert MaxSize(depth, width) == 1 + MaxSize(depth + 1, MAX_CHILDREN) + MaxSize(depth, width - 1);
    }
  }

  lemma FullForest()
    ensures MaxSize(0, MAX_TOP_LEVEL) == 168
  {
    assert MaxSize(2, 1) == 1 && MaxSize(2, 2) == 2 && MaxSize(2, 3) == 3 && MaxSize(2, 4) == 4;
    assert MaxSize(1, 1) == 5 && MaxSize(1, 2) == 10 && MaxSize(1, 3) == 15 && MaxSize(1, 4) == 20;
    assert MaxSize(0, 1) == 21 && MaxSize(0, 2) == 42 && MaxSize(0, 3) == 63 && MaxSize(0, 4) == 84;
    assert MaxSize(0, 5) == 105 && MaxSize(0, 6) == 126 && MaxSize(0, 7) == 147;
  }

  // -------------------------------------------------------------------------
  // truncate: the main results
  // -------------------------------------------------------------------------

  function CutBody(html: string): string { Ellipsize(html, MAX_COMMENT_CHARS) }

  /** At most 1201 visible characters, and cutting it again changes nothing. */
  predicate FitsBody(html: string) {
    |StripTags(html)| <= MAX_COMMENT_CHARS + 1 && CutBody(html) == html
  }

  const BODY := Cutter(CutBody, FitsBody)

  function Truncate(cs: seq<Comment>): seq<Comment> {
    TrimForest(Pruned(cs, BODY), MAX_CHAPTER_WORDS, WordCount).0
  }

  lemma BodyCutterIsValid()
    ensures BODY.Valid()
  {
    forall s ensures FitsBody(CutBody(s)) && (CutBody(s) == "" <==> s == "") {
      EllipsizedIsShort(s, MAX_COMMENT_CHARS);
      EllipsizeIsIdempotent(s, MAX_COMMENT_CHARS);
      EllipsizeKeepsNonEmpty(s, MAX_COMMENT_CHARS);
    }
  }

  lemma TruncateShapes(cs: seq<Comment>, k: Cutter, price: Pricing)
    requires k.Valid()
    ensures var kept := TrimForest(Pruned(cs, k), MAX_CHAPTER_WORDS, price).0;
            Shaped(kept, 0, MAX_TOP_LEVEL, k) && Size(kept) <= 168 && Cost(kept, price) <= MAX_CHAPTER_WORDS
    ensures TrimForest(Pruned(cs, k), MAX_CHAPTER_WORDS, price).0 == cs
       <==> Shaped(cs, 0, MAX_TOP_LEVEL, k) && Cost(cs, price) <= MAX_CHAPTER_WORDS
  {
    var pruned := Pruned(cs, k);
    var kept := TrimForest(pruned, MAX_CHAPTER_WORDS, price).0;
    ByPoints(cs, Comment("", None, "", 0, []));
    PruneAllShapes(Take(SortByPoints(cs), MAX_TOP_LEVEL), 0, MAX_TOP_LEVEL, k);
    TrimKeepsShape(pruned, MAX_CHAPTER_WORDS, price, 0, MAX_TOP_LEVEL, k);
    ShapedIsSmall(kept, 0, MAX_TOP_LEVEL, k);
    FullForest();
    TrimConserves(pruned, MAX_CHAPTER_WORDS, price);
    if Shaped(cs, 0, MAX_TOP_LEVEL, k) && Cost(cs, price) <= MAX_CHAPTER_WORDS {
      PruneKeepsShaped(cs, 0, MAX_TOP_LEVEL, k);
      TrimKeepsWhatFits(cs, MAX_CHAPTER_WORDS, price);
    }
  }

  /** Whatever a platform returns, the chapter keeps at most 8 threads, 4 replies to
      a comment, 3 levels, 168 comments, 4000 words and 1201 visible characters a
      comment; siblings fall in points and `depth` is the nesting depth. */
  lemma TruncateHoldsTheLimits(cs: seq<Comment>)
    ensures Shaped(Truncate(cs), 0, MAX_TOP_LEVEL, BODY)
    ensures Size(Truncate(cs)) <= 168
    ensures Cost(Truncate(cs), WordCount) <= MAX_CHAPTER_WORDS
  {
    BodyCutterIsValid();
    TruncateShapes(cs, BODY, WordCount);
  }

  /** A forest within the limits is not touched, and no other forest is left as it was. */
  lemma TruncateFixesExactlyTheLimits(cs: seq<Comment>)
    ensures Truncate(cs) == cs
       <==> Shaped(cs, 0, MAX_TOP_LEVEL, BODY) && Cost(cs, WordCount) <= MAX_CHAPTER_WORDS
  {
    BodyCutterIsValid();
    TruncateShapes(cs, BODY, WordCount);
  }

  lemma TruncateIsIdempotent(cs: seq<Comment>)
    ensures Truncate(Truncate(cs)) == Truncate(cs)
  {
    TruncateHoldsTheLimits(cs);
    TruncateFixesExactlyTheLimits(Truncate(cs));
  }

  /** A lone thread that `truncate` has cut is not cut again by the chapter budget;
      it disappears only when nothing of it was kept. */
  lemma ChapterOfOneThread(t: Thread)
    ensures var cut := t.(comments := Truncate(t.comments));
            Enforced([cut], WordCount) == if cut.comments == [] then [] else [cut]
  {
    var cut := t.(comments := Truncate(t.comments));
    TruncateHoldsTheLimits(t.comments);
    OneThreadThatFits(cut, WordCount);
  }

  lemma OneThreadThatFits(t: Thread, price: Pricing)
    requires Cost(t.comments, price) <= MAX_CHAPTER_WORDS
    ensures Enforced([t], price) == if t.comments == [] then [] else [t]
  {
    assert [t][1..] == [] && ThreadsCost([], price) == 0 && NonEmpty([]) == [];
    assert ThreadsCost([t], price) == Cost(t.comments, price);
    TrimThreadsConserves([t], MAX_CHAPTER_WORDS, price);
    assert NonEmpty([t]) == if t.comments == [] then [] else [t];
  }
}
