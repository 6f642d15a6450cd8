/** Whose words the readers of `src/comments.rs` put where: each comment of a forest is
    told by the way to it, and compared with the nodes of the source. */
module CommentTrails {
  import opened Text
  import opened CommentForest
  import opened CommentSources
  import opened Sorting

  /** The comments on the way to a comment, itself included, each without its replies. */
  type Trail = seq<Comment>

  function Step(above: Trail, c: Comment): Trail { above + [c.(children := [])] }

  /** The ways to all comments of a forest that hangs below `above`. */
  function Trails(forest: seq<Comment>, above: Trail): multiset<Trail> {
    if forest == [] then multiset{}
    else
      var way := Step(above, forest[0]);
      multiset{way} + Trails(forest[0].children, way) + Trails(forest[1..], above)
  }

  lemma TrailsOfOne(c: Comment, above: Trail)
    ensures Trails([c], above) == multiset{Step(above, c)} + Trails(c.children, Step(above, c))
  {
    assert [c][1..] == [] && Trails([], above) == multiset{};
  }

  lemma {:induction false} TrailsConcat(a: seq<Comment>, b: seq<Comment>, above: Trail)
    ensures Trails(a + b, above) == Trails(a, above) + Trails(b, above)
  {
    if a == [] {
      assert a + b == b;
    } else {
      assert (a + b)[0] == a[0] && (a + b)[1..] == a[1..] + b;
      TrailsConcat(a[1..], b, above);
    }
  }

  lemma TrailsCons(c: Comment, rest: seq<Comment>, above: Trail)
    ensures Trails([c] + rest, above) == Trails([c], above) + Trails(rest, above)
  {
    TrailsConcat([c], rest, above);
  }

  lemma {:induction false} TrailsOfInsert(c: Comment, sorted: seq<Comment>, above: Trail)
    ensures Trails(Insert(c, sorted, NoFewerPoints), above) == Trails([c], above) + Trails(sorted, above)
  {
    if sorted == [] || NoFewerPoints(c, sorted[0]) {
      TrailsCons(c, sorted, above);
    } else {
      var first, rest := sorted[0], sorted[1..];
      TrailsOfInsert(c, rest, above);
      TrailsCons(first, Insert(c, rest, NoFewerPoints), above);
      TrailsCons(first, rest, above);
      assert sorted == [first] + rest;
    }
  }

  /** Sorting siblings moves no comment to another parent. */
  lemma {:induction false} TrailsOfSort(cs: seq<Comment>, above: Trail)
    ensures Trails(SortByPoints(cs), above) == Trails(cs, above)
  {
    if cs != [] {
      TrailsOfSort(cs[1..], above);
      TrailsOfInsert(cs[0], SortByPoints(cs[1..]), above);
      TrailsCons(cs[0], cs[1..], above);
      assert cs == [cs[0]] + cs[1..];
    }
  }

  lemma {:induction false} TrailsCount(forest: seq<Comment>, above: Trail)
    ensures |Trails(forest, above)| == Size(forest)
  {
    if forest != [] {
      TrailsCount(forest[0].children, Step(above, forest[0]));
      TrailsCount(forest[1..], above);
    }
  }

  /** Siblings fall in points, at every level. */
  predicate FallingPoints(forest: seq<Comment>)
    decreases forest, 1
  {
    Descending(forest) && RepliesFall(forest)
  }

  predicate RepliesFall(forest: seq<Comment>)
    decreases forest, 0
  {
    forall i :: 0 <= i < |forest| ==> FallingPoints(forest[i].children)
  }

  lemma SortedFalls(cs: seq<Comment>)
    requires RepliesFall(cs)
    ensures FallingPoints(SortByPoints(cs))
  {
    var sorted := SortByPoints(cs);
    ByPoints(cs, Comment("", None, "", 0, []));
    forall i | 0 <= i < |sorted| ensures FallingPoints(sorted[i].children) {
      SortKeepsMembers(cs, NoFewerPoints, sorted[i]);
      assert sorted[i] in cs;
    }
  }

  // -------------------------------------------------------------------------
  // Hacker News
  // -------------------------------------------------------------------------

  /** The ways to the live nodes: through live nodes only, each as a comment with the
      author, the points, the cleaned text and the depth of the node. */
  function LiveTrails(vs: seq<HnNode>, depth: nat, above: Trail, clean: Sanitizer): multiset<Trail> {
    if vs == [] then multiset{}
    else
      match vs[0]
      case HnNode(Some(text), Some(author), points, replies) =>
        if text != "" && author != "" then
          var way := above + [Comment(author, points, clean(text), depth, [])];
          multiset{way} + LiveTrails(replies, depth + 1, way, clean) + LiveTrails(vs[1..], depth, above, clean)
        else LiveTrails(replies, depth + 1, above, clean) + LiveTrails(vs[1..], depth, above, clean)
      case HnNode(_, _, _, replies) =>
        LiveTrails(replies, depth + 1, above, clean) + LiveTrails(vs[1..], depth, above, clean)
  }

  /** The same for one node of the list. */
  function NodeTrails(v: HnNode, depth: nat, above: Trail, clean: Sanitizer): multiset<Trail> {
    if v.Dead() then LiveTrails(v.children, depth + 1, above, clean)
    else
      var way := above + [Comment(v.author.value, v.points, clean(v.text.value), depth, [])];
      multiset{way} + LiveTrails(v.children, depth + 1, way, clean)
  }

  lemma LiveTrailsUnfold(vs: seq<HnNode>, depth: nat, above: Trail, clean: Sanitizer)
    requires vs != []
    ensures LiveTrails(vs, depth, above, clean)
         == NodeTrails(vs[0], depth, above, clean) + LiveTrails(vs[1..], depth, above, clean)
  {
  }

  lemma {:induction false} LiveTrailsCount(vs: seq<HnNode>, depth: nat, above: Trail, clean: Sanitizer)
    ensures |LiveTrails(vs, depth, above, clean)| == Live(vs)
  {
    if vs != [] {
      var v := vs[0];
      LiveTrailsUnfold(vs, depth, above, clean);
      LiveTrailsCount(vs[1..], depth, above, clean);
      LiveTrailsCount(v.children, depth + 1, above, clean);
      if !v.Dead() {
        var way := above + [Comment(v.author.value, v.points, clean(v.text.value), depth, [])];
        LiveTrailsCount(v.children, depth + 1, way, clean);
      }
    }
  }

  /** The forest of a node list, as a function of what one node yields. */
  lemma {:induction false} HnTrailsAreLive(vs: seq<HnNode>, depth: nat, above: Trail, clean: Sanitizer)
    ensures Trails(HnComments(vs, depth, clean), above) <= LiveTrails(vs, depth, above, clean)
    decreases vs, 1
  {
    if vs != [] {
      var head := match HnComment(vs[0], depth, clean) case Some(c) => [c] case None => [];
      HnNodeIsLive(vs[0], depth, above, clean);
      HnTrailsAreLive(vs[1..], depth, above, clean);
      TrailsConcat(head, HnComments(vs[1..], depth, clean), above);
      LiveTrailsUnfold(vs, depth, above, clean);
    }
  }

  lemma {:induction false} HnNodeIsLive(v: HnNode, depth: nat, above: Trail, clean: Sanitizer)
    ensures var head := match HnComment(v, depth, clean) case Some(c) => [c] case None => [];
            Trails(head, above) <= NodeTrails(v, depth, above, clean)
    decreases v, 0
  {
    var kids := HnComments(v.children, depth + 1, clean);
    if v.Dead() {
      HnTrailsAreLive(v.children, depth + 1, above, clean);
      FirstTrails(kids, above);
    } else {
      var bare := Comment(v.author.value, v.points, clean(v.text.value), depth, []);
      HnTrailsAreLive(v.children, depth + 1, above + [bare], clean);
      SortedUnder(bare, kids, above);
    }
  }

  lemma FirstTrails(kids: seq<Comment>, above: Trail)
    ensures Trails(if kids == [] then [] else [kids[0]], above) <= Trails(kids, above)
  {
    if kids != [] {
      TrailsCons(kids[0], kids[1..], above);
      assert kids == [kids[0]] + kids[1..];
    }
  }

  lemma SortedUnder(bare: Comment, kids: seq<Comment>, above: Trail)
    requires bare.children == []
    ensures Trails([bare.(children := SortByPoints(kids))], above)
         == multiset{above + [bare]} + Trails(kids, above + [bare])
  {
    var c := bare.(children := SortByPoints(kids));
    TrailsOfSort(kids, above + [bare]);
    TrailsOfOne(c, above);
    assert c.(children := []) == bare;
  }

  lemma {:induction false} HnRepliesFall(vs: seq<HnNode>, depth: nat, clean: Sanitizer)
    ensures RepliesFall(HnComments(vs, depth, clean))
    decreases vs, 1
  {
    if vs != [] {
      HnNodeFalls(vs[0], depth, clean);
      HnRepliesFall(vs[1..], depth, clean);
    }
  }

  lemma {:induction false} HnNodeFalls(v: HnNode, depth: nat, clean: Sanitizer)
    ensures HnComment(v, depth, clean).Some? ==> FallingPoints(HnComment(v, depth, clean).value.children)
    decreases v, 0
  {
    HnRepliesFall(v.children, depth + 1, clean);
    SortedFalls(HnComments(v.children, depth + 1, clean));
  }

  /** Every comment of a thread stands for a live node of its own: its author, points and
      cleaned text are those of the node, and it hangs below the comments of the live
      nodes above that, siblings by falling points. No node is left out exactly if no dead
      one has two live replies. */
  lemma HnTellsWhoSaidWhat(vs: seq<HnNode>, clean: Sanitizer)
    ensures var forest := SortByPoints(HnComments(vs, 0, clean));
            && FallingPoints(forest) && Trails(forest, []) <= LiveTrails(vs, 0, [], clean)
            && (Trails(forest, []) == LiveTrails(vs, 0, [], clean) <==> Lossless(vs))
  {
    var forest := HnComments(vs, 0, clean);
    HnRepliesFall(vs, 0, clean);
    SortedFalls(forest);
    TrailsOfSort(forest, []);
    HnTrailsAreLive(vs, 0, [], clean);
    TrailsCount(forest, []);
    LiveTrailsCount(vs, 0, [], clean);
    HnKeepsAtMostLive(vs, 0, clean);
    SameWhenAsMany(Trails(forest, []), LiveTrails(vs, 0, [], clean));
  }

  lemma SameWhenAsMany(a: multiset<Trail>, b: multiset<Trail>)
    requires a <= b
    ensures a == b <==> |a| == |b|
  {
    assert b == a + (b - a);
  }

  // -------------------------------------------------------------------------
  // Reddit
  // -------------------------------------------------------------------------

  /** The ways to the nodes that are comments with an author who is not deleted and a body,
      below nodes of that kind. */
  function SaidTrails(vs: seq<RedditNode>, depth: nat, above: Trail, clean: Sanitizer): multiset<Trail> {
    if vs == [] then multiset{}
    else
      match vs[0]
      case Other => SaidTrails(vs[1..], depth, above, clean)
      case T1(author, body, score, replies) =>
        if author != "" && author != "[deleted]" && body != "" then
          var way := above + [Comment(author, score, clean(body), depth, [])];
          multiset{way} + SaidTrails(replies, depth + 1, way, clean) + SaidTrails(vs[1..], depth, above, clean)
        else SaidTrails(vs[1..], depth, above, clean)
  }

  lemma {:induction false} RedditTrailsAreSaid(vs: seq<RedditNode>, depth: nat, above: Trail, clean: Sanitizer)
    ensures Trails(RedditComments(vs, depth, clean), above) == SaidTrails(vs, depth, above, clean)
  {
    if vs != [] {
      var v, rest := vs[0], RedditComments(vs[1..], depth, clean);
      RedditTrailsAreSaid(vs[1..], depth, above, clean);
      if v.Dropped() {
        assert [] + rest == rest;
      } else {
        var bare := Comment(v.author, v.score, clean(v.body), depth, []);
        var kids := RedditComments(v.replies, depth + 1, clean);
        RedditTrailsAreSaid(v.replies, depth + 1, above + [bare], clean);
        SortedUnder(bare, kids, above);
        TrailsCons(bare.(children := SortByPoints(kids)), rest, above);
      }
    }
  }

  lemma {:induction false} RedditRepliesFall(vs: seq<RedditNode>, depth: nat, clean: Sanitizer)
    ensures RepliesFall(RedditComments(vs, depth, clean))
    decreases vs, 1
  {
    if vs != [] {
      var v := vs[0];
      RedditRepliesFall(vs[1..], depth, clean);
      if !v.Dropped() {
        RedditRepliesFall(v.replies, depth + 1, clean);
        SortedFalls(RedditComments(v.replies, depth + 1, clean));
      }
    }
  }

  /** Here every such node becomes a comment, and no other does. */
  lemma RedditTellsWhoSaidWhat(vs: seq<RedditNode>, clean: Sanitizer)
    ensures var forest := SortByPoints(RedditComments(vs, 0, clean));
            FallingPoints(forest) && Trails(forest, []) == SaidTrails(vs, 0, [], clean)
  {
    RedditRepliesFall(vs, 0, clean);
    SortedFalls(RedditComments(vs, 0, clean));
    TrailsOfSort(RedditComments(vs, 0, clean), []);
    RedditTrailsAreSaid(vs, 0, [], clean);
  }
}
