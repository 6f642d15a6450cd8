/** Which comments `truncate` in `src/comments.rs` keeps, told from the points, the bodies
    and the word counts alone. */
module ChapterOrder {
  import opened Text
  import opened CommentText
  import opened CommentForest
  import opened ChapterLimits
  import opened Sorting

  // -------------------------------------------------------------------------
  // The first few by points
  // -------------------------------------------------------------------------

  /** Points that are not given count as none. */
  function Given(c: Comment): int { match c.points case Some(n) => n case None => 0 }

  /** Comment `i` goes before comment `j`: it has more points, or as many and came first. */
  predicate Ahead(cs: seq<Comment>, i: nat, j: nat) {
    && i < |cs| && j < |cs|
    && (Given(cs[i]) > Given(cs[j]) || (Given(cs[i]) == Given(cs[j]) && i < j))
  }

  /** `at` lists the first `width` comments of `cs` in that order, and no other list does. */
  predicate Leading(cs: seq<Comment>, width: nat, at: seq<nat>) {
    && |at| == (if |cs| <= width then |cs| else width)
    && (forall x :: 0 <= x < |at| ==> at[x] < |cs|)
    && (forall x, y :: 0 <= x < y < |at| ==> Ahead(cs, at[x], at[y]))
    && (forall i: nat, x :: i < |cs| && i !in at && 0 <= x < |at| ==> Ahead(cs, at[x], i))
  }

  predicate Within(order: seq<nat>, n: nat) { forall x :: 0 <= x < |order| ==> order[x] < n }

  /** The positions from `k` on, in the order of the comments there. */
  function Order(cs: seq<Comment>, k: nat): (order: seq<nat>)
    requires k <= |cs|
    ensures Within(order, |cs|) && |order| == |cs| - k
    decreases |cs| - k
  {
    if k == |cs| then [] else Entered(cs, k, Order(cs, k + 1))
  }

  function Entered(cs: seq<Comment>, k: nat, order: seq<nat>): (r: seq<nat>)
    requires k < |cs| && Within(order, |cs|)
    ensures Within(r, |cs|) && |r| == |order| + 1
    ensures forall i :: i in r <==> i == k || i in order
  {
    if order == [] || cs[k].Score() >= cs[order[0]].Score() then [k] + order
    else
      assert order == [order[0]] + order[1..];
      [order[0]] + Entered(cs, k, order[1..])
  }

  predicate Ranked(cs: seq<Comment>, order: seq<nat>) {
    forall x, y :: 0 <= x < y < |order| ==> Ahead(cs, order[x], order[y])
  }

  lemma {:induction false} EnteredRanks(cs: seq<Comment>, k: nat, order: seq<nat>)
    requires k < |cs| && Within(order, |cs|) && Ranked(cs, order) && forall i :: i in order ==> k < i
    ensures Ranked(cs, Entered(cs, k, order))
  {
    if order == [] || cs[k].Score() >= cs[order[0]].Score() {
      forall y | 0 <= y < |order| ensures Ahead(cs, k, order[y]) {
        assert order[y] in order && (y > 0 ==> Ahead(cs, order[0], order[y]));
      }
    } else {
      var first, rest := order[0], order[1..];
      assert forall x :: 0 <= x < |rest| ==> rest[x] == order[x + 1] && rest[x] in order;
      EnteredRanks(cs, k, rest);
      forall i | i in Entered(cs, k, rest) ensures Ahead(cs, first, i) {
        if i != k {
          var y :| 0 <= y < |rest| && rest[y] == i;
          assert order[y + 1] == i;
        }
      }
    }
  }

  lemma {:induction false} OrderRanks(cs: seq<Comment>, k: nat)
    requires k <= |cs|
    ensures Ranked(cs, Order(cs, k)) && forall i: nat :: i in Order(cs, k) <==> k <= i < |cs|
    decreases |cs| - k
  {
    if k < |cs| {
      OrderRanks(cs, k + 1);
      EnteredRanks(cs, k, Order(cs, k + 1));
    }
  }

  function At(cs: seq<Comment>, at: seq<nat>): (r: seq<Comment>)
    requires Within(at, |cs|)
    ensures |r| == |at| && forall x :: 0 <= x < |at| ==> r[x] == cs[at[x]]
  {
    seq(|at|, x requires 0 <= x < |at| => cs[at[x]])
  }

  lemma {:induction false} EnteredIsInsert(cs: seq<Comment>, k: nat, order: seq<nat>)
    requires k < |cs| && Within(order, |cs|)
    ensures At(cs, Entered(cs, k, order)) == Insert(cs[k], At(cs, order), NoFewerPoints)
  {
    var sorted := At(cs, order);
    if order == [] || cs[k].Score() >= cs[order[0]].Score() {
      assert At(cs, [k] + order) == [cs[k]] + sorted;
    } else {
      EnteredIsInsert(cs, k, order[1..]);
      assert sorted[1..] == At(cs, order[1..]);
      assert At(cs, [order[0]] + Entered(cs, k, order[1..])) == [cs[order[0]]] + At(cs, Entered(cs, k, order[1..]));
    }
  }

  lemma {:induction false} OrderSorts(cs: seq<Comment>, k: nat)
    requires k <= |cs|
    ensures At(cs, Order(cs, k)) == SortByPoints(cs[k..])
    decreases |cs| - k
  {
    if k < |cs| {
      OrderSorts(cs, k + 1);
      EnteredIsInsert(cs, k, Order(cs, k + 1));
      assert cs[k..][0] == cs[k] && cs[k..][1..] == cs[k + 1..];
    }
  }

  /** Sorting and cutting off leaves the leading comments, in their order. */
  lemma FirstByPoints(cs: seq<Comment>, width: nat) returns (at: seq<nat>)
    ensures Leading(cs, width, at) && Take(SortByPoints(cs), width) == At(cs, at)
  {
    var order := Order(cs, 0);
    OrderRanks(cs, 0);
    OrderSorts(cs, 0);
    assert cs[0..] == cs;
    at := Take(order, width);
    forall i: nat, x | i < |cs| && i !in at && 0 <= x < |at| ensures Ahead(cs, at[x], i) {
      assert i in order;
      var y :| 0 <= y < |order| && order[y] == i;
      assert forall z :: 0 <= z < |at| ==> order[z] == at[z] && at[z] in at;
    }
  }

  // -------------------------------------------------------------------------
  // What pruning keeps
  // -------------------------------------------------------------------------

  /** The positions whose comments have a body. */
  function WithBody(cs: seq<Comment>, at: seq<nat>): (r: seq<nat>)
    requires Within(at, |cs|)
    ensures Within(r, |cs|)
  {
    if at == [] then []
    else (if cs[at[0]].text != "" then [at[0]] else []) + WithBody(cs, at[1..])
  }

  /** `kept` holds the leading comments of `cs` that have a body, each with its replies
      cut in the same way and its depth set. */
  ghost predicate PrunedTo(kept: seq<Comment>, cs: seq<Comment>, depth: nat, width: nat, k: Cutter)
    decreases LevelsLeft(depth), 1
  {
    exists at :: Leading(cs, width, at) && PrunedAt(kept, cs, at, depth, k)
  }

  ghost predicate PrunedAt(kept: seq<Comment>, cs: seq<Comment>, at: seq<nat>, depth: nat, k: Cutter)
    decreases LevelsLeft(depth), 0, 1
  {
    && Within(at, |cs|) && |kept| == |WithBody(cs, at)|
    && forall x :: 0 <= x < |kept| ==> PrunedNode(kept[x], cs[WithBody(cs, at)[x]], depth, k)
  }

  ghost predicate PrunedNode(p: Comment, c: Comment, depth: nat, k: Cutter)
    decreases LevelsLeft(depth), 0, 0
  {
    && p.author == c.author && p.points == c.points && p.text == k.cut(c.text) && p.depth == depth
    && if depth + 1 < 3 then PrunedTo(p.children, c.children, depth + 1, 4, k) else p.children == []
  }

  lemma {:induction false} PruneNodeKeeps(c: Comment, depth: nat, k: Cutter)
    requires k.Valid() && depth < MAX_DEPTH
    ensures PrunedNode(PruneNode(c, depth, k), c, depth, k)
    decreases LevelsLeft(depth), 0
  {
    if depth + 1 < MAX_DEPTH {
      var at := FirstByPoints(c.children, MAX_CHILDREN);
      PruneAllKeeps(c.children, at, depth + 1, k);
    }
  }

  lemma {:induction false} PruneAllKeeps(cs: seq<Comment>, at: seq<nat>, depth: nat, k: Cutter)
    requires k.Valid() && depth < MAX_DEPTH && Within(at, |cs|)
    ensures PrunedAt(PruneAll(At(cs, at), depth, k), cs, at, depth, k)
    decreases LevelsLeft(depth), 1, |at|
  {
    if at != [] {
      PruneNodeKeeps(cs[at[0]], depth, k);
      PruneAllKeeps(cs, at[1..], depth, k);
      assert At(cs, at)[1..] == At(cs, at[1..]);
    }
  }

  lemma {:induction false} AllWithBody(cs: seq<Comment>, at: seq<nat>)
    requires Within(at, |cs|) && forall i :: 0 <= i < |cs| ==> cs[i].text != ""
    ensures WithBody(cs, at) == at
  {
    if at != [] { AllWithBody(cs, at[1..]); }
  }

  /** Pruning keeps the eight leading roots, the four leading replies to a comment and
      three levels, told by points and place alone, and of those the ones with a body. */
  lemma PruneKeepsTheLeading(cs: seq<Comment>, k: Cutter)
    requires k.Valid()
    ensures PrunedTo(Pruned(cs, k), cs, 0, 8, k)
    ensures (forall i :: 0 <= i < |cs| ==> cs[i].text != "") ==> |Pruned(cs, k)| == if |cs| <= 8 then |cs| else 8
  {
    var at := FirstByPoints(cs, MAX_TOP_LEVEL);
    PruneAllKeeps(cs, at, 0, k);
    if forall i :: 0 <= i < |cs| ==> cs[i].text != "" { AllWithBody(cs, at); }
  }

  // -------------------------------------------------------------------------
  // What the word budget keeps
  // -------------------------------------------------------------------------

  /** The siblings under the comment at `path`, a list of positions from the roots down. */
  function Level(forest: seq<Comment>, path: seq<nat>): Option<seq<Comment>>
    decreases |path|
  {
    if path == [] then Some(forest)
    else if path[0] < |forest| then Level(forest[path[0]].children, path[1..])
    else None
  }

  /** What the comments cost that are rendered before the replies of the one at `path`:
      the comments on the way there, and all that hangs on their earlier siblings. */
  function CostBefore(forest: seq<Comment>, path: seq<nat>, price: Pricing): nat
    decreases |path|
  {
    if path == [] || path[0] >= |forest| then 0
    else
      var c := forest[path[0]];
      Cost(forest[..path[0]], price) + price(c.text) + CostBefore(c.children, path[1..], price)
  }

  /** If the siblings kept under the comment at `path` are not all there were, then the
      next one does not fit behind all that is rendered before it. */
  predicate StopsWhenFull(kept: seq<Comment>, cs: seq<Comment>, path: seq<nat>, budget: nat, price: Pricing) {
    Level(kept, path).Some? && Level(cs, path).Some? ==>
      var k, l := Level(kept, path).value, Level(cs, path).value;
      |k| < |l| ==> CostBefore(kept, path, price) + Cost(k, price) + price(l[|k|].text) > budget
  }

  lemma {:induction false} CostConcat(a: seq<Comment>, b: seq<Comment>, price: Pricing)
    ensures Cost(a + b, price) == Cost(a, price) + Cost(b, price)
  {
    if a == [] {
      assert a + b == b;
    } else {
      assert (a + b)[1..] == a[1..] + b;
      CostConcat(a[1..], b, price);
    }
  }

  lemma CostOfOne(c: Comment, price: Pricing)
    ensures Cost([c], price) == price(c.text) + Cost(c.children, price)
  {
    assert [c][1..] == [];
  }

  /** Where a comment stands in a list with one more in front. */
  lemma StopsBehindFirst(c: Comment, kept: seq<Comment>, d: Comment, cs: seq<Comment>, path: seq<nat>, budget: nat,
                         price: Pricing)
    requires Cost([c], price) <= budget
    ensures var longer := if path == [] then [] else [path[0] + 1] + path[1..];
            StopsWhenFull([c] + kept, [d] + cs, longer, budget, price)
            <==> StopsWhenFull(kept, cs, path, budget - Cost([c], price), price)
  {
    var more, all := [c] + kept, [d] + cs;
    CostConcat([c], kept, price);
    if path == [] {
      assert |kept| < |cs| ==> all[|more|] == cs[|kept|];
    } else {
      var longer := [path[0] + 1] + path[1..];
      assert longer[1..] == path[1..];
      if path[0] < |kept| {
        assert more[..path[0] + 1] == [c] + kept[..path[0]];
        CostConcat([c], kept[..path[0]], price);
      }
    }
  }

  lemma StopsInFirst(c: Comment, kept: seq<Comment>, d: Comment, cs: seq<Comment>, path: seq<nat>, budget: nat,
                     price: Pricing)
    requires price(c.text) <= budget
    ensures StopsWhenFull([c] + kept, [d] + cs, [0] + path, budget, price)
       <==> StopsWhenFull(c.children, d.children, path, budget - price(c.text), price)
  {
    assert ([0] + path)[1..] == path && ([c] + kept)[..0] == [];
  }

  ghost predicate StopsEverywhere(kept: seq<Comment>, cs: seq<Comment>, budget: nat, price: Pricing) {
    forall path :: StopsWhenFull(kept, cs, path, budget, price)
  }

  /** The way to the same comment when the first of the roots is gone. */
  function Behind(path: seq<nat>): seq<nat>
    requires path == [] || path[0] > 0
  {
    if path == [] then [] else [path[0] - 1] + path[1..]
  }

  lemma {:induction false} TrimStops(cs: seq<Comment>, budget: nat, price: Pricing, path: seq<nat>)
    ensures StopsWhenFull(TrimForest(cs, budget, price).0, cs, path, budget, price)
    decreases cs
  {
    if cs != [] && price(cs[0].text) <= budget {
      var left := budget - price(cs[0].text);
      var (children, end) := TrimForest(cs[0].children, left, price);
      var c, rest := cs[0].(children := children), TrimForest(cs[1..], end, price).0;
      assert cs == [cs[0]] + cs[1..];
      if path != [] && path[0] == 0 {
        TrimStops(cs[0].children, left, price, path[1..]);
        StopsInFirst(c, rest, cs[0], cs[1..], path[1..], budget, price);
        assert [0] + path[1..] == path;
      } else {
        TrimStops(cs[1..], end, price, Behind(path));
        TrimConserves(cs[0].children, left, price);
        CostOfOne(c, price);
        StopsBehindFirst(c, rest, cs[0], cs[1..], Behind(path), budget, price);
      }
    }
  }

  lemma StopsAllInFirst(c: Comment, kept: seq<Comment>, d: Comment, cs: seq<Comment>, budget: nat, left: nat,
                        price: Pricing)
    requires StopsEverywhere([c] + kept, [d] + cs, budget, price) && left + price(c.text) == budget
    ensures StopsEverywhere(c.children, d.children, left, price)
  {
    forall path ensures StopsWhenFull(c.children, d.children, path, left, price) {
      assert StopsWhenFull([c] + kept, [d] + cs, [0] + path, budget, price);
      StopsInFirst(c, kept, d, cs, path, budget, price);
    }
  }

  lemma StopsAllBehindFirst(c: Comment, kept: seq<Comment>, d: Comment, cs: seq<Comment>, budget: nat, left: nat,
                            price: Pricing)
    requires StopsEverywhere([c] + kept, [d] + cs, budget, price) && left + Cost([c], price) == budget
    ensures StopsEverywhere(kept, cs, left, price)
  {
    forall path ensures StopsWhenFull(kept, cs, path, left, price) {
      var longer := if path == [] then [] else [path[0] + 1] + path[1..];
      assert StopsWhenFull([c] + kept, [d] + cs, longer, budget, price);
      StopsBehindFirst(c, kept, d, cs, path, budget, price);
    }
  }

  lemma {:induction false} StoppedIsTrimmed(kept: seq<Comment>, cs: seq<Comment>, budget: nat, price: Pricing)
    requires PrefixForest(kept, cs) && Cost(kept, price) <= budget && StopsEverywhere(kept, cs, budget, price)
    ensures kept == TrimForest(cs, budget, price).0
    decreases cs
  {
    if kept == [] {
      assert StopsWhenFull(kept, cs, [], budget, price);
    } else {
      var c, rest := kept[0], kept[1..];
      assert kept == [c] + rest && cs == [cs[0]] + cs[1..];
      CostConcat([c], rest, price);
      CostOfOne(c, price);
      var left := budget - price(c.text);
      StopsAllInFirst(c, rest, cs[0], cs[1..], budget, left, price);
      StoppedIsTrimmed(c.children, cs[0].children, left, price);
      TrimConserves(cs[0].children, left, price);
      StopsAllBehindFirst(c, rest, cs[0], cs[1..], budget, left - Cost(c.children, price), price);
      StoppedIsTrimmed(rest, cs[1..], left - Cost(c.children, price), price);
    }
  }

  /** What the budget keeps, as one condition: every level keeps a prefix of its siblings,
      all of it fits, and a level ends early only where the next comment does not fit
      behind what is rendered before it, replies to earlier siblings included. */
  lemma TrimIs(kept: seq<Comment>, cs: seq<Comment>, budget: nat, price: Pricing)
    ensures kept == TrimForest(cs, budget, price).0
       <==> PrefixForest(kept, cs) && Cost(kept, price) <= budget && StopsEverywhere(kept, cs, budget, price)
  {
    if kept == TrimForest(cs, budget, price).0 {
      TrimConserves(cs, budget, price);
      forall path ensures StopsWhenFull(kept, cs, path, budget, price) {
        TrimStops(cs, budget, price, path);
      }
    }
    if PrefixForest(kept, cs) && Cost(kept, price) <= budget && StopsEverywhere(kept, cs, budget, price) {
      StoppedIsTrimmed(kept, cs, budget, price);
    }
  }

  /** `truncate` as a whole: the leading comments that have a body, cut to the limit, as
      far as they fit the chapter in render order. */
  lemma TruncateIs(cs: seq<Comment>) returns (pruned: seq<Comment>)
    ensures PrunedTo(pruned, cs, 0, 8, BODY)
    ensures PrefixForest(Truncate(cs), pruned) && Cost(Truncate(cs), WordCount) <= 4000
    ensures StopsEverywhere(Truncate(cs), pruned, 4000, WordCount)
  {
    pruned := Pruned(cs, BODY);
    BodyCutterIsValid();
    PruneKeepsTheLeading(cs, BODY);
    TrimIs(Truncate(cs), pruned, 4000, WordCount);
  }

  /** The threads of a chapter share one budget in their order: each is trimmed to what
      the threads before it have left. */
  lemma {:induction false} ThreadGetsWhatIsLeft(threads: seq<Thread>, budget: nat, price: Pricing, i: nat)
    requires i < |threads|
    ensures var kept := TrimThreads(threads, budget, price).0;
            && ThreadsCost(kept[..i], price) <= budget
            && kept[i] == threads[i].(comments := TrimForest(threads[i].comments,
                                                             budget - ThreadsCost(kept[..i], price), price).0)
  {
    var kept := TrimThreads(threads, budget, price).0;
    var (first, left) := TrimForest(threads[0].comments, budget, price);
    TrimConserves(threads[0].comments, budget, price);
    if i == 0 {
      assert kept[..0] == [];
    } else {
      var rest := TrimThreads(threads[1..], left, price).0;
      ThreadGetsWhatIsLeft(threads[1..], left, price, i - 1);
      assert kept == [kept[0]] + rest;
      assert kept[..i][1..] == rest[..i - 1] && kept[..i][0] == kept[0];
    }
  }
}
