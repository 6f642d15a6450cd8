/** `parse_lobsters` in `src/comments.rs`: a forest rebuilt from a flat list of comments with indent levels. */
module Lobsters {
  import opened Text
  import opened CommentForest
  import opened CommentSources

  datatype User = Name(name: string) | Profile(username: Option<string>) | Nobody

  /** One element of the `comments` array. */
  datatype Item = Item(comment: Option<string>, plain: Option<string>, user: User, indent: Option<int>,
                       score: Option<int>) {
    function Body(): string {
      match comment
      case Some(t) => t
      case None => match plain case Some(t) => t case None => ""
    }
    function Author(): string {
      match user
      case Name(n) => n
      case Profile(Some(n)) => n
      case _ => "someone"
    }
    /** Indent 1, or anything below it, is the top level. */
    function Depth(): nat {
      match indent case Some(n) => (if n > 1 then n - 1 else 0) case None => 0
    }
    function Made(clean: Sanitizer): Comment { Comment(Author(), score, clean(Body()), Depth(), []) }
  }

  /** The comments of the items that have a body, in order. */
  function Posted(items: seq<Item>, clean: Sanitizer): (r: seq<Comment>)
    ensures forall c :: c in r ==> c.children == []
  {
    if items == [] then []
    else if items[0].Body() == "" then Posted(items[1..], clean)
    else [items[0].Made(clean)] + Posted(items[1..], clean)
  }

  // -------------------------------------------------------------------------
  // The branch being built
  // -------------------------------------------------------------------------

  type Path = seq<nat>

  /** `path` leads along last children: it is the rightmost branch of the forest, or a start of it. */
  predicate Spine(forest: seq<Comment>, path: Path)
    decreases |path|
  {
    path == [] || (forest != [] && path[0] == |forest| - 1 && Spine(forest[path[0]].children, path[1..]))
  }

  /** `added` appended to the children found at the end of `path`. */
  function Attach(forest: seq<Comment>, path: Path, added: seq<Comment>): seq<Comment>
    requires Spine(forest, path)
    decreases |path|
  {
    if path == [] then forest + added
    else forest[path[0] := forest[path[0]].(children := Attach(forest[path[0]].children, path[1..], added))]
  }

  /** The siblings at the end of `path`. */
  function Siblings(forest: seq<Comment>, path: Path): seq<Comment>
    requires Spine(forest, path)
    decreases |path|
  {
    if path == [] then forest else Siblings(forest[path[0]].children, path[1..])
  }

  datatype Building = Building(roots: seq<Comment>, path: Path) {
    ghost predicate Valid() { Spine(roots, path) }

    /** How deep a comment of declared depth `depth` lands: where it says, or at the
        top when the branch is not that deep. */
    function Lands(depth: nat): nat { if depth <= |path| then depth else 0 }

    function Place(c: Comment): Building
      requires Valid()
    {
      var at := path[..Lands(c.depth)];
      SpinePrefix(roots, path, |at|);
      Building(Attach(roots, at, [c]), at + [|Siblings(roots, at)|])
    }
  }

  function Rebuild(b: Building, cs: seq<Comment>): Building
    requires b.Valid()
    decreases |cs|
  {
    if cs == [] then b
    else
      PlaceKeepsSpine(b, cs[0]);
      Rebuild(b.Place(cs[0]), cs[1..])
  }

  /** The loop of `parse_lobsters` up to the final sort of the roots. */
  method BuildForest(items: seq<Item>, clean: Sanitizer) returns (roots: seq<Comment>, total: nat)
    ensures roots == Rebuild(Building([], []), Posted(items, clean)).roots
    ensures total == |Posted(items, clean)|
  {
    roots, total := [], 0;
    var path: Path := [];
    ghost var all := Posted(items, clean);
    assert items[0..] == items;
    for i := 0 to |items|
      invariant Spine(roots, path)
      invariant Rebuild(Building(roots, path), Posted(items[i..], clean)) == Rebuild(Building([], []), all)
      invariant total + |Posted(items[i..], clean)| == |all|
    {
      assert items[i..][1..] == items[i + 1..];
      if items[i].Body() == "" {
        continue;
      }
      var comment := items[i].Made(clean);
      total := total + 1;
      assert Posted(items[i..], clean)[1..] == Posted(items[i + 1..], clean);
      PlaceKeepsSpine(Building(roots, path), comment);
      roots, path := Step(roots, path, comment);
    }
  }

  /** One turn of that loop: cut the branch at the comment's depth, and start a new
      tree when it is at the top or the branch is too short. */
  method Step(roots: seq<Comment>, path: Path, comment: Comment) returns (roots': seq<Comment>, path': Path)
    requires Spine(roots, path)
    ensures Building(roots', path') == Building(roots, path).Place(comment)
  {
    var depth := comment.depth;
    assert path[..0] == [] && path[..|path|] == path;
    roots', path' := roots, path;
    if depth < |path| {
      SpinePrefix(roots, path, depth);
      path' := path[..depth];
    }
    if depth == 0 || |path'| < depth {
      roots' := roots + [comment];
      path' := [|roots'| - 1];
      assert [] + path' == path';
    } else {
      var siblings := Siblings(roots, path');
      roots' := Attach(roots, path', [comment]);
      path' := path' + [|siblings|];
    }
  }

  lemma {:induction false} SpinePrefix(forest: seq<Comment>, path: Path, n: nat)
    requires Spine(forest, path) && n <= |path|
    ensures Spine(forest, path[..n])
    decreases n
  {
    if n > 0 {
      assert path[..n][1..] == path[1..][..n - 1];
      SpinePrefix(forest[path[0]].children, path[1..], n - 1);
    }
  }

  /** The path after an insertion is again the rightmost branch, so no index on it
      is ever out of range. */
  lemma {:induction false} AttachSpine(forest: seq<Comment>, path: Path, c: Comment)
    requires Spine(forest, path)
    ensures Spine(Attach(forest, path, [c]), path + [|Siblings(forest, path)|])
    ensures Spine(Attach(forest, path, [c]), path)
    decreases |path|
  {
    var longer := path + [|Siblings(forest, path)|];
    if path != [] {
      AttachSpine(forest[path[0]].children, path[1..], c);
      assert longer[1..] == path[1..] + [|Siblings(forest, path)|];
    } else {
      assert longer[1..] == [];
    }
  }

  lemma PlaceKeepsSpine(b: Building, c: Comment)
    requires b.Valid()
    ensures b.Place(c).Valid()
  {
    var at := b.path[..b.Lands(c.depth)];
    SpinePrefix(b.roots, b.path, |at|);
    AttachSpine(b.roots, at, c);
  }

  // -------------------------------------------------------------------------
  // Nothing is lost or moved
  // -------------------------------------------------------------------------

  /** Preorder, each comment without its replies and paired with the level it sits at. */
  function Flatten(forest: seq<Comment>, level: nat): seq<(nat, Comment)> {
    if forest == [] then []
    else [(level, forest[0].(children := []))] + Flatten(forest[0].children, level + 1) + Flatten(forest[1..], level)
  }

  lemma {:induction false} FlattenConcat(a: seq<Comment>, b: seq<Comment>, level: nat)
    ensures Flatten(a + b, level) == Flatten(a, level) + Flatten(b, level)
  {
    if a == [] {
      assert a + b == b;
    } else {
      assert (a + b)[1..] == a[1..] + b;
      FlattenConcat(a[1..], b, level);
    }
  }

  lemma FlattenOne(c: Comment, level: nat)
    ensures Flatten([c], level) == [(level, c.(children := []))] + Flatten(c.children, level + 1)
  {
    assert [c][1..] == [];
  }

  /** Appending at the rightmost branch appends to the preorder. */
  lemma {:induction false} FlattenAttach(forest: seq<Comment>, path: Path, added: seq<Comment>, level: nat)
    requires Spine(forest, path)
    ensures Flatten(Attach(forest, path, added), level) == Flatten(forest, level) + Flatten(added, level + |path|)
    decreases |path|
  {
    if path == [] {
      FlattenConcat(forest, added, level);
    } else {
      var k := path[0];
      var last, others := forest[k], forest[..k];
      FlattenAttach(last.children, path[1..], added, level + 1);
      var grown := last.(children := Attach(last.children, path[1..], added));
      assert forest == others + [last] && Attach(forest, path, added) == others + [grown];
      FlattenSnoc(others, last, level);
      FlattenSnoc(others, grown, level);
    }
  }

  lemma FlattenSnoc(forest: seq<Comment>, last: Comment, level: nat)
    ensures Flatten(forest + [last], level)
         == Flatten(forest, level) + ([(level, last.(children := []))] + Flatten(last.children, level + 1))
  {
    FlattenConcat(forest, [last], level);
    FlattenOne(last, level);
  }

  /** Where each comment of a list lands, `open` being the length of the branch so far. */
  function Landings(cs: seq<Comment>, open: nat): seq<(nat, Comment)> {
    if cs == [] then []
    else
      var at := if cs[0].depth <= open then cs[0].depth else 0;
      [(at, cs[0])] + Landings(cs[1..], at + 1)
  }

  /** The forest, read in preorder, is the list of comments as it came, each at its
      declared depth or, when the branch is too short for that, at the top. */
  lemma {:induction false} RebuildFlattens(b: Building, cs: seq<Comment>)
    requires b.Valid() && forall c :: c in cs ==> c.children == []
    ensures Rebuild(b, cs).Valid()
    ensures Flatten(Rebuild(b, cs).roots, 0) == Flatten(b.roots, 0) + Landings(cs, |b.path|)
    decreases |cs|
  {
    if cs != [] {
      var c := cs[0];
      assert c.children == [] by { assert c in cs; }
      PlaceFlattens(b, c);
      RebuildFlattens(b.Place(c), cs[1..]);
      LandingsStep(Flatten(b.roots, 0), cs, |b.path|);
    }
  }

  lemma LandingsStep(before: seq<(nat, Comment)>, cs: seq<Comment>, open: nat)
    requires cs != []
    ensures var at := if cs[0].depth <= open then cs[0].depth else 0;
            before + Landings(cs, open) == (before + [(at, cs[0])]) + Landings(cs[1..], at + 1)
  {
  }

  lemma PlaceFlattens(b: Building, c: Comment)
    requires b.Valid() && c.children == []
    ensures b.Place(c).Valid() && |b.Place(c).path| == b.Lands(c.depth) + 1
    ensures Flatten(b.Place(c).roots, 0) == Flatten(b.roots, 0) + [(b.Lands(c.depth), c)]
  {
    var at := b.path[..b.Lands(c.depth)];
    SpinePrefix(b.roots, b.path, |at|);
    PlaceKeepsSpine(b, c);
    FlattenAttach(b.roots, at, [c], 0);
    FlattenOne(c, |at|);
  }

  function Seconds(pairs: seq<(nat, Comment)>): seq<Comment> {
    if pairs == [] then [] else [pairs[0].1] + Seconds(pairs[1..])
  }

  lemma {:induction false} LandingsKeepOrder(cs: seq<Comment>, open: nat)
    ensures Seconds(Landings(cs, open)) == cs
  {
    if cs != [] {
      var at := if cs[0].depth <= open then cs[0].depth else 0;
      LandingsKeepOrder(cs[1..], at + 1);
    }
  }

  /** No comment with a body is lost, invented or moved by the rebuilding. */
  lemma NothingIsLost(items: seq<Item>, clean: Sanitizer)
    ensures var roots := Rebuild(Building([], []), Posted(items, clean)).roots;
            Flatten(roots, 0) == Landings(Posted(items, clean), 0)
            && Seconds(Flatten(roots, 0)) == Posted(items, clean)
  {
    var cs := Posted(items, clean);
    RebuildFlattens(Building([], []), cs);
    LandingsKeepOrder(cs, 0);
  }

  /** The level the next comment can reply at: one below the comment read last. */
  function OpenAfter(landed: seq<(nat, Comment)>, open: nat): nat {
    if landed == [] then open else landed[|landed| - 1].0 + 1
  }

  lemma {:induction false} LandingsConcat(xs: seq<Comment>, ys: seq<Comment>, open: nat)
    ensures Landings(xs + ys, open) == Landings(xs, open) + Landings(ys, OpenAfter(Landings(xs, open), open))
  {
    if xs == [] {
      assert xs + ys == ys;
    } else {
      var at := if xs[0].depth <= open then xs[0].depth else 0;
      assert (xs + ys)[0] == xs[0] && (xs + ys)[1..] == xs[1..] + ys;
      LandingsConcat(xs[1..], ys, at + 1);
      LandedLast((at, xs[0]), Landings(xs[1..], at + 1), open);
    }
  }

  lemma LandedLast(first: (nat, Comment), rest: seq<(nat, Comment)>, open: nat)
    ensures OpenAfter([first] + rest, open) == OpenAfter(rest, first.0 + 1)
  {
  }

  lemma {:induction false} PostedConcat(a: seq<Item>, b: seq<Item>, clean: Sanitizer)
    ensures Posted(a + b, clean) == Posted(a, clean) + Posted(b, clean)
  {
    if a == [] {
      assert a + b == b;
    } else {
      assert (a + b)[0] == a[0] && (a + b)[1..] == a[1..] + b;
      PostedConcat(a[1..], b, clean);
    }
  }

  lemma PostedOne(item: Item, clean: Sanitizer)
    ensures Posted([item], clean) == if item.Body() == "" then [] else [item.Made(clean)]
  {
    assert [item][1..] == [] && Posted([], clean) == [];
  }

  /** The forest of a list, read in preorder with the levels. */
  function Read(items: seq<Item>, clean: Sanitizer): seq<(nat, Comment)> {
    Flatten(Rebuild(Building([], []), Posted(items, clean)).roots, 0)
  }

  lemma ReadConcat(a: seq<Item>, b: seq<Item>, clean: Sanitizer)
    ensures Read(a + b, clean) == Read(a, clean) + Landings(Posted(b, clean), OpenAfter(Read(a, clean), 0))
  {
    NothingIsLost(a, clean);
    NothingIsLost(a + b, clean);
    PostedConcat(a, b, clean);
    LandingsConcat(Posted(a, clean), Posted(b, clean), 0);
  }

  /** What one item becomes. Its text is `comment`, or else `comment_plain`; its author the
      user, given by name or as an object, or `someone`. Indent `n` lands at level `n - 1` if
      the comment read last sits at level `n - 2` or deeper; otherwise, and for an indent of
      1 or less, at the top. What came before stays as it was. */
  lemma ItemLands(before: seq<Item>, item: Item, clean: Sanitizer, text: string, author: string, n: int)
    requires text != "" && (item.comment == Some(text) || (item.comment == None && item.plain == Some(text)))
    requires item.user == Name(author) || item.user == Profile(Some(author))
             || (author == "someone" && (item.user == Nobody || item.user == Profile(None)))
    requires item.indent == Some(n) || (n == 1 && item.indent == None)
    ensures var done := Read(before, clean);
            var deepest := if done == [] then 0 else done[|done| - 1].0 + 1;
            var level := if 1 < n <= deepest + 1 then n - 1 else 0;
            var depth := if n > 1 then n - 1 else 0;
            Read(before + [item], clean) == done + [(level, Comment(author, item.score, clean(text), depth, []))]
  {
    var open := OpenAfter(Read(before, clean), 0);
    ReadConcat(before, [item], clean);
    PostedOne(item, clean);
    LandingsOne(item.Made(clean), open);
  }

  lemma LandingsOne(c: Comment, open: nat)
    ensures Landings([c], open) == [(if c.depth <= open then c.depth else 0, c)]
  {
    assert [c][1..] == [];
  }

  /** An item without text is passed over. */
  lemma SilentItem(before: seq<Item>, item: Item, clean: Sanitizer)
    requires item.comment == Some("") || (item.comment == None && (item.plain == None || item.plain == Some("")))
    ensures Read(before + [item], clean) == Read(before, clean)
  {
    ReadConcat(before, [item], clean);
    PostedOne(item, clean);
  }

  // -------------------------------------------------------------------------
  // Rebuilding and flattening are mutual inverses
  // -------------------------------------------------------------------------

  function Preorder(forest: seq<Comment>): seq<Comment> {
    if forest == [] then []
    else [forest[0].(children := [])] + Preorder(forest[0].children) + Preorder(forest[1..])
  }

  /** Every comment's `depth` is the level it sits at. */
  predicate DepthsAgree(forest: seq<Comment>, level: nat) {
    forest == []
    || (forest[0].depth == level && DepthsAgree(forest[0].children, level + 1) && DepthsAgree(forest[1..], level))
  }

  /** A list that no comment of which claims a parent it does not have. */
  predicate WellNested(cs: seq<Comment>, open: nat) {
    cs == [] || (cs[0].depth <= open && WellNested(cs[1..], cs[0].depth + 1))
  }

  lemma {:induction false} RebuildConcat(b: Building, xs: seq<Comment>, ys: seq<Comment>)
    requires b.Valid()
    ensures Rebuild(b, xs).Valid() && Rebuild(b, xs + ys) == Rebuild(Rebuild(b, xs), ys)
    decreases |xs|
  {
    if xs == [] {
      assert xs + ys == ys;
    } else {
      PlaceKeepsSpine(b, xs[0]);
      assert (xs + ys)[1..] == xs[1..] + ys;
      RebuildConcat(b.Place(xs[0]), xs[1..], ys);
    }
  }

  lemma {:induction false} AttachNothing(forest: seq<Comment>, path: Path)
    requires Spine(forest, path)
    ensures Attach(forest, path, []) == forest
    decreases |path|
  {
    if path != [] {
      AttachNothing(forest[path[0]].children, path[1..]);
    }
  }

  /** Attaching a comment and then its replies is attaching the comment with its replies. */
  lemma {:induction false} AttachReplies(forest: seq<Comment>, path: Path, c: Comment, replies: seq<Comment>)
    requires Spine(forest, path) && c.children == []
    ensures var longer := path + [|Siblings(forest, path)|];
            Spine(Attach(forest, path, [c]), longer)
            && Attach(Attach(forest, path, [c]), longer, replies) == Attach(forest, path, [c.(children := replies)])
    decreases |path|
  {
    AttachSpine(forest, path, c);
    var longer := path + [|Siblings(forest, path)|];
    if path == [] {
      assert longer[1..] == [];
      var f := forest + [c];
      assert Attach(f, longer, replies) == f[|forest| := c.(children := [] + replies)];
      assert [] + replies == replies;
    } else {
      assert longer[1..] == path[1..] + [|Siblings(forest, path)|];
      AttachReplies(forest[path[0]].children, path[1..], c, replies);
    }
  }

  lemma {:induction false} AttachTwice(forest: seq<Comment>, path: Path, xs: seq<Comment>, ys: seq<Comment>)
    requires Spine(forest, path) && Spine(Attach(forest, path, xs), path)
    ensures Attach(Attach(forest, path, xs), path, ys) == Attach(forest, path, xs + ys)
    decreases |path|
  {
    if path == [] {
      assert forest + xs + ys == forest + (xs + ys);
    } else {
      AttachTwice(forest[path[0]].children, path[1..], xs, ys);
    }
  }

  /** Replaying the preorder of a forest grafts that forest onto the branch. */
  lemma {:induction false} RebuildGrafts(b: Building, forest: seq<Comment>, level: nat)
    requires b.Valid() && level <= |b.path| && DepthsAgree(forest, level)
    ensures var r := Rebuild(b, Preorder(forest));
            && r.Valid() && level <= |r.path| && r.path[..level] == b.path[..level]
            && Spine(b.roots, b.path[..level])
            && r.roots == Attach(b.roots, b.path[..level], forest)
    decreases forest
  {
    var at := b.path[..level];
    SpinePrefix(b.roots, b.path, level);
    if forest == [] {
      AttachNothing(b.roots, at);
    } else {
      var x, rest := forest[0], forest[1..];
      var bare := x.(children := []);
      PlaceKeepsSpine(b, bare);
      var b1 := b.Place(bare);
      RebuildGrafts(b1, x.children, level + 1);
      var b2 := Rebuild(b1, Preorder(x.children));
      assert b1.path[..level + 1] == b1.path;
      GraftedTree(b, x, level, b2);
      RebuildGrafts(b2, rest, level);
      AttachTwice(b.roots, at, [x], rest);
      assert [x] + rest == forest;
      ReplayTree(b, x, rest);
    }
  }

  /** A tree is grafted once its root is placed and its replies are attached under it. */
  lemma GraftedTree(b: Building, x: Comment, level: nat, b2: Building)
    requires b.Valid() && level <= |b.path| && x.depth == level && Spine(b.roots, b.path[..level])
    requires var b1 := b.Place(x.(children := []));
             && b1.Valid() && b2.Valid() && |b2.path| >= level + 1 && b2.path[..level + 1] == b1.path
             && b2.roots == Attach(b1.roots, b1.path, x.children)
    ensures b2.path[..level] == b.path[..level]
    ensures b2.roots == Attach(b.roots, b.path[..level], [x])
  {
    var bare := x.(children := []);
    AttachReplies(b.roots, b.path[..level], bare, x.children);
    assert bare.(children := x.children) == x;
    assert b2.path[..level] == b2.path[..level + 1][..level];
  }

  lemma ReplayTree(b: Building, x: Comment, rest: seq<Comment>)
    requires b.Valid() && b.Place(x.(children := [])).Valid()
    ensures var b1 := b.Place(x.(children := []));
            Rebuild(b1, Preorder(x.children)).Valid()
            && Rebuild(b, Preorder([x] + rest)) == Rebuild(Rebuild(b1, Preorder(x.children)), Preorder(rest))
  {
    var bare := x.(children := []);
    assert ([x] + rest)[1..] == rest;
    var list := Preorder([x] + rest);
    assert list == [bare] + (Preorder(x.children) + Preorder(rest));
    assert list[1..] == Preorder(x.children) + Preorder(rest);
    RebuildConcat(b.Place(bare), Preorder(x.children), Preorder(rest));
  }

  /** Flattening a forest and rebuilding it gives the forest back. */
  lemma RebuildUndoesPreorder(forest: seq<Comment>)
    requires DepthsAgree(forest, 0)
    ensures Rebuild(Building([], []), Preorder(forest)).roots == forest
  {
    RebuildGrafts(Building([], []), forest, 0);
    assert [] + forest == forest;
  }

  lemma {:induction false} FlattenSeconds(forest: seq<Comment>, level: nat)
    ensures Seconds(Flatten(forest, level)) == Preorder(forest)
  {
    if forest != [] {
      FlattenSeconds(forest[0].children, level + 1);
      FlattenSeconds(forest[1..], level);
      var head := [(level, forest[0].(children := []))];
      var kids, rest := Flatten(forest[0].children, level + 1), Flatten(forest[1..], level);
      SecondsConcat(head + kids, rest);
      SecondsConcat(head, kids);
      assert head[1..] == [];
    }
  }

  lemma {:induction false} SecondsConcat(a: seq<(nat, Comment)>, b: seq<(nat, Comment)>)
    ensures Seconds(a + b) == Seconds(a) + Seconds(b)
  {
    if a == [] {
      assert a + b == b;
    } else {
      assert (a + b)[1..] == a[1..] + b;
      SecondsConcat(a[1..], b);
    }
  }

  /** Every comment sits at its declared depth exactly when the list is well nested. */
  lemma {:induction false} LandAtDeclaredDepth(cs: seq<Comment>, open: nat)
    ensures (forall p :: p in Landings(cs, open) ==> p.0 == p.1.depth) <==> WellNested(cs, open)
  {
    if cs != [] {
      var at := if cs[0].depth <= open then cs[0].depth else 0;
      LandAtDeclaredDepth(cs[1..], at + 1);
      assert Landings(cs, open)[0] == (at, cs[0]);
      assert Landings(cs, open)[1..] == Landings(cs[1..], at + 1);
    }
  }

  lemma {:induction false} FlattenShowsDepths(forest: seq<Comment>, level: nat)
    requires forall p :: p in Flatten(forest, level) ==> p.0 == p.1.depth
    ensures DepthsAgree(forest, level)
  {
    if forest != [] {
      var head := (level, forest[0].(children := []));
      var kids, rest := Flatten(forest[0].children, level + 1), Flatten(forest[1..], level);
      assert Flatten(forest, level) == [head] + kids + rest;
      assert head in Flatten(forest, level);
      FlattenShowsDepths(forest[0].children, level + 1);
      FlattenShowsDepths(forest[1..], level);
    }
  }

  /** Rebuilding a well-nested list and flattening it gives the list back, and every
      comment then sits at its declared depth. */
  lemma PreorderUndoesRebuild(cs: seq<Comment>)
    requires WellNested(cs, 0) && forall c :: c in cs ==> c.children == []
    ensures var forest := Rebuild(Building([], []), cs).roots;
            Preorder(forest) == cs && DepthsAgree(forest, 0)
  {
    var forest := Rebuild(Building([], []), cs).roots;
    RebuildFlattens(Building([], []), cs);
    LandingsKeepOrder(cs, 0);
    LandAtDeclaredDepth(cs, 0);
    assert Flatten(forest, 0) == Landings(cs, 0);
    FlattenSeconds(forest, 0);
    FlattenShowsDepths(forest, 0);
  }
}
