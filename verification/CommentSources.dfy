/** The Hacker News and Reddit readers of `src/comments.rs`, on parsed JSON; the sanitizer is a parameter. */
module CommentSources {
  import opened Text
  import opened CommentForest
  import opened Sorting

  type Sanitizer = string -> string

  lemma {:induction false} SizeConcat(a: seq<Comment>, b: seq<Comment>)
    ensures Size(a + b) == Size(a) + Size(b)
  {
    if a == [] {
      assert a + b == b;
    } else {
      assert (a + b)[1..] == a[1..] + b;
      SizeConcat(a[1..], b);
    }
  }

  lemma {:induction false} SizeOfInsert(c: Comment, sorted: seq<Comment>)
    ensures Size(Insert(c, sorted, NoFewerPoints)) == 1 + Size(c.children) + Size(sorted)
  {
    if sorted == [] || NoFewerPoints(c, sorted[0]) {
      assert ([c] + sorted)[1..] == sorted;
    } else {
      SizeOfInsert(c, sorted[1..]);
      assert ([sorted[0]] + Insert(c, sorted[1..], NoFewerPoints))[1..] == Insert(c, sorted[1..], NoFewerPoints);
    }
  }

  lemma {:induction false} SizeOfSort(cs: seq<Comment>)
    ensures Size(SortByPoints(cs)) == Size(cs)
  {
    if cs != [] {
      SizeOfSort(cs[1..]);
      SizeOfInsert(cs[0], SortByPoints(cs[1..]));
    }
  }

  // -------------------------------------------------------------------------
  // Hacker News
  // -------------------------------------------------------------------------

  datatype HnNode = HnNode(text: Option<string>, author: Option<string>, points: Option<int>, children: seq<HnNode>) {
    function Str(s: Option<string>): string { match s case Some(t) => t case None => "" }
    predicate Dead() { Str(text) == "" || Str(author) == "" }
  }

  function FirstOf(cs: seq<Comment>): Option<Comment> { if cs == [] then None else Some(cs[0]) }

  function HnComment(v: HnNode, depth: nat, clean: Sanitizer): Option<Comment>
    decreases v, 0
  {
    var children := HnComments(v.children, depth + 1, clean);
    if v.Dead() then FirstOf(children)
    else Some(Comment(v.Str(v.author), v.points, clean(v.Str(v.text)), depth, SortByPoints(children)))
  }

  function HnComments(vs: seq<HnNode>, depth: nat, clean: Sanitizer): seq<Comment>
    decreases vs, 1
  {
    if vs == [] then []
    else (match HnComment(vs[0], depth, clean) case Some(c) => [c] case None => [])
         + HnComments(vs[1..], depth, clean)
  }

  /** Live nodes, which is what `total` counts. */
  function Live(vs: seq<HnNode>): nat {
    if vs == [] then 0
    else (if vs[0].Dead() then 0 else 1) + Live(vs[0].children) + Live(vs[1..])
  }

  /** `hn_node`, with the counter threaded through. */
  method ReadHnNode(v: HnNode, depth: nat, total: nat, clean: Sanitizer) returns (c: Option<Comment>, total': nat)
    ensures c == HnComment(v, depth, clean) && total' == total + Live([v])
    decreases v
  {
    var children: seq<Comment> := [];
    total' := total;
    assert v.children[0..] == v.children;
    for i := 0 to |v.children|
      invariant children + HnComments(v.children[i..], depth + 1, clean) == HnComments(v.children, depth + 1, clean)
      invariant total' + Live(v.children[i..]) == total + Live(v.children)
    {
      HnStep(v.children, i, depth + 1, clean, children);
      var kid;
      kid, total' := ReadHnNode(v.children[i], depth + 1, total', clean);
      if kid.Some? {
        children := children + [kid.value];
      }
    }
    assert children + [] == children;
    LiveOne(v);
    if v.Dead() {
      return FirstOf(children), total';
    }
    total' := total' + 1;
    c := Some(Comment(v.Str(v.author), v.points, clean(v.Str(v.text)), depth, SortByPoints(children)));
  }

  lemma HnStep(vs: seq<HnNode>, i: nat, depth: nat, clean: Sanitizer, kept: seq<Comment>)
    requires i < |vs|
    ensures var c := HnComment(vs[i], depth, clean);
            kept + HnComments(vs[i..], depth, clean)
            == (if c.Some? then kept + [c.value] else kept) + HnComments(vs[i + 1..], depth, clean)
    ensures Live(vs[i..]) == Live([vs[i]]) + Live(vs[i + 1..])
  {
    assert vs[i..][1..] == vs[i + 1..];
    LiveOne(vs[i]);
  }

  lemma LiveOne(v: HnNode)
    ensures Live([v]) == (if v.Dead() then 0 else 1) + Live(v.children)
  {
    assert [v][1..] == [];
  }

  /** A node yields a comment exactly when something in its subtree is alive. */
  lemma {:induction false} HnYields(v: HnNode, depth: nat, clean: Sanitizer)
    ensures HnComment(v, depth, clean).Some? <==> Live([v]) > 0
    decreases v, 0
  {
    LiveOne(v);
    HnYieldsAny(v.children, depth + 1, clean);
  }

  lemma {:induction false} HnYieldsAny(vs: seq<HnNode>, depth: nat, clean: Sanitizer)
    ensures HnComments(vs, depth, clean) != [] <==> Live(vs) > 0
    decreases vs, 1
  {
    if vs != [] {
      HnYields(vs[0], depth, clean);
      LiveOne(vs[0]);
      HnYieldsAny(vs[1..], depth, clean);
    }
  }

  /** Only the first reply with anything alive in it survives a dead node, so nothing
      is lost exactly when no dead node has a second one. */
  predicate Lossless(vs: seq<HnNode>) {
    vs == []
    || ((vs[0].Dead() ==> AtMostOneLive(vs[0].children)) && Lossless(vs[0].children) && Lossless(vs[1..]))
  }

  predicate AtMostOneLive(vs: seq<HnNode>) {
    vs == [] || (if Live([vs[0]]) > 0 then Live(vs[1..]) == 0 else AtMostOneLive(vs[1..]))
  }

  lemma {:induction false} HnKeepsAtMostLive(vs: seq<HnNode>, depth: nat, clean: Sanitizer)
    ensures Size(HnComments(vs, depth, clean)) <= Live(vs)
    ensures Size(HnComments(vs, depth, clean)) == Live(vs) <==> Lossless(vs)
    decreases vs
  {
    if vs != [] {
      var v, d := vs[0], depth + 1;
      var kids := HnComments(v.children, d, clean);
      HnKeepsAtMostLive(v.children, d, clean);
      HnKeepsAtMostLive(vs[1..], depth, clean);
      LiveOne(v);
      HnYields(v, depth, clean);
      var head := match HnComment(v, depth, clean) case Some(c) => [c] case None => [];
      SizeConcat(head, HnComments(vs[1..], depth, clean));
      SizeOfSort(kids);
      if v.Dead() {
        FirstOfLive(v.children, d, clean);
        assert head == if kids == [] then [] else [kids[0]];
      } else {
        assert head[1..] == [];
      }
    }
  }

  /** The first surviving reply holds all that survives exactly when it is the only one. */
  lemma {:induction false} FirstOfLive(vs: seq<HnNode>, depth: nat, clean: Sanitizer)
    ensures var kids := HnComments(vs, depth, clean);
            var first := if kids == [] then [] else [kids[0]];
            Size(first) <= Size(kids) && (Size(first) == Size(kids) <==> AtMostOneLive(vs))
  {
    if vs != [] {
      var v := vs[0];
      var kids, rest := HnComments(vs, depth, clean), HnComments(vs[1..], depth, clean);
      HnYields(v, depth, clean);
      HnYieldsAny(vs[1..], depth, clean);
      match HnComment(v, depth, clean) {
        case None =>
          assert kids == rest;
          FirstOfLive(vs[1..], depth, clean);
        case Some(c) =>
          assert kids == [c] + rest && kids[0] == c;
          SizeConcat([c], rest);
      }
    }
  }

  /** The comment on a dead node promises to keep its live replies. It keeps one: the
      thread then announces more comments than it holds. */
  lemma DeadNodeLosesReplies(clean: Sanitizer)
    ensures var reply := HnNode(Some("yes"), Some("ann"), None, []);
            var dead := HnNode(None, None, None, [reply, reply]);
            Live([dead]) == 2 && Size(HnComments([dead], 0, clean)) == 1
  {
    var reply := HnNode(Some("yes"), Some("ann"), None, []);
    var dead := HnNode(None, None, None, [reply, reply]);
    LiveOne(dead);
    LiveOne(reply);
    assert dead.children[1..] == [reply];
    assert Live(dead.children) == 2;
    var c := Comment("ann", None, clean("yes"), 1, []);
    assert HnComments([], 2, clean) == [] && SortByPoints([]) == [];
    assert HnComment(reply, 1, clean) == Some(c);
    assert HnComments(dead.children, 1, clean)[0] == c;
    assert HnComment(dead, 0, clean) == Some(c);
    assert [dead][1..] == [];
    assert HnComments([dead], 0, clean) == [c];
    assert [c][1..] == [];
  }

  // -------------------------------------------------------------------------
  // Reddit
  // -------------------------------------------------------------------------

  /** A `t1` child with its author, its body (`body_html` unescaped, else `body`) and
      its replies, or anything else. */
  datatype RedditNode =
    | Other
    | T1(author: string, body: string, score: Option<int>, replies: seq<RedditNode>)
  {
    predicate Dropped() { Other? || author == "" || author == "[deleted]" || body == "" }
  }

  function RedditComment(v: RedditNode, depth: nat, clean: Sanitizer): Option<Comment>
    decreases v, 0
  {
    if v.Dropped() then None
    else Some(Comment(v.author, v.score, clean(v.body), depth,
                 SortByPoints(RedditComments(v.replies, depth + 1, clean))))
  }

  function RedditComments(vs: seq<RedditNode>, depth: nat, clean: Sanitizer): seq<Comment>
    decreases vs, 1
  {
    if vs == [] then []
    else (match RedditComment(vs[0], depth, clean) case Some(c) => [c] case None => [])
         + RedditComments(vs[1..], depth, clean)
  }

  /** `reddit_node`: here the counter always agrees with the forest. */
  method ReadRedditNode(v: RedditNode, depth: nat, total: nat, clean: Sanitizer)
    returns (c: Option<Comment>, total': nat)
    ensures c == RedditComment(v, depth, clean)
    ensures total' == total + Size(if c.Some? then [c.value] else [])
    decreases v
  {
    if v.Dropped() {
      return None, total;
    }
    total' := total + 1;
    var children: seq<Comment> := [];
    assert v.replies[0..] == v.replies;
    for i := 0 to |v.replies|
      invariant children + RedditComments(v.replies[i..], depth + 1, clean)
             == RedditComments(v.replies, depth + 1, clean)
      invariant total' == total + 1 + Size(children)
    {
      RedditStep(v.replies, i, depth + 1, clean, children);
      var reply;
      reply, total' := ReadRedditNode(v.replies[i], depth + 1, total', clean);
      if reply.Some? {
        SizeConcat(children, [reply.value]);
        children := children + [reply.value];
      }
    }
    assert children + [] == children;
    SizeOfSort(children);
    c := Some(Comment(v.author, v.score, clean(v.body), depth, SortByPoints(children)));
    SizeOfOne(c.value);
  }

  lemma RedditStep(vs: seq<RedditNode>, i: nat, depth: nat, clean: Sanitizer, kept: seq<Comment>)
    requires i < |vs|
    ensures var c := RedditComment(vs[i], depth, clean);
            kept + RedditComments(vs[i..], depth, clean)
            == (if c.Some? then kept + [c.value] else kept) + RedditComments(vs[i + 1..], depth, clean)
  {
    assert vs[i..][1..] == vs[i + 1..];
  }

  lemma SizeOfOne(c: Comment)
    ensures Size([c]) == 1 + Size(c.children)
  {
    assert [c][1..] == [];
  }
}
