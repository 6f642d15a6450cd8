/** Comment bodies in `src/comments.rs`: their visible text, its word count, and the cut to a number of characters. */
module CommentText {
  import opened Text
  import opened Entities

  // -------------------------------------------------------------------------
  // strip_tags
  // -------------------------------------------------------------------------

  /** The text outside `<…>`; a stray `>` is dropped as well. */
  function Untagged(html: string, inTag: bool): string {
    if html == "" then ""
    else if html[0] == '<' then Untagged(html[1..], true)
    else if html[0] == '>' then Untagged(html[1..], false)
    else (if inTag then "" else [html[0]]) + Untagged(html[1..], inTag)
  }

  method RemoveTags(html: string) returns (out: string)
    ensures out == Untagged(html, false)
  {
    out := "";
    var inTag := false;
    assert html[0..] == html;
    for i := 0 to |html|
      invariant out + Untagged(html[i..], inTag) == Untagged(html, false)
    {
      assert html[i..][1..] == html[i + 1..];
      if html[i] == '<' {
        inTag := true;
      } else if html[i] == '>' {
        inTag := false;
      } else if !inTag {
        out := out + [html[i]];
      }
    }
  }

  /** `unescape_entities`, one `replace` after another. */
  function UnescapeEntities(s: string): string {
    var a := Replace(s, "&lt;", "<");
    var b := Replace(a, "&gt;", ">");
    var c := Replace(b, "&quot;", "\"");
    var d := Replace(c, "&#39;", "'");
    var e := Replace(d, "&#x200B;", "");
    var f := Replace(e, "&nbsp;", " ");
    Replace(f, "&amp;", "&")
  }

  predicate NonSpace(c: char) { !IsWhitespace(c) }

  /** `split_whitespace`. */
  function Words(s: string): seq<string>
    decreases |s|
  {
    if s == "" then []
    else if IsWhitespace(s[0]) then Words(s[1..])
    else [Head(s, NonSpace)] + Words(Drop(s, NonSpace))
  }

  /** `join(" ")`. */
  function JoinWords(words: seq<string>): string {
    if words == [] then ""
    else if |words| == 1 then words[0]
    else words[0] + " " + JoinWords(words[1..])
  }

  function StripTags(html: string): string {
    JoinWords(Words(UnescapeEntities(Untagged(html, false))))
  }

  /** The budget's unit of cost. */
  function WordCount(html: string): nat { |Words(StripTags(html))| }

  // --- Normal text -----------------------------------------------------------

  /** Single spaces between words and none at either end. */
  predicate Normal(s: string) {
    && (forall i :: 0 <= i < |s| && IsWhitespace(s[i]) ==> s[i] == ' ' && 0 < i < |s| - 1)
    && (forall i :: 0 <= i < |s| - 1 && IsWhitespace(s[i]) ==> !IsWhitespace(s[i + 1]))
  }

  predicate Word(w: string) {
    w != "" && forall i :: 0 <= i < |w| ==> !IsWhitespace(w[i])
  }

  lemma {:induction false} HeadIsWord(s: string)
    ensures forall i :: 0 <= i < |Head(s, NonSpace)| ==> !IsWhitespace(Head(s, NonSpace)[i])
    ensures s == Head(s, NonSpace) + Drop(s, NonSpace)
    ensures Drop(s, NonSpace) == "" || IsWhitespace(Drop(s, NonSpace)[0])
  {
    if s != "" && NonSpace(s[0]) { HeadIsWord(s[1..]); }
  }

  lemma {:induction false} WordsAreWords(s: string)
    ensures forall w :: w in Words(s) ==> Word(w)
    decreases |s|
  {
    if s != "" {
      if IsWhitespace(s[0]) {
        WordsAreWords(s[1..]);
      } else {
        HeadIsWord(s);
        WordsAreWords(Drop(s, NonSpace));
      }
    }
  }

  lemma {:induction false} JoinedIsNormal(words: seq<string>)
    requires forall w :: w in words ==> Word(w)
    ensures Normal(JoinWords(words))
    ensures words != [] ==> JoinWords(words) != ""
  {
    if words != [] { assert words[0] in words; }
    if |words| > 1 {
      var w, rest := words[0], JoinWords(words[1..]);
      JoinedIsNormal(words[1..]);
      var s := w + " " + rest;
      assert forall i :: 0 <= i < |w| ==> s[i] == w[i];
      assert forall i :: |w| < i < |s| ==> s[i] == rest[i - |w| - 1];
    }
  }

  lemma BehindWordIsNormal(s: string)
    requires Normal(s)
    ensures var w, rest := Head(s, NonSpace), Drop(s, NonSpace);
            if rest == "" then s == w
            else rest[0] == ' ' && rest[1..] != "" && Normal(rest[1..]) && s == w + " " + rest[1..]
  {
    HeadIsWord(s);
    var w, rest := Head(s, NonSpace), Drop(s, NonSpace);
    if rest != "" {
      var tail := rest[1..];
      assert rest[0] == s[|w|];
      assert forall i :: 0 <= i < |tail| ==> tail[i] == s[|w| + 1 + i];
    }
  }

  /** Splitting and joining again leaves normal text alone. */
  lemma {:induction false} NormalIsFixed(s: string)
    requires Normal(s)
    ensures JoinWords(Words(s)) == s
    decreases |s|
  {
    if s != "" {
      var w, rest := Head(s, NonSpace), Drop(s, NonSpace);
      BehindWordIsNormal(s);
      if rest != "" {
        NormalIsFixed(rest[1..]);
        assert Words(rest) == Words(rest[1..]);
      }
    }
  }

  lemma StrippedIsNormal(html: string)
    ensures Normal(StripTags(html))
  {
    WordsAreWords(UnescapeEntities(Untagged(html, false)));
    JoinedIsNormal(Words(UnescapeEntities(Untagged(html, false))));
  }

  // -------------------------------------------------------------------------
  // Unescaping undoes escaping
  // -------------------------------------------------------------------------

  /** Text in which the characters of `code` are written as their entities. */
  function Coded(code: map<char, string>, s: string): string {
    if s == "" then "" else (if s[0] in code then code[s[0]] else [s[0]]) + Coded(code, s[1..])
  }

  /** `&` is coded, and everything is coded as an entity. */
  ghost predicate Codes(code: map<char, string>) {
    '&' in code && forall c :: c in code ==> Entity(code[c])
  }

  lemma {:induction false} ReplaceCopies(a: string, s: string, from: string, to: string)
    requires Entity(from) && '&' !in a
    ensures Replace(a + s, from, to) == a + Replace(s, from, to)
  {
    if a == "" {
      assert a + s == s;
    } else {
      assert (a + s)[1..] == a[1..] + s && (a + s)[0] == a[0];
      ReplaceCopies(a[1..], s, from, to);
    }
  }

  /** Replacing an entity that codes `c` by `c` itself stops coding `c`; replacing
      one that codes nothing does nothing. */
  lemma {:induction false} ReplaceUncodes(code: map<char, string>, from: string, to: string, gone: set<char>, s: string)
    requires Codes(code) && Entity(from)
    requires forall c :: c in code && c !in gone ==> !(from <= code[c]) && !(code[c] <= from)
    requires forall c :: c in gone ==> c in code && code[c] == from && to == [c]
    ensures Replace(Coded(code, s), from, to) == Coded(code - gone, s)
    decreases |s|
  {
    if s != "" {
      var c, rest := s[0], Coded(code, s[1..]);
      ReplaceUncodes(code, from, to, gone, s[1..]);
      if c !in code {
        ReplaceCopies([c], rest, from, to);
      } else if c in gone {
        assert (from + rest)[|from|..] == rest;
      } else {
        ReplaceSkips(code[c], rest, from, to);
      }
    }
  }

  lemma ReplaceSkips(e: string, rest: string, from: string, to: string)
    requires Entity(e) && Entity(from) && !(from <= e) && !(e <= from)
    ensures Replace(e + rest, from, to) == e + Replace(rest, from, to)
  {
    if from <= e + rest { PrefixOfConcat(e, rest, from); }
    var tail := e[1..];
    assert (e + rest)[1..] == tail + rest && (e + rest)[0] == e[0];
    ReplaceCopies(tail, rest, from, to);
    assert [e[0]] + (tail + Replace(rest, from, to)) == e + Replace(rest, from, to);
  }

  lemma PrefixOfConcat(e: string, rest: string, from: string)
    requires from <= e + rest
    ensures from <= e || e <= from
  {
    if |from| <= |e| {
      assert (e + rest)[..|from|] == e[..|from|];
    } else {
      assert (e + rest)[..|from|][..|e|] == e;
    }
  }

  const TEXT_CODE: map<char, string> := map['&' := "&amp;", '<' := "&lt;", '>' := "&gt;"]

  lemma {:induction false} TextEscapeIsCoded(s: string)
    ensures TextEscaper.Escape(s) == Coded(TEXT_CODE, s)
  {
    if s != "" { TextEscapeIsCoded(s[1..]); }
  }

  lemma {:induction false} UncodedIsPlain(code: map<char, string>, s: string)
    requires forall c :: c in s ==> c !in code
    ensures Coded(code, s) == s
  {
    if s != "" { UncodedIsPlain(code, s[1..]); }
  }

  const AMP_CODE: map<char, string> := map['&' := "&amp;"]

  lemma BracketsAreUncoded(s: string)
    ensures Replace(Replace(TextEscaper.Escape(s), "&lt;", "<"), "&gt;", ">") == Coded(AMP_CODE, s)
  {
    TextEscapeIsCoded(s);
    var gt := map['&' := "&amp;", '>' := "&gt;"];
    CodeEntitiesDiffer();
    ReplaceUncodes(TEXT_CODE, "&lt;", "<", {'<'}, s);
    assert TEXT_CODE - {'<'} == gt;
    ReplaceUncodes(gt, "&gt;", ">", {'>'}, s);
    assert gt - {'>'} == AMP_CODE;
  }

  /** The chain undoes `text_escape`, although it is no one-pass decoder: escaped
      text holds no `&#x200B;` whose deletion could join its neighbours. */
  lemma UnescapeUndoesTextEscape(s: string)
    ensures UnescapeEntities(TextEscaper.Escape(s)) == s
  {
    BracketsAreUncoded(s);
    var amp := AMP_CODE;
    CodeEntitiesDiffer();
    assert amp - {} == amp;
    ReplaceUncodes(amp, "&quot;", "\"", {}, s);
    ReplaceUncodes(amp, "&#39;", "'", {}, s);
    ReplaceUncodes(amp, "&#x200B;", "", {}, s);
    ReplaceUncodes(amp, "&nbsp;", " ", {}, s);
    ReplaceUncodes(amp, "&amp;", "&", {'&'}, s);
    assert amp - {'&'} == map[];
    UncodedIsPlain(map[], s);
  }

  lemma CodeEntitiesDiffer()
    ensures "&lt;"[1] == 'l' && "&gt;"[1] == 'g' && "&amp;"[1] == 'a' && "&quot;"[1] == 'q' && "&#39;"[1] == '#'
    ensures "&#x200B;"[1] == '#' && "&nbsp;"[1] == 'n'
  {
  }

  // --- One entity at a time ---------------------------------------------------

  /** The chain, as a table of what is replaced by what. */
  const CHAIN: seq<(string, string)> :=
    [("&lt;", "<"), ("&gt;", ">"), ("&quot;", "\""), ("&#39;", "'"), ("&#x200B;", ""), ("&nbsp;", " "), ("&amp;", "&")]

  predicate AreEntities(codes: seq<(string, string)>) { forall i :: 0 <= i < |codes| ==> Entity(codes[i].0) }

  function Replaced(s: string, codes: seq<(string, string)>): string
    requires AreEntities(codes)
    decreases |codes|
  {
    if codes == [] then s
    else
      assert forall i :: 0 <= i < |codes[1..]| ==> codes[1..][i] == codes[i + 1];
      Replaced(Replace(s, codes[0].0, codes[0].1), codes[1..])
  }

  predicate Apart(e: string, f: string) { !(e <= f) && !(f <= e) }

  lemma {:induction false} PlainIsReplaced(s: string, codes: seq<(string, string)>)
    requires AreEntities(codes) && '&' !in s
    ensures Replaced(s, codes) == s
  {
    if codes != [] {
      ReplaceNothing(s, codes[0].0, codes[0].1);
      PlainIsReplaced(s, codes[1..]);
    }
  }

  lemma ReplaceAround(a: string, e: string, b: string, from: string, to: string)
    requires '&' !in a && '&' !in b && Entity(e) && Entity(from) && (e == from || Apart(from, e))
    ensures Replace(a + (e + b), from, to) == a + ((if e == from then to else e) + b)
  {
    ReplaceCopies(a, e + b, from, to);
    ReplaceNothing(b, from, to);
    if e == from {
      assert (e + b)[|from|..] == b;
    } else {
      ReplaceSkips(e, b, from, to);
    }
  }

  lemma {:induction false} EntityIsReplaced(a: string, b: string, codes: seq<(string, string)>, i: nat)
    requires AreEntities(codes) && i < |codes| && '&' !in a && '&' !in b
    requires forall j :: 0 <= j < i ==> Apart(codes[j].0, codes[i].0)
    requires '&' !in codes[i].1 || i == |codes| - 1
    ensures Replaced(a + (codes[i].0 + b), codes) == a + (codes[i].1 + b)
  {
    var (e, c) := codes[i];
    var (from, to) := codes[0];
    var rest := codes[1..];
    assert forall k :: 0 <= k < |rest| ==> rest[k] == codes[k + 1];
    ReplaceAround(a, e, b, from, to);
    if i > 0 {
      EntityIsReplaced(a, b, rest, i - 1);
    } else if '&' !in c {
      PlainIsReplaced(a + (c + b), rest);
    }
  }

  lemma ChainIsTable(s: string)
    ensures AreEntities(CHAIN) && Replaced(s, CHAIN) == UnescapeEntities(s)
  {
    ChainIsApart();
    var c := CHAIN;
    var r1 := c[1..];
    var r2 := r1[1..];
    var r3 := r2[1..];
    var r4 := r3[1..];
    var r5 := r4[1..];
    var r6 := r5[1..];
    assert r2 == c[2..] && r3 == c[3..] && r4 == c[4..] && r5 == c[5..] && r6 == c[6..] && r6[1..] == [];
  }

  lemma ChainIsApart()
    ensures AreEntities(CHAIN) && forall i, j :: 0 <= j < i < |CHAIN| ==> Apart(CHAIN[j].0, CHAIN[i].0)
  {
    var c := CHAIN;
    assert Second(c[0].0) == ('l', 't') && Second(c[1].0) == ('g', 't') && Second(c[2].0) == ('q', 'u');
    assert Second(c[3].0) == ('#', '3') && Second(c[4].0) == ('#', 'x');
    assert Second(c[5].0) == ('n', 'b') && Second(c[6].0) == ('a', 'm');
    ChainEntities();
    forall i, j | 0 <= j < i < |c| ensures Apart(c[j].0, c[i].0) {
      SecondApart(c[j].0, c[i].0);
    }
  }

  lemma ChainEntities()
    ensures AreEntities(CHAIN) && forall i :: 0 <= i < |CHAIN| ==> |CHAIN[i].0| >= 3
  {
  }

  function Second(e: string): (char, char)
    requires |e| >= 3
  {
    (e[1], e[2])
  }

  lemma SecondApart(e: string, f: string)
    requires |e| >= 3 && |f| >= 3 && Second(e) != Second(f)
    ensures Apart(e, f)
  {
  }

  /** Each entity of the chain stands for its text, a zero-width space for nothing. */
  lemma ChainDecodes(a: string, b: string, i: nat)
    requires '&' !in a && '&' !in b && i < |CHAIN|
    ensures UnescapeEntities(a + (CHAIN[i].0 + b)) == a + (CHAIN[i].1 + b)
  {
    ChainIsApart();
    ChainIsTable(a + (CHAIN[i].0 + b));
    EntityIsReplaced(a, b, CHAIN, i);
  }

  // -------------------------------------------------------------------------
  // ellipsize_html
  // -------------------------------------------------------------------------

  /** `rfind(' ')`. */
  function LastSpace(s: string): (r: Option<nat>)
    ensures r.Some? ==> r.value < |s| && s[r.value] == ' '
  {
    if s == "" then None
    else if s[|s| - 1] == ' ' then Some(|s| - 1)
    else LastSpace(s[..|s| - 1])
  }

  /** The visible text that is kept: a word boundary is preferred when it lies past
      three quarters of the limit. The boundary is compared in bytes, the limit
      counts characters. */
  function CutText(text: string, max: nat): (r: string)
    requires max <= |text|
    ensures r <= text && |r| <= max
  {
    var kept := text[..max];
    match LastSpace(kept)
    case Some(i) => TrimEnd(if ByteLen(kept[..i]) > max * 3 / 4 then kept[..i] else kept)
    case None => TrimEnd(kept)
  }

  const ELLIPSIS := "\U{2026}"

  function Ellipsize(html: string, max: nat): string {
    var text := StripTags(html);
    if |text| <= max then html
    else "<p>" + TextEscaper.Escape(CutText(text, max)) + ELLIPSIS + "</p>"
  }

  lemma {:induction false} UntaggedPlain(a: string, rest: string)
    requires '<' !in a && '>' !in a
    ensures Untagged(a + rest, false) == a + Untagged(rest, false)
  {
    if a == "" {
      assert a + rest == rest;
    } else {
      assert (a + rest)[1..] == a[1..] + rest && (a + rest)[0] == a[0];
      UntaggedPlain(a[1..], rest);
    }
  }

  lemma {:induction false} UntaggedInside(tag: string, rest: string)
    requires '>' !in tag
    ensures Untagged(tag + (">" + rest), true) == Untagged(rest, false)
  {
    var s := tag + (">" + rest);
    if tag == "" {
      assert s[0] == '>' && s[1..] == rest;
    } else {
      assert s[0] == tag[0] && s[1..] == tag[1..] + (">" + rest);
      UntaggedInside(tag[1..], rest);
    }
  }

  /** What is kept of text, tags and stray brackets: the text in front of a tag, nothing of
      the tag up to its first `>`, nothing behind a `<` that is never closed, and no
      stray `>`. */
  lemma TagsAreRemoved(text: string, tag: string, rest: string)
    requires '<' !in text && '>' !in text && '>' !in tag
    ensures Untagged(text + ("<" + (tag + (">" + rest))), false) == text + Untagged(rest, false)
    ensures Untagged(text + (">" + rest), false) == text + Untagged(rest, false)
    ensures Untagged(text + ("<" + tag), false) == text
  {
    var open, stray, cut := "<" + (tag + (">" + rest)), ">" + rest, "<" + tag;
    UntaggedPlain(text, open);
    UntaggedPlain(text, stray);
    UntaggedPlain(text, cut);
    assert open[1..] == tag + (">" + rest) && stray[1..] == rest && cut[1..] == tag;
    UntaggedInside(tag, rest);
    NothingInside(tag);
  }

  lemma {:induction false} NothingInside(tag: string)
    requires '>' !in tag
    ensures Untagged(tag, true) == ""
  {
    if tag != "" { NothingInside(tag[1..]); }
  }

  lemma UntaggedParagraph(a: string)
    requires '<' !in a && '>' !in a
    ensures Untagged("<p>" + a + "</p>", false) == a
  {
    var s := "<p>" + a + "</p>";
    var t := a + "</p>";
    var p, close := "p>" + t, ">" + t;
    assert s[1..] == p && p[1..] == close && close[1..] == t;
    assert Untagged(close, true) == Untagged(t, false);
    assert Untagged(p, true) == Untagged(close, true);
    assert Untagged(s, false) == Untagged(p, true);
    UntaggedPlain(a, "</p>");
    var e := "</p>";
    assert e[1..] == "/p>" && e[1..][1..] == "p>" && e[1..][1..][1..] == ">" && e[1..][1..][1..][1..] == "";
    assert Untagged(e[1..], true) == "";
    assert Untagged(e, false) == "";
  }

  /** The visible text of a cut body is the kept text and the ellipsis, nothing else:
      unescaping is the identity on what the cut has just escaped. */
  lemma VisibleTextOfCut(html: string, max: nat)
    requires |StripTags(html)| > max
    ensures StripTags(Ellipsize(html, max)) == CutText(StripTags(html), max) + ELLIPSIS
  {
    var text := StripTags(html);
    StrippedIsNormal(html);
    var k := CutText(text, max);
    var t := k + ELLIPSIS;
    EscapeConcat(TextEscaper, k, ELLIPSIS);
    EllipsisIsPlain();
    EscapedIsInert(TextEscaper, t);
    UntaggedParagraph(TextEscaper.Escape(t));
    assert "<p>" + (TextEscaper.Escape(k) + ELLIPSIS) + "</p>" == "<p>" + TextEscaper.Escape(k) + ELLIPSIS + "</p>";
    UnescapeUndoesTextEscape(t);
    CutIsNormal(text, max);
    NormalIsFixed(t);
  }

  lemma EllipsisIsPlain()
    ensures TextEscaper.Escape(ELLIPSIS) == ELLIPSIS
  {
    var c := ELLIPSIS[0];
    assert ELLIPSIS == [c] && ELLIPSIS[1..] == "";
    assert TextEscaper.Char(c) == [c] && TextEscaper.Escape("") == "";
    assert [c] + "" == [c];
  }

  lemma CutIsNormal(text: string, max: nat)
    requires max <= |text| && Normal(text)
    ensures Normal(CutText(text, max) + ELLIPSIS)
  {
    var k := CutText(text, max);
    var t := k + ELLIPSIS;
    assert forall i :: 0 <= i < |k| ==> t[i] == k[i] == text[i];
    assert t[|k|] == ELLIPSIS[0];
  }

  /** The cut keeps as many characters as it may: it ends in no space, and no space lies
      so far behind that the cut would go back to it. */
  predicate KeepsAll(text: string, max: nat)
    requires max <= |text|
  {
    && (max > 0 ==> !IsWhitespace(text[max - 1]))
    && forall i :: 0 <= i < max && text[i] == ' ' ==> ByteLen(text[..i]) <= max * 3 / 4
  }

  lemma {:induction false} LastSpaceIsLast(s: string)
    ensures match LastSpace(s)
            case Some(last) => forall i :: last < i < |s| ==> s[i] != ' '
            case None => forall i :: 0 <= i < |s| ==> s[i] != ' '
  {
    if s != "" && s[|s| - 1] != ' ' { LastSpaceIsLast(s[..|s| - 1]); }
  }

  lemma WhenAllIsKept(text: string, max: nat)
    requires max < |text|
    ensures |CutText(text, max)| == max <==> KeepsAll(text, max)
  {
    var kept := text[..max];
    var last := LastSpace(kept);
    LastSpaceIsLast(kept);
    assert forall i :: 0 <= i < max ==> kept[i] == text[i];
    if last.Some? {
      assert kept[..last.value] == text[..last.value];
      forall i | 0 <= i <= last.value ensures ByteLen(text[..i]) <= ByteLen(text[..last.value]) {
        assert text[..last.value] == text[..i] + text[i..last.value];
        ByteLenConcat(text[..i], text[i..last.value]);
      }
    }
    assert max > 0 ==> kept[max - 1] == text[max - 1];
  }

  /** `i` is the last space among the first `max` characters. */
  predicate LastSpaceBefore(text: string, max: nat, i: nat) {
    i < max <= |text| && text[i] == ' ' && forall j :: i < j < max ==> text[j] != ' '
  }

  /** What the cut keeps of normal text, exactly: the text up to the last space, if that
      lies past three quarters of the limit or is the last character, and otherwise all
      that the limit allows. */
  lemma CutKeeps(text: string, max: nat)
    requires max < |text| && Normal(text)
    ensures forall i: nat :: LastSpaceBefore(text, max, i) ==>
              CutText(text, max) == if ByteLen(text[..i]) > max * 3 / 4 || i == max - 1 then text[..i] else text[..max]
    ensures ' ' !in text[..max] ==> CutText(text, max) == text[..max]
  {
    var kept := text[..max];
    LastSpaceIsLast(kept);
    if LastSpace(kept).Some? {
      var i := LastSpace(kept).value;
      assert LastSpaceBefore(text, max, i);
      assert forall j: nat :: LastSpaceBefore(text, max, j) ==> j == i;
      assert kept[..i] == text[..i];
      assert i > 0 && !IsWhitespace(text[i - 1]);
      TrimmedAt(text, i);
      if i < max - 1 { TrimmedAt(text, max); } else { TrimmedBehindSpace(text, max); }
      assert ' ' in text[..max];
    } else {
      assert forall j: nat :: j < max ==> text[j] == kept[j] != ' ';
      if max > 0 { TrimmedAt(text, max); }
    }
  }

  lemma TrimmedAt(text: string, n: nat)
    requires 0 < n <= |text| && !IsWhitespace(text[n - 1])
    ensures TrimEnd(text[..n]) == text[..n]
  {
  }

  lemma TrimmedBehindSpace(text: string, n: nat)
    requires 1 < n <= |text| && IsWhitespace(text[n - 1]) && !IsWhitespace(text[n - 2])
    ensures TrimEnd(text[..n]) == text[..n - 1]
  {
    assert text[..n][..n - 1] == text[..n - 1];
  }

  /** At most `max` characters and the ellipsis are visible afterwards, and one over the
      limit exactly if the text is cut and the cut keeps all it may. */
  lemma EllipsizedIsShort(html: string, max: nat)
    ensures |StripTags(Ellipsize(html, max))| <= max + 1
    ensures |StripTags(Ellipsize(html, max))| == max + 1 <==> |StripTags(html)| > max && KeepsAll(StripTags(html), max)
  {
    if |StripTags(html)| > max {
      VisibleTextOfCut(html, max);
      WhenAllIsKept(StripTags(html), max);
    }
  }

  /** Cutting twice is cutting once. The result may be one character over the limit,
      but then a second cut lands in the same place. */
  lemma EllipsizeIsIdempotent(html: string, max: nat)
    ensures Ellipsize(Ellipsize(html, max), max) == Ellipsize(html, max)
  {
    var text := StripTags(html);
    if |text| > max {
      VisibleTextOfCut(html, max);
      var k := CutText(text, max);
      if |k| == max {
        assert (k + ELLIPSIS)[..max] == k == text[..max];
      }
    }
  }

  lemma EllipsizeKeepsNonEmpty(html: string, max: nat)
    ensures Ellipsize(html, max) == "" <==> html == ""
  {
    if html == "" {
      assert StripTags("") == "" by { assert Replace("", "&lt;", "<") == ""; }
    }
  }
}
