/** What `to_xhtml` in `src/html.rs` writes for each tag, comment and run of text, told
    without the functions that write it. */
module HtmlTags {
  import opened Text
  import opened Html
  import opened TagAttributes

  predicate AllOf(s: string, c: char) { forall i :: 0 <= i < |s| ==> s[i] == c }
  predicate Blank(s: string) { forall i :: 0 <= i < |s| ==> IsWhitespace(s[i]) }

  // -------------------------------------------------------------------------
  // Closing a tag inserts a slash and drops the whitespace before it
  // -------------------------------------------------------------------------

  /** `raw` is a tag with the inside `body`, and `closed` the same tag, self-closed. */
  predicate SelfCloses(raw: string, closed: string, marks: string, body: string, space: string) {
    && marks != "" && AllOf(marks, '<') && body != "" && body[0] != '<' && Blank(space)
    && raw == marks + (body + (space + ">")) && closed == "<" + (body + "/>")
  }

  lemma {:induction false} StripStartSplits(s: string, c: char)
    ensures |StripStart(s, c)| <= |s|
    ensures var n := |s| - |StripStart(s, c)|; AllOf(s[..n], c) && StripStart(s, c) == s[n..]
  {
    if s != "" && s[0] == c {
      StripStartSplits(s[1..], c);
      var n := |s| - |StripStart(s, c)|;
      assert s[..n] == [c] + s[1..][..n - 1] && s[1..][n - 1..] == s[n..];
    }
  }

  /** The inside of a quiet tag stands between its `<` and its last `>`. */
  lemma InsideOfTag(body: string)
    requires Quiet(body, None) && QuoteState(body, None) == None
    ensures Inner("<" + body + ">") == StripStart(body, '<')
  {
    var inner := StripStart(body, '<');
    StripsToInside(body);
    QuietStrip(body);
    LastBeforeEnd(inner, None);
    LastMarkGoes(inner);
  }

  lemma StripsToInside(body: string)
    ensures StripStart("<" + body + ">", '<') == StripStart(body, '<') + ">"
  {
    assert ("<" + body + ">")[1..] == body + ">";
    QuietStrip(body);
  }

  lemma LastMarkGoes(inner: string)
    requires inner == "" || inner[|inner| - 1] != '>'
    ensures StripEnd(inner + ">", '>') == inner
  {
    StripEndOnce(inner + ">", '>');
  }

  lemma MarksBefore(body: string) returns (marks: string)
    ensures marks != "" && AllOf(marks, '<') && "<" + body + ">" == marks + (StripStart(body, '<') + ">")
  {
    StripStartSplits(body, '<');
    var more := body[..|body| - |StripStart(body, '<')|];
    marks := "<" + more;
    assert body == more + StripStart(body, '<');
  }

  lemma TagAroundInside(raw: string) returns (marks: string)
    requires raw != "" && raw[0] == '<' && TagLen(raw) == Some(|raw|) && NeedsClosing(raw)
    ensures marks != "" && AllOf(marks, '<') && raw == marks + (Inner(raw) + ">")
  {
    VoidIsNoComment(raw);
    PlainTagIsQuiet(raw);
    InsideOfTag(raw[1..|raw| - 1]);
    marks := MarksBefore(raw[1..|raw| - 1]);
  }

  /** Closing changes nothing but the slash in front of the last `>` and the whitespace
      in front of that. */
  lemma ClosingKeepsTheTag(raw: string) returns (marks: string, body: string, space: string)
    requires raw != "" && raw[0] == '<' && TagLen(raw) == Some(|raw|) && NeedsClosing(raw)
    ensures SelfCloses(raw, CloseTag(raw), marks, body, space)
  {
    var inner := Inner(raw);
    marks := TagAroundInside(raw);
    InnerOfTag(raw);
    body := TrimEnd(inner);
    space := inner[|body|..];
    assert inner == body + space;
    assert body + (space + ">") == inner + ">";
    assert "<" + (body + "/>") == "<" + body + "/>";
  }

  /** The shape of what `to_xhtml` writes for a piece: the piece itself, or the tag
      self-closed, in either case with `&nbsp;` made numeric. */
  ghost predicate WrittenFor(p: Piece, q: Piece) {
    || (q.Shown() == Numeric(p.Shown()) && (p.Tag? ==> !NeedsClosing(p.raw)))
    || (p.Tag? && NeedsClosing(p.raw)
        && exists closed, marks, body, space ::
             SelfCloses(p.raw, closed, marks, body, space) && q.Shown() == Numeric(closed))
  }

  /** The output has the pieces of the input, of the same kinds and in the same order.
      Text and other tags are as they were; in a void tag that was open, one slash is new
      and the whitespace before it is gone. Attributes, their quotes and their order stay. */
  lemma OnlySlashesAreInserted(html: string)
    ensures |Scan(ToXhtml(html))| == |Scan(html)|
    ensures forall i :: 0 <= i < |Scan(html)| ==>
              var p, q := Scan(html)[i], Scan(ToXhtml(html))[i];
              (p.Text? <==> q.Text?) && (p.Tag? <==> q.Tag?) && WrittenFor(p, q)
  {
    SecondScanFindsTheSamePieces(html);
    var pieces, closed := Scan(html), ClosePieces(Scan(html));
    forall i | 0 <= i < |pieces|
      ensures var p, q := pieces[i], Scan(ToXhtml(html))[i];
              (p.Text? <==> q.Text?) && (p.Tag? <==> q.Tag?) && WrittenFor(p, q)
    {
      var p, q := pieces[i], Scan(ToXhtml(html))[i];
      assert q == closed[i].Renamed() && closed[i] == p.Closed();
      if p.Tag? && NeedsClosing(p.raw) {
        TagsAreTags(html, i);
        var marks, body, space := ClosingKeepsTheTag(p.raw);
        assert SelfCloses(p.raw, CloseTag(p.raw), marks, body, space);
      }
    }
  }

  // -------------------------------------------------------------------------
  // to_xhtml, piece by piece
  // -------------------------------------------------------------------------

  /** The output starts with the markup up to the end of the first tag, closed and numeric. */
  lemma FirstTagIsWritten(raw: string, rest: string)
    requires raw != "" && raw[0] == '<' && TagLen(raw) == Some(|raw|)
    ensures ToXhtml(raw + rest) == Numeric(CloseTag(raw)) + ToXhtml(rest)
  {
    TagLenIgnoresRest(raw, rest);
    CloseMarkup(raw + rest);
    assert (raw + rest)[..|raw|] == raw && (raw + rest)[|raw|..] == rest;
    ClosedTagIsOneTag(raw);
    NumericTag(CloseTag(raw), Close(rest));
  }

  /** Text up to the next tag passes through, with `&nbsp;` made numeric. */
  lemma TextIsWritten(run: string, rest: string)
    requires '<' !in run && (rest == "" || rest[0] == '<')
    ensures ToXhtml(run + rest) == Numeric(run) + ToXhtml(rest)
  {
    RescanClosed(rest);
    CloseRun(run, rest);
    if run == "" {
      assert run + Close(rest) == Close(rest);
    } else {
      NumericRun(run, Close(rest));
    }
  }

  /** So does a comment, up to the first `-->` and whatever tags it holds. */
  lemma CommentIsWritten(text: string, rest: string)
    requires Shift(Find("<!--" + text, "-->"), 3) == Some(4 + |text|)
    ensures ToXhtml(("<!--" + text) + rest) == Numeric("<!--" + text) + ToXhtml(rest)
  {
    CommentOpens(text);
    CommentStays("<!--" + text, rest);
  }

  lemma CommentOpens(text: string)
    ensures OpensComment("<!--" + text)
  {
  }

  lemma CommentStays(comment: string, rest: string)
    requires OpensComment(comment) && Shift(Find(comment, "-->"), 3) == Some(|comment|)
    ensures ToXhtml(comment + rest) == Numeric(comment) + ToXhtml(rest)
  {
    FirstTagIsWritten(comment, rest);
    if NeedsClosing(comment) { VoidIsNoComment(comment); }
  }

  /** And a declaration, which is no comment, up to its first `>` outside quotes. */
  lemma DeclarationIsWritten(text: string, rest: string)
    requires !("--" <= text) && Quiet("!" + text, None) && QuoteState("!" + text, None) == None
    ensures ToXhtml(("<" + ("!" + text) + ">") + rest) == Numeric("<" + ("!" + text) + ">") + ToXhtml(rest)
  {
    var body := "!" + text;
    var raw := "<" + body + ">";
    ScanStopsAt(body, "", None);
    assert raw[1..] == body + ">" + "" && raw[1] == '!';
    NoCommentHere(text, raw);
    FirstTagIsWritten(raw, rest);
    InsideOfTag(body);
    assert body[0] == '!' && StripStart(body, '<') == body;
    BangIsNoLetter(body);
    if NeedsClosing(raw) { VoidNamesAreLetters(TagName(body)); }
  }

  lemma NoCommentHere(text: string, raw: string)
    requires !("--" <= text) && raw == "<" + ("!" + text) + ">"
    ensures !OpensComment(raw)
  {
    if |text| >= 2 {
      assert raw[2] == text[0] && raw[3] == text[1];
      assert text[..2] == [text[0], text[1]];
    } else if |text| == 1 {
      assert raw[3] == '>';
    }
  }

  /** What can be the name of a tag. */
  predicate ElementName(name: string) {
    name != "" && name[0] != '!' && forall i :: 0 <= i < |name| ==> NameChar(name[i]) && name[i] !in "<&\"'"
  }

  /** What can follow the name: it starts with whitespace or a slash, and a `>` stands in
      quotes only, all of them closed. */
  predicate FollowsName(attrs: string) {
    && (attrs == "" || IsWhitespace(attrs[0]) || attrs[0] == '/')
    && Quiet(attrs, None) && QuoteState(attrs, None) == None
  }

  lemma {:induction false} PlainIsQuiet(s: string)
    requires forall i :: 0 <= i < |s| ==> s[i] !in ">\"'"
    ensures Quiet(s, None) && QuoteState(s, None) == None
  {
    if s != "" {
      assert s[0] !in ">\"'";
      PlainIsQuiet(s[1..]);
    }
  }

  lemma {:induction false} TrimEndConcat(a: string, b: string)
    requires a != "" && !IsWhitespace(a[|a| - 1])
    ensures TrimEnd(a + b) == a + TrimEnd(b)
  {
    if b != "" && IsWhitespace(b[|b| - 1]) {
      assert (a + b)[..|a + b| - 1] == a + b[..|b| - 1];
      TrimEndConcat(a, b[..|b| - 1]);
    } else {
      assert b == "" ==> a + b == a;
    }
  }

  lemma {:induction false} StripStartSkips(marks: string, s: string, c: char)
    requires AllOf(marks, c) && (s == "" || s[0] != c)
    ensures StripStart(marks + s, c) == s
  {
    if marks == "" {
      assert marks + s == s;
    } else {
      assert (marks + s)[1..] == marks[1..] + s && (marks + s)[0] == c;
      StripStartSkips(marks[1..], s, c);
    }
  }

  /** The name behind its slashes, if there are any. */
  predicate Marked(marked: string, slashes: string, name: string) {
    AllOf(slashes, '/') && ElementName(name) && marked == slashes + name
  }

  lemma MarkedIsPlain(marked: string, slashes: string, name: string)
    requires Marked(marked, slashes, name)
    ensures forall i :: 0 <= i < |marked| ==> marked[i] !in "<>&\"'"
    ensures marked != "" && marked[0] != '!' && !IsWhitespace(marked[|marked| - 1]) && marked[|marked| - 1] != '/'
  {
    assert marked[|marked| - 1] == name[|name| - 1] && NameChar(name[|name| - 1]);
    forall i | 0 <= i < |marked| ensures marked[i] !in "<>&\"'" {
      if i < |slashes| {
        assert marked[i] == '/';
      } else {
        assert marked[i] == name[i - |slashes|] && NameChar(marked[i]);
      }
    }
    assert marked[0] == if slashes == "" then name[0] else '/';
  }

  lemma TagIsOneTag(marked: string, slashes: string, name: string, attrs: string)
    requires Marked(marked, slashes, name) && FollowsName(attrs)
    ensures var raw := "<" + (marked + attrs) + ">"; TagLen(raw) == Some(|raw|) && Inner(raw) == marked + attrs
  {
    var body := marked + attrs;
    var raw := "<" + body + ">";
    MarkedIsPlain(marked, slashes, name);
    assert forall i :: 0 <= i < |marked| ==> marked[i] !in ">\"'";
    PlainIsQuiet(marked);
    QuietConcat(marked, attrs, None);
    QuietBodyIsTag(body);
    InsideOfTag(body);
    assert body[0] == marked[0] && marked[0] !in "<>&\"'" && StripStart(body, '<') == body;
  }

  lemma NameIsRead(marked: string, slashes: string, name: string, attrs: string)
    requires Marked(marked, slashes, name) && (attrs == "" || IsWhitespace(attrs[0]) || attrs[0] == '/')
    ensures TagName(marked + attrs) == LowerAll(name)
  {
    assert marked + attrs == slashes + (name + attrs) && (name + attrs)[0] == name[0] && NameChar(name[0]);
    StripStartSkips(slashes, name + attrs, '/');
    HeadDropExact(name, attrs, NameChar);
  }

  lemma NumericAround(marked: string, attrs: string, end: string)
    requires '&' !in marked && (attrs == "" || IsWhitespace(attrs[0]) || attrs[0] == '/')
    requires end == ">" || end == "/>"
    ensures Numeric("<" + ((marked + attrs) + end)) == "<" + ((marked + Numeric(attrs)) + end)
  {
    ReplaceSplit("<", (marked + attrs) + end, NBSP, NBSP_NUMERIC);
    ReplaceSplit(marked + attrs, end, NBSP, NBSP_NUMERIC);
    assert attrs != "" ==> attrs[0] !in NBSP;
    ReplaceSplit(marked, attrs, NBSP, NBSP_NUMERIC);
    ReplaceNothing("<", NBSP, NBSP_NUMERIC);
    ReplaceNothing(marked, NBSP, NBSP_NUMERIC);
    ReplaceNothing(end, NBSP, NBSP_NUMERIC);
  }

  /** What is written for a tag, be it an end tag or not: a void element that is not
      self-closed yet is closed behind its last attribute; every other tag stays. Names are
      compared in lower case, without the slashes in front. */
  lemma TagIsWritten(slashes: string, name: string, attrs: string, rest: string)
    requires AllOf(slashes, '/') && ElementName(name) && FollowsName(attrs)
    ensures var marked := slashes + name;
            && ToXhtml(("<" + (marked + attrs) + ">") + rest)
               == (if IsVoid(LowerAll(name)) && !EndsWithSlash(TrimEnd(attrs))
                   then "<" + ((marked + Numeric(TrimEnd(attrs))) + "/>")
                   else "<" + ((marked + Numeric(attrs)) + ">"))
                  + ToXhtml(rest)
  {
    var marked := slashes + name;
    var raw := "<" + (marked + attrs) + ">";
    MarkedIsPlain(marked, slashes, name);
    TagIsOneTag(marked, slashes, name, attrs);
    ClosedTagIs(marked, slashes, name, attrs);
    FirstTagIsWritten(raw, rest);
    var kept := TrimEnd(attrs);
    assert kept != "" ==> kept[0] == attrs[0];
    assert forall i :: 0 <= i < |marked| ==> marked[i] !in "<>&\"'";
    NumericAround(marked, kept, "/>");
    NumericAround(marked, attrs, ">");
  }

  lemma ClosedTagIs(marked: string, slashes: string, name: string, attrs: string)
    requires Marked(marked, slashes, name) && FollowsName(attrs)
    ensures CloseTag("<" + (marked + attrs) + ">")
         == if IsVoid(LowerAll(name)) && !EndsWithSlash(TrimEnd(attrs))
            then "<" + ((marked + TrimEnd(attrs)) + "/>")
            else "<" + ((marked + attrs) + ">")
  {
    TagIsOneTag(marked, slashes, name, attrs);
    WhichAreClosed(marked, slashes, name, attrs);
    Regroup(marked + attrs, ">");
    Regroup(marked + TrimEnd(attrs), "/>");
  }

  lemma WhichAreClosed(marked: string, slashes: string, name: string, attrs: string)
    requires Marked(marked, slashes, name) && FollowsName(attrs)
    ensures var inner := marked + attrs;
            && TrimEnd(inner) == marked + TrimEnd(attrs)
            && (IsVoid(TagName(inner)) && !EndsWithSlash(TrimEnd(inner))
                <==> IsVoid(LowerAll(name)) && !EndsWithSlash(TrimEnd(attrs)))
  {
    MarkedIsPlain(marked, slashes, name);
    NameIsRead(marked, slashes, name, attrs);
    TrimEndConcat(marked, attrs);
    assert TrimEnd(attrs) == "" ==> marked + TrimEnd(attrs) == marked;
  }

  lemma Regroup(inside: string, end: string)
    ensures "<" + inside + end == "<" + (inside + end)
  {
  }

  /** The void elements are those of the list. */
  lemma VoidIsListed(name: string)
    ensures IsVoid(name) <==> name in VOID_ELEMENTS
  {
    AmongIsIn(name, VOID_ELEMENTS);
  }

  lemma {:induction false} AmongIsIn(name: string, names: seq<string>)
    ensures Among(name, names) <==> name in names
  {
    if names != [] { AmongIsIn(name, names[1..]); }
  }

  /** An end tag whose name is that of a void element, such as `</br>`, gains a slash as well. */
  lemma EndTagsOfVoidElements(name: string, rest: string)
    requires ElementName(name) && IsVoid(LowerAll(name))
    ensures ToXhtml(("<" + ("/" + name) + ">") + rest) == "<" + (("/" + name) + "/>") + ToXhtml(rest)
  {
    var marked := "/" + name;
    TagIsWritten("/", name, "", rest);
    assert marked + "" == marked && TrimEnd("") == "" && Numeric("") == "";
  }

  // -------------------------------------------------------------------------
  // Attributes as they are written
  // -------------------------------------------------------------------------

  predicate Gap(s: string) { forall i :: 0 <= i < |s| ==> IsWhitespace(s[i]) || s[i] == '/' }

  /** A `>` or a quote stands in quoted values only. */
  predicate PlainKeys(ws: seq<Written>) {
    forall k :: 0 <= k < |ws| ==>
      && (forall i :: 0 <= i < |ws[k].key| ==> ws[k].key[i] !in ">\"'")
      && (!ws[k].form.Quoted? ==> forall i :: 0 <= i < |ws[k].value| ==> ws[k].value[i] !in ">\"'")
  }

  /** What stands in quotes is no end of the tag, the other quote included. */
  lemma {:induction false} QuotedIsQuiet(value: string, mark: char, rest: string)
    requires mark !in value && (mark == '"' || mark == '\'')
    ensures var s := value + ([mark] + rest);
            Quiet(s, Some(mark)) == Quiet(rest, None) && QuoteState(s, Some(mark)) == QuoteState(rest, None)
  {
    var s := value + ([mark] + rest);
    if value == "" {
      assert s[1..] == rest && s[0] == mark;
    } else {
      assert s[1..] == value[1..] + ([mark] + rest) && s[0] == value[0];
      QuotedIsQuiet(value[1..], mark, rest);
    }
  }

  lemma PlainThenQuiet(s: string, rest: string)
    requires forall i :: 0 <= i < |s| ==> s[i] !in ">\"'"
    ensures Quiet(s + rest, None) == Quiet(rest, None) && QuoteState(s + rest, None) == QuoteState(rest, None)
  {
    PlainIsQuiet(s);
    QuietConcat(s, rest, None);
  }

  lemma BehindIsQuiet(w: Written, rest: string)
    requires w.Good() && PlainKeys([w])
    ensures Quiet(w.Behind(rest), None) == Quiet(rest, None)
    ensures QuoteState(w.Behind(rest), None) == QuoteState(rest, None)
  {
    assert [w][0] == w;
    match w.form
    case Flag =>
    case Bare =>
      PlainThenQuiet(w.value, rest);
      PlainThenQuiet(w.after, w.value + rest);
      PlainThenQuiet("=", w.after + (w.value + rest));
      PlainThenQuiet(w.before, "=" + (w.after + (w.value + rest)));
    case Quoted(mark) =>
      var t := [mark] + (w.value + ([mark] + rest));
      QuotedIsQuiet(w.value, mark, rest);
      assert t[1..] == w.value + ([mark] + rest);
      PlainThenQuiet(w.after, t);
      PlainThenQuiet("=", w.after + t);
      PlainThenQuiet(w.before, "=" + (w.after + t));
  }

  lemma {:induction false} WrittenIsQuiet(ws: seq<Written>, tail: string)
    requires GoodAll(ws, tail) && PlainKeys(ws) && Gap(tail)
    ensures Quiet(Shown(ws, tail), None) && QuoteState(Shown(ws, tail), None) == None
  {
    if ws == [] {
      PlainIsQuiet(tail);
    } else {
      var w, rest := ws[0], Shown(ws[1..], tail);
      assert forall k :: 0 <= k < |ws[1..]| ==> ws[1..][k] == ws[k + 1];
      WrittenIsQuiet(ws[1..], tail);
      BehindIsQuiet(w, rest);
      PlainThenQuiet(w.key, w.Behind(rest));
      PlainThenQuiet(w.gap, w.key + w.Behind(rest));
    }
  }

  /** A void tag with attributes of any form, a `>` in its quoted values included, is closed
      behind the last of them, and the text goes on behind its own `>`. */
  lemma WrittenTagIsClosed(name: string, ws: seq<Written>, tail: string, rest: string)
    requires ElementName(name) && GoodAll(ws, tail) && PlainKeys(ws) && Gap(tail) && IsVoid(LowerAll(name))
    requires var attrs := Shown(ws, tail); attrs == "" || IsWhitespace(attrs[0]) || attrs[0] == '/'
    requires !EndsWithSlash(TrimEnd(Shown(ws, tail)))
    ensures ToXhtml(("<" + (name + Shown(ws, tail)) + ">") + rest)
         == "<" + ((name + Numeric(TrimEnd(Shown(ws, tail)))) + "/>") + ToXhtml(rest)
  {
    WrittenIsQuiet(ws, tail);
    TagIsWritten("", name, Shown(ws, tail), rest);
    assert "" + name == name;
  }
}
