/** Printed Atom feeds, and what `src/bookorbit.rs` finds in them. */
module BookorbitFeed {
  import opened Text
  import opened Entities
  import opened References
  import opened Bookorbit
  import opened AtomAttributes

  // -------------------------------------------------------------------------
  // Text a search passes over
  // -------------------------------------------------------------------------

  /** The two texts differ before either ends. */
  predicate Differ(a: string, b: string) {
    a != "" && b != "" && (a[0] != b[0] || Differ(a[1..], b[1..]))
  }

  /** The needle does not begin anywhere in `chunk`, whatever follows `chunk`. */
  predicate Skips(chunk: string, needle: string) {
    chunk == "" || (Differ(chunk, needle) && Skips(chunk[1..], needle))
  }

  lemma {:induction false} DifferIsNoPrefix(a: string, rest: string, needle: string)
    requires Differ(a, needle)
    ensures !(needle <= a + rest)
  {
    var s := a + rest;
    assert s[0] == a[0] && s[1..] == a[1..] + rest;
    assert needle <= s ==> needle[1..] <= s[1..];
    if a[0] == needle[0] { DifferIsNoPrefix(a[1..], rest, needle[1..]); }
  }

  /** A search passes over such a chunk. */
  lemma {:induction false} SkipSplit(chunk: string, needle: string, rest: string)
    requires needle != "" && Skips(chunk, needle)
    ensures SplitOnce(chunk + rest, needle)
         == match SplitOnce(rest, needle) case None => None case Some((b, a)) => Some((chunk + b, a))
  {
    if chunk == "" {
      assert chunk + rest == rest;
      if SplitOnce(rest, needle).Some? {
        assert chunk + SplitOnce(rest, needle).value.0 == SplitOnce(rest, needle).value.0;
      }
    } else {
      DifferIsNoPrefix(chunk, rest, needle);
      assert (chunk + rest)[0] == chunk[0] && (chunk + rest)[1..] == chunk[1..] + rest;
      SkipSplit(chunk[1..], needle, rest);
      if SplitOnce(rest, needle).Some? {
        var b := SplitOnce(rest, needle).value.0;
        assert [chunk[0]] + (chunk[1..] + b) == chunk + b;
      }
    }
  }

  /** Text before a tag does not matter. */
  lemma SkipTag(chunk: string, name: string, rest: string)
    requires Skips(chunk, "<" + name)
    ensures BehindTag(chunk + rest, name) == BehindTag(rest, name)
  {
    SkipSplit(chunk, "<" + name, rest);
  }

  /** A tag behind text that is passed over is found. */
  lemma TagBehind(chunk: string, name: string, rest: string)
    requires Skips(chunk, "<" + name) && rest != "" && EndsName(rest[0])
    ensures BehindTag(chunk + ("<" + name + rest), name) == Some(rest)
  {
    var needle := "<" + name;
    SkipTag(chunk, name, needle + rest);
    SplitAfter("", needle, rest);
    assert "" + (needle + rest) == needle + rest;
  }

  /** Text without `<` is passed over by every search for a tag. */
  lemma {:induction false} TextIsSkipped(chunk: string, needle: string)
    requires needle != "" && needle[0] !in chunk
    ensures Skips(chunk, needle)
  {
    if chunk != "" {
      assert chunk[0] in chunk;
      TextIsSkipped(chunk[1..], needle);
    }
  }

  /** A tag that differs from the needle early enough is passed over. */
  lemma TagIsSkipped(tag: string, needle: string)
    requires Differ(tag, needle) && needle[0] !in tag[1..]
    ensures Skips(tag, needle)
  {
    TextIsSkipped(tag[1..], needle);
  }

  /** The same, given where they differ. */
  lemma EarlyDifference(tag: string, needle: string, k: nat)
    requires k < 3 && k < |tag| && k < |needle| && tag[k] != needle[k] && needle[0] !in tag[1..]
    ensures Skips(tag, needle)
  {
    if k > 0 { assert tag[1..][0] == tag[1] && needle[1..][0] == needle[1]; }
    if k > 1 { assert tag[1..][1..][0] == tag[2] && needle[1..][1..][0] == needle[2]; }
    if k > 1 && tag[0] == needle[0] && tag[1] == needle[1] { assert Differ(tag[1..][1..], needle[1..][1..]); }
    if k > 0 && tag[0] == needle[0] { assert Differ(tag[1..], needle[1..]); }
    TagIsSkipped(tag, needle);
  }

  lemma {:induction false} DifferLonger(a: string, b: string, needle: string)
    requires Differ(a, needle)
    ensures Differ(a + b, needle)
  {
    assert (a + b)[0] == a[0] && (a + b)[1..] == a[1..] + b;
    if a[0] == needle[0] { DifferLonger(a[1..], b, needle[1..]); }
  }

  lemma {:induction false} SkipsConcat(a: string, b: string, needle: string)
    requires Skips(a, needle) && Skips(b, needle)
    ensures Skips(a + b, needle)
  {
    if a == "" {
      assert a + b == b;
    } else {
      DifferLonger(a, b, needle);
      assert (a + b)[1..] == a[1..] + b;
      SkipsConcat(a[1..], b, needle);
    }
  }

  lemma SkippedToTheEnd(chunk: string, name: string)
    requires Skips(chunk, "<" + name)
    ensures BehindTag(chunk, name) == None
  {
    SkipTag(chunk, name, "");
    assert chunk + "" == chunk;
    assert SplitOnce("", "<" + name) == None;
  }

  // -------------------------------------------------------------------------
  // Links
  // -------------------------------------------------------------------------

  predicate XmlKey(k: string) {
    k != "" && forall i :: 0 <= i < |k| ==> AttrNameChar(k[i]) && k[i] != '<'
  }

  function Lookup(attrs: seq<Attr>, wanted: string): Option<string> {
    if attrs == [] then None
    else if attrs[0].0 == wanted then Some(attrs[0].1)
    else Lookup(attrs[1..], wanted)
  }

  function EscapedOption(v: Option<string>): Option<string> {
    match v case Some(t) => Some(XmlEscaper.Escape(t)) case None => None
  }

  predicate Keys(attrs: seq<Attr>) { forall i :: 0 <= i < |attrs| ==> XmlKey(attrs[i].0) }

  /** Reading one printed attribute. */
  lemma AttributeStep(k: string, quoted: string, rest: string, wanted: string)
    requires XmlKey(k) && '"' !in quoted
    ensures AttributeValue(" " + k + "=\"" + quoted + "\"" + rest, wanted)
         == if k == wanted then Some(quoted) else AttributeValue(rest, wanted)
  {
    var w := Attribute(" ", k, "", "", Some('"'), quoted);
    AttributeIsRead(w, rest, wanted);
    PrintedShape(k, quoted, rest);
  }

  lemma PrintedShape(k: string, quoted: string, rest: string)
    ensures " " + k + "=\"" + quoted + "\"" + rest
         == " " + (k + ("" + ("=" + ("" + (['"'] + (quoted + (['"'] + rest)))))))
  {
    assert "=\"" + quoted + "\"" + rest == "=" + (['"'] + (quoted + (['"'] + rest)));
  }

  /** The printed attributes of a self-closed tag, in any order: a lookup finds the
      first of that name, still escaped. */
  lemma {:induction false} PrintedAttributes(attrs: seq<Attr>, wanted: string)
    requires Keys(attrs)
    ensures AttributeValue(XmlEscaper.Attrs(attrs) + "/", wanted) == EscapedOption(Lookup(attrs, wanted))
  {
    if attrs == [] {
      assert XmlEscaper.Attrs(attrs) + "/" == "/" && "/"[1..] == "";
      assert Drop("/", AttrSpace) == "";
    } else {
      var k, quoted := attrs[0].0, XmlEscaper.Escape(attrs[0].1);
      var rest := XmlEscaper.Attrs(attrs[1..]) + "/";
      assert XmlEscaper.Attrs(attrs) + "/" == " " + k + "=\"" + quoted + "\"" + rest;
      EscapedIsInert(XmlEscaper, attrs[0].1);
      AttributeStep(k, quoted, rest, wanted);
      PrintedAttributes(attrs[1..], wanted);
    }
  }

  lemma {:induction false} PrintedAttrsHaveNoBrackets(attrs: seq<Attr>)
    requires Keys(attrs)
    ensures '<' !in XmlEscaper.Attrs(attrs) && '>' !in XmlEscaper.Attrs(attrs)
    ensures XmlEscaper.Attrs(attrs) != "" ==> XmlEscaper.Attrs(attrs)[0] == ' '
  {
    if attrs != [] {
      EscapedIsInert(XmlEscaper, attrs[0].1);
      PrintedAttrsHaveNoBrackets(attrs[1..]);
    }
  }

  /** What a link offers: nothing, or a download whose address may not parse. */
  predicate IsAcquisition(attrs: seq<Attr>) { Lookup(attrs, "rel") == Some(ACQUISITION_REL) }

  function Offered(attrs: seq<Attr>): Option<Ids> {
    match Lookup(attrs, "href") case Some(h) => ParseHref(h) case None => None
  }

  /** The first acquisition link with an address that parses; failing that, whether
      there was an acquisition link at all. */
  function FirstDownload(links: seq<seq<Attr>>, saw: bool): Found {
    if links == [] then (if saw then Malformed else NotFound)
    else if !IsAcquisition(links[0]) then FirstDownload(links[1..], saw)
    else match Offered(links[0])
      case Some(ids) => Book(ids)
      case None => FirstDownload(links[1..], true)
  }

  predicate Plain(s: string) {
    forall i :: 0 <= i < |s| ==> s[i] != '&' && s[i] != '<' && s[i] != '>' && s[i] != '"' && s[i] != '\''
  }

  /** The escaper leaves the relation alone, and nothing else escapes to it. */
  lemma {:induction false} PlainEscape(s: string)
    requires Plain(s)
    ensures XmlEscaper.Escape(s) == s
  {
    if s != "" { PlainEscape(s[1..]); }
  }

  lemma RelationCompares(v: Option<string>, rel: string)
    requires Plain(rel)
    ensures EscapedOption(v) == Some(rel) <==> v == Some(rel)
  {
    PlainEscape(rel);
    UnescapeUndoesEscape(XmlEscaper, rel);
    if v.Some? { UnescapeUndoesEscape(XmlEscaper, v.value); }
  }

  lemma AcquisitionCompares(attrs: seq<Attr>)
    ensures EscapedOption(Lookup(attrs, "rel")) == Some(ACQUISITION_REL) <==> IsAcquisition(attrs)
  {
    RelationIsPlain();
    RelationCompares(Lookup(attrs, "rel"), ACQUISITION_REL);
  }

  lemma RelationIsPlain()
    ensures Plain(ACQUISITION_REL)
  {
  }

  // -------------------------------------------------------------------------
  // Entries
  // -------------------------------------------------------------------------

  /** A `<link …/>` and the markup in front of it. */
  datatype Link = Link(before: string, attrs: seq<Attr>)

  /** The links, each with the markup in front of it, and what follows them. */
  function PrintLinks(links: seq<Link>, after: string): string {
    if links == [] then after
    else
      links[0].before
      + ("<link" + ((XmlEscaper.Attrs(links[0].attrs) + "/") + (">" + PrintLinks(links[1..], after))))
  }

  /** An entry: other markup, the title (escaped), the links with other markup in
      between, and other markup again. */
  datatype Entry = Entry(attrs: string, before: string, titleAttrs: string, title: string,
                         links: seq<Link>, after: string) {
    function Body(): string {
      before + ("<title" + (titleAttrs + (">" + (XmlEscaper.Escape(title) + ("</title>" + PrintLinks(links, after))))))
    }
    function Print(next: string): string { "<entry" + (attrs + (">" + (Body() + (CLOSE_ENTRY + next)))) }
  }

  /** The inside of a start tag behind its name: empty or a space and more, no brackets. */
  predicate TagTail(s: string) {
    '<' !in s && '>' !in s && (s == "" || IsAsciiWhitespace(s[0]))
  }

  /** Other markup of an entry may hold anything but titles, links and entries. */
  predicate OtherMarkup(chunk: string) {
    Skips(chunk, "<title") && Skips(chunk, "<link") && Skips(chunk, CLOSE_ENTRY)
  }

  predicate GoodLinks(links: seq<Link>) {
    links == [] || (OtherMarkup(links[0].before) && Keys(links[0].attrs) && GoodLinks(links[1..]))
  }

  predicate GoodEntry(e: Entry) {
    TagTail(e.attrs) && TagTail(e.titleAttrs) && OtherMarkup(e.before) && OtherMarkup(e.after) && GoodLinks(e.links)
  }

  lemma OpenIsOther(name: string, text: string)
    requires name != "" && name[0] !in "tle/" && '<' !in name && '<' !in text
    ensures OtherMarkup("<" + name + ">" + text)
  {
    var open := "<" + name + ">" + text;
    assert open[1..] == name + ">" + text && open[1] == name[0];
    EarlyDifference(open, "<title", 1);
    EarlyDifference(open, "<link", 1);
    EarlyDifference(open, CLOSE_ENTRY, 1);
  }

  lemma CloseIsOther(name: string)
    requires name != "" && name[0] !in "tle/" && '<' !in name
    ensures OtherMarkup("</" + name + ">")
  {
    var close := "</" + name + ">";
    assert close[1..] == "/" + name + ">" && close[1] == '/' && close[2] == name[0];
    EarlyDifference(close, "<title", 1);
    EarlyDifference(close, "<link", 1);
    EarlyDifference(close, CLOSE_ENTRY, 2);
  }

  /** Simple elements such as `<id>…</id>` or `<updated>…</updated>` are other markup,
      when their name starts with neither a `t` nor an `l` nor an `e`. */
  lemma SimpleElementIsOther(name: string, text: string)
    requires name != "" && name[0] !in "tle/" && '<' !in name
    ensures OtherMarkup("<" + name + ">" + XmlEscaper.Escape(text) + "</" + name + ">")
  {
    var open, close := "<" + name + ">" + XmlEscaper.Escape(text), "</" + name + ">";
    EscapedIsInert(XmlEscaper, text);
    OpenIsOther(name, XmlEscaper.Escape(text));
    CloseIsOther(name);
    SkipsConcat(open, close, "<title");
    SkipsConcat(open, close, "<link");
    SkipsConcat(open, close, CLOSE_ENTRY);
    assert open + close == "<" + name + ">" + XmlEscaper.Escape(text) + "</" + name + ">";
  }

  function LinkAttrs(links: seq<Link>): seq<seq<Attr>> {
    if links == [] then [] else [links[0].attrs] + LinkAttrs(links[1..])
  }

  /** The scan of the links finds what they offer. */
  lemma {:induction false} LinksAreRead(links: seq<Link>, after: string, saw: bool)
    requires GoodLinks(links) && OtherMarkup(after)
    ensures AcquisitionIds(PrintLinks(links, after), saw) == FirstDownload(LinkAttrs(links), saw)
  {
    if links == [] {
      NoLinkIn(after);
    } else {
      assert LinkAttrs(links)[1..] == LinkAttrs(links[1..]);
      LinksAreRead(links[1..], after, saw);
      LinksAreRead(links[1..], after, true);
      OneLink(links[0].before, links[0].attrs, PrintLinks(links[1..], after), saw);
    }
  }

  lemma NoLinkIn(after: string)
    requires Skips(after, "<link")
    ensures BehindTag(after, "link") == None
  {
    assert "<" + "link" == "<link";
    SkippedToTheEnd(after, "link");
  }

  lemma OneLink(before: string, attrs: seq<Attr>, rest: string, saw: bool)
    requires Skips(before, "<link") && Keys(attrs)
    ensures AcquisitionIds(before + ("<link" + ((XmlEscaper.Attrs(attrs) + "/") + (">" + rest))), saw)
         == if !IsAcquisition(attrs) then AcquisitionIds(rest, saw)
            else match Offered(attrs) case Some(ids) => Book(ids) case None => AcquisitionIds(rest, true)
  {
    LinkIsFound(before, attrs, rest);
    OfferIsRead(attrs);
  }

  lemma OfferIsRead(attrs: seq<Attr>)
    requires Keys(attrs)
    ensures OfferOf(XmlEscaper.Attrs(attrs) + "/")
         == if !IsAcquisition(attrs) then NoDownload
            else match Offered(attrs) case Some(ids) => Download(ids) case None => BadAddress
  {
    PrintedAttributes(attrs, "rel");
    PrintedAttributes(attrs, "href");
    AcquisitionCompares(attrs);
    AddressIsRead(Lookup(attrs, "href"));
  }

  lemma AddressIsRead(href: Option<string>)
    ensures LinkIds(EscapedOption(href)) == match href case Some(h) => ParseHref(h) case None => None
  {
    if href.Some? { UnescapeUndoesEscape(XmlEscaper, href.value); }
  }

  lemma LinkIsFound(before: string, attrs: seq<Attr>, rest: string)
    requires Skips(before, "<link") && Keys(attrs)
    ensures var tag := (XmlEscaper.Attrs(attrs) + "/") + (">" + rest);
            BehindTag(before + ("<link" + tag), "link") == Some(tag)
            && SplitOnce(tag, ">") == Some((XmlEscaper.Attrs(attrs) + "/", rest))
  {
    var inside := XmlEscaper.Attrs(attrs) + "/";
    var tag := inside + (">" + rest);
    PrintedAttrsHaveNoBrackets(attrs);
    assert tag[0] == ' ' || tag[0] == '/';
    assert "<" + "link" == "<link";
    TagBehind(before, "link", tag);
    SplitAfter(inside, ">", rest);
  }

  lemma TitleIsRead(e: Entry)
    requires GoodEntry(e)
    ensures ElementText(e.Body(), "title") == Some(XmlEscaper.Escape(e.title))
  {
    var text, more := XmlEscaper.Escape(e.title), PrintLinks(e.links, e.after);
    var inner := text + ("</title>" + more);
    assert "<" + "title" == "<title" && "</" + "title" + ">" == "</title>";
    TagBehind(e.before, "title", e.titleAttrs + (">" + inner));
    SplitAfter(e.titleAttrs, ">", inner);
    EscapedIsInert(XmlEscaper, e.title);
    SplitAfter(text, "</title>", more);
  }

  /** The title element is passed over by a search for something else. */
  lemma TitleSkips(titleAttrs: string, title: string, needle: string)
    requires needle == "<link" || needle == CLOSE_ENTRY
    requires TagTail(titleAttrs)
    ensures Skips("<title", needle) && Skips(titleAttrs, needle) && Skips(">", needle)
    ensures Skips(XmlEscaper.Escape(title), needle) && Skips("</title>", needle)
  {
    EscapedIsInert(XmlEscaper, title);
    EarlyDifference("<title", needle, 1);
    EarlyDifference("</title>", needle, if needle == "<link" then 1 else 2);
    TextIsSkipped(titleAttrs, needle);
    TextIsSkipped(">", needle);
    TextIsSkipped(XmlEscaper.Escape(title), needle);
  }

  /** What stands in front of the links, the title included, does not matter to their scan. */
  lemma TitleHidesNoLink(e: Entry)
    requires GoodEntry(e)
    ensures AcquisitionIds(e.Body(), false) == FirstDownload(LinkAttrs(e.links), false)
  {
    var links := PrintLinks(e.links, e.after);
    var text := XmlEscaper.Escape(e.title);
    assert "<" + "link" == "<link";
    TitleSkips(e.titleAttrs, e.title, "<link");
    SkipTag("</title>", "link", links);
    SkipTag(text, "link", "</title>" + links);
    SkipTag(">", "link", text + ("</title>" + links));
    SkipTag(e.titleAttrs, "link", ">" + (text + ("</title>" + links)));
    SkipTag("<title", "link", e.titleAttrs + (">" + (text + ("</title>" + links))));
    SkipTag(e.before, "link", "<title" + (e.titleAttrs + (">" + (text + ("</title>" + links)))));
    SameLinks(e.Body(), links);
    LinksAreRead(e.links, e.after, false);
  }

  lemma SameLinks(s: string, t: string)
    requires BehindTag(s, "link") == BehindTag(t, "link")
    ensures AcquisitionIds(s, false) == AcquisitionIds(t, false)
  {
  }

  // -------------------------------------------------------------------------
  // The feed
  // -------------------------------------------------------------------------

  lemma {:induction false} LinksSkipClose(links: seq<Link>, after: string)
    requires GoodLinks(links) && Skips(after, CLOSE_ENTRY)
    ensures Skips(PrintLinks(links, after), CLOSE_ENTRY)
  {
    if links != [] {
      var inside, rest := XmlEscaper.Attrs(links[0].attrs) + "/", PrintLinks(links[1..], after);
      LinksSkipClose(links[1..], after);
      PrintedAttrsHaveNoBrackets(links[0].attrs);
      EarlyDifference("<link", CLOSE_ENTRY, 1);
      TextIsSkipped(">", CLOSE_ENTRY);
      TextIsSkipped(inside, CLOSE_ENTRY);
      SkipsConcat(">", rest, CLOSE_ENTRY);
      SkipsConcat(inside, ">" + rest, CLOSE_ENTRY);
      SkipsConcat("<link", inside + (">" + rest), CLOSE_ENTRY);
      SkipsConcat(links[0].before, "<link" + (inside + (">" + rest)), CLOSE_ENTRY);
    }
  }

  lemma BodySkipsClose(e: Entry)
    requires GoodEntry(e)
    ensures Skips(e.Body(), CLOSE_ENTRY)
  {
    var links := PrintLinks(e.links, e.after);
    var text := XmlEscaper.Escape(e.title);
    TitleSkips(e.titleAttrs, e.title, CLOSE_ENTRY);
    LinksSkipClose(e.links, e.after);
    SkipsConcat("</title>", links, CLOSE_ENTRY);
    SkipsConcat(text, "</title>" + links, CLOSE_ENTRY);
    SkipsConcat(">", text + ("</title>" + links), CLOSE_ENTRY);
    SkipsConcat(e.titleAttrs, ">" + (text + ("</title>" + links)), CLOSE_ENTRY);
    SkipsConcat("<title", e.titleAttrs + (">" + (text + ("</title>" + links))), CLOSE_ENTRY);
    SkipsConcat(e.before, "<title" + (e.titleAttrs + (">" + (text + ("</title>" + links)))), CLOSE_ENTRY);
  }

  /** An entry and the text between it and the one before. */
  datatype Item = Item(before: string, entry: Entry)

  function PrintItems(items: seq<Item>, tail: string): string {
    if items == [] then tail else items[0].before + items[0].entry.Print(PrintItems(items[1..], tail))
  }

  predicate GoodItems(items: seq<Item>) {
    items == [] || (Skips(items[0].before, "<entry") && GoodEntry(items[0].entry) && GoodItems(items[1..]))
  }

  function Bodies(items: seq<Item>): seq<string> {
    if items == [] then [] else [items[0].entry.Body()] + Bodies(items[1..])
  }

  lemma {:induction false} EntriesAreFound(items: seq<Item>, tail: string)
    requires GoodItems(items) && Skips(tail, "<entry")
    ensures EntryBodies(PrintItems(items, tail)) == Bodies(items)
  {
    if items == [] {
      assert "<" + "entry" == "<entry";
      SkippedToTheEnd(tail, "entry");
    } else {
      EntriesAreFound(items[1..], tail);
      BodySkipsClose(items[0].entry);
      OneEntry(items[0].before, items[0].entry.attrs, items[0].entry.Body(), PrintItems(items[1..], tail));
    }
  }

  lemma OneEntry(before: string, attrs: string, body: string, next: string)
    requires Skips(before, "<entry") && TagTail(attrs) && Skips(body, CLOSE_ENTRY)
    ensures EntryBodies(before + ("<entry" + (attrs + (">" + (body + (CLOSE_ENTRY + next))))))
         == [body] + EntryBodies(next)
  {
    var inner := body + (CLOSE_ENTRY + next);
    assert "<" + "entry" == "<entry";
    TagBehind(before, "entry", attrs + (">" + inner));
    SplitAfter(attrs, ">", inner);
    SplitAfter("", CLOSE_ENTRY, next);
    assert "" + (CLOSE_ENTRY + next) == CLOSE_ENTRY + next;
    SkipSplit(body, CLOSE_ENTRY, CLOSE_ENTRY + next);
    assert body + "" == body;
  }

  /** The catalogue read as data: the first entry that is not an X4 edition and carries
      the issue's title, else the first with the fallback title, else none. */
  function Chosen(items: seq<Item>, issueTitle: string, fallbackTitle: string): Option<Entry> {
    match FirstTitled(items, issueTitle)
    case Some(e) => Some(e)
    case None => FirstTitled(items, fallbackTitle)
  }

  predicate Titled(e: Entry, title: string) { Trim(e.title) == title && !EndsWith(Trim(e.title), "(X4)") }

  function FirstTitled(items: seq<Item>, title: string): (r: Option<Entry>)
    ensures r.Some? ==> Titled(r.value, title) && exists i :: 0 <= i < |items| && items[i].entry == r.value
    ensures r.None? ==> forall i :: 0 <= i < |items| ==> !Titled(items[i].entry, title)
  {
    if items == [] then None
    else if Titled(items[0].entry, title) then Some(items[0].entry)
    else
      assert forall i :: 0 < i < |items| ==> items[i] == items[1..][i - 1];
      FirstTitled(items[1..], title)
  }

  function DownloadOf(e: Option<Entry>): Found {
    match e case Some(x) => FirstDownload(LinkAttrs(x.links), false) case None => NotFound
  }

  function OrElse(a: Option<Entry>, b: Option<Entry>): Option<Entry> { if a.Some? then a else b }

  function BodyOption(e: Option<Entry>): Option<string> {
    match e case Some(x) => Some(x.Body()) case None => None
  }

  lemma {:induction false} SelectionMatches(items: seq<Item>, issueTitle: string, fallbackTitle: string,
                                            fallback: Option<Entry>)
    requires GoodItems(items) && (fallback.Some? ==> GoodEntry(fallback.value))
    ensures SelectFrom(Bodies(items), issueTitle, fallbackTitle, BodyOption(fallback))
         == DownloadOf(OrElse(FirstTitled(items, issueTitle), OrElse(fallback, FirstTitled(items, fallbackTitle))))
  {
    if items == [] {
      if fallback.Some? { TitleHidesNoLink(fallback.value); }
    } else {
      var e := items[0].entry;
      TitleIsRead(e);
      UnescapeUndoesEscape(XmlEscaper, e.title);
      assert Bodies(items)[1..] == Bodies(items[1..]);
      var title := Trim(e.title);
      if !EndsWith(title, "(X4)") && title == issueTitle {
        TitleHidesNoLink(e);
      } else {
        var next := if Titled(e, fallbackTitle) && fallback.None? then Some(e) else fallback;
        SelectionMatches(items[1..], issueTitle, fallbackTitle, next);
      }
    }
  }

  /** Whatever the order of entries and attributes and whatever else stands between
      them, the scan of a printed feed gives what the catalogue says as data. */
  lemma PrintedFeedIsRead(prologue: string, feedAttrs: string, items: seq<Item>, tail: string,
                          issueTitle: string, fallbackTitle: string)
    requires Skips(prologue, "<feed") && Skips(prologue, "<entry")
    requires TagTail(feedAttrs) && GoodItems(items) && Skips(tail, "<entry")
    ensures var feed := prologue + ("<feed" + (feedAttrs + (">" + PrintItems(items, tail))));
            Selected(feed, issueTitle, fallbackTitle) == DownloadOf(Chosen(items, issueTitle, fallbackTitle))
  {
    RootIsFound(prologue, feedAttrs, PrintItems(items, tail));
    RootIsSkipped(prologue, feedAttrs, PrintItems(items, tail));
    EntriesAreFound(items, tail);
    SelectionMatches(items, issueTitle, fallbackTitle, None);
  }

  lemma RootIsFound(prologue: string, feedAttrs: string, body: string)
    requires Skips(prologue, "<feed") && TagTail(feedAttrs)
    ensures BehindTag(prologue + ("<feed" + (feedAttrs + (">" + body))), "feed").Some?
  {
    assert "<" + "feed" == "<feed";
    TagBehind(prologue, "feed", feedAttrs + (">" + body));
  }

  lemma RootIsSkipped(prologue: string, feedAttrs: string, body: string)
    requires Skips(prologue, "<entry") && TagTail(feedAttrs)
    ensures EntryBodies(prologue + ("<feed" + (feedAttrs + (">" + body)))) == EntryBodies(body)
  {
    assert "<" + "entry" == "<entry";
    EarlyDifference("<feed", "<entry", 1);
    TextIsSkipped(feedAttrs, "<entry");
    TextIsSkipped(">", "<entry");
    SkipTag(">", "entry", body);
    SkipTag(feedAttrs, "entry", ">" + body);
    SkipTag("<feed", "entry", feedAttrs + (">" + body));
    SkipTag(prologue, "entry", "<feed" + (feedAttrs + (">" + body)));
  }

  // -------------------------------------------------------------------------
  // Download addresses
  // -------------------------------------------------------------------------

  function Decimal(n: nat): (s: string)
    ensures s != "" && forall i :: 0 <= i < |s| ==> IsDigit(s[i])
  {
    DecimalFigures();
    Printed(n, 10, false)
  }

  lemma DecimalFigures()
    ensures forall d: nat :: d < 10 ==> IsDigit(Figure(d, false))
  {
  }

  lemma DecimalReadsBack(n: nat)
    ensures Digits(Decimal(n), 10, 0) == Some(n)
  {
    PrintedReadsBack(n, 10, false);
  }

  /** The address BookOrbit writes gives its two ids back, with or without further parameters. */
  lemma HrefReadsBack(book: nat, file: nat, extra: string)
    requires book <= I64_MAX && file <= I64_MAX && (extra == "" || (extra[0] == '&' && ExtraParams(extra[1..])))
    ensures ParseHref(DOWNLOAD_PREFIX + (Decimal(book) + (FILE_QUERY + (Decimal(file) + extra))))
         == Some(Ids(book, file))
  {
    DecimalReadsBack(book);
    DecimalReadsBack(file);
    PartsAreRead(Decimal(book), Decimal(file), extra, Ids(book, file));
  }

  lemma BehindPrefix(prefix: string, path: string)
    ensures prefix <= prefix + path && (prefix + path)[|prefix|..] == path
  {
  }

  lemma FileIdReadsBack(f: string, extra: string)
    requires '&' !in f && (extra == "" || (extra[0] == '&' && ExtraParams(extra[1..])))
    ensures FileIdText(f + extra) == Some(f)
  {
    if extra == "" {
      assert f + extra == f;
      SplitNone(f, "&");
    } else {
      assert f + extra == f + ("&" + extra[1..]);
      SplitAfter(f, "&", extra[1..]);
    }
  }

  /** A decimal id that fits, maybe with leading zeros. */
  predicate IsId(s: string, n: nat) {
    && s != "" && (forall i :: 0 <= i < |s| ==> IsDigit(s[i]))
    && Digits(s, 10, 0) == Some(n) && n <= 9_223_372_036_854_775_807
  }

  /** The address of a download, with further parameters or without. */
  predicate IsAddress(href: string, book: string, file: string, extra: string) {
    && href == "/api/v1/opds/" + (book + ("/download?fileId=" + (file + extra)))
    && (extra == "" || (|extra| > 1 && extra[0] == '&' && extra[1] != '&' && extra[|extra| - 1] != '&'
                        && Find(extra[1..], "&&") == None))
  }

  /** An address gives two ids exactly if it has the shape of a download's, with these ids. */
  lemma HrefIs(href: string, ids: Ids)
    ensures ParseHref(href) == Some(ids)
       <==> exists book, file, extra ::
              IsAddress(href, book, file, extra) && IsId(book, ids.book) && IsId(file, ids.file)
  {
    if ParseHref(href) == Some(ids) {
      var book, file, extra := HrefParts(href, ids);
      assert IsAddress(href, book, file, extra);
    }
    if book, file, extra :| IsAddress(href, book, file, extra) && IsId(book, ids.book) && IsId(file, ids.file) {
      PartsAreRead(book, file, extra, ids);
    }
  }

  lemma PartsAreRead(book: string, file: string, extra: string, ids: Ids)
    requires IsAddress("/api/v1/opds/" + (book + ("/download?fileId=" + (file + extra))), book, file, extra)
    requires IsId(book, ids.book) && IsId(file, ids.file)
    ensures ParseHref(DOWNLOAD_PREFIX + (book + (FILE_QUERY + (file + extra)))) == Some(ids)
  {
    var path := book + (FILE_QUERY + (file + extra));
    assert FILE_QUERY[0] == '/' && '/' !in book && '&' !in file;
    SplitAfter(book, FILE_QUERY, file + extra);
    FileIdReadsBack(file, extra);
    BehindPrefix(DOWNLOAD_PREFIX, path);
  }

  lemma {:induction false} SplitIs(s: string, needle: string)
    requires needle != ""
    ensures SplitOnce(s, needle).Some? ==> s == SplitOnce(s, needle).value.0 + (needle + SplitOnce(s, needle).value.1)
  {
    SplitAtFind(s, needle);
    FindHitIs(s, needle);
  }

  lemma FindHitIs(s: string, needle: string)
    requires needle != ""
    ensures Find(s, needle).Some? ==>
              var at := Find(s, needle).value; s == s[..at] + (needle + s[at + |needle|..])
  {
    if Find(s, needle).Some? {
      var at := Find(s, needle).value;
      FindHit(s, needle);
      assert s[at..] == needle + s[at..][|needle|..];
      assert s[at..][|needle|..] == s[at + |needle|..];
    }
  }

  lemma HrefParts(href: string, ids: Ids) returns (book: string, file: string, extra: string)
    requires ParseHref(href) == Some(ids)
    ensures IsAddress(href, book, file, extra) && IsId(book, ids.book) && IsId(file, ids.file)
  {
    var path := href[|DOWNLOAD_PREFIX|..];
    assert href == DOWNLOAD_PREFIX + path;
    SplitIs(path, FILE_QUERY);
    var (b, query) := SplitOnce(path, FILE_QUERY).value;
    book := b;
    SplitIs(query, "&");
    match SplitOnce(query, "&") {
      case None => file, extra := query, "";
      case Some((f, more)) =>
        file, extra := f, "&" + more;
        assert extra[1..] == more;
    }
    assert query == file + extra;
  }
}
