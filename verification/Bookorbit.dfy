/** `src/bookorbit.rs`: the issue's book in an OPDS catalogue, found by scanning Atom text for tags. */
module Bookorbit {
  import opened Text
  import opened Entities

  // -------------------------------------------------------------------------
  // Scanning
  // -------------------------------------------------------------------------

  predicate EndsName(c: char) { IsAsciiWhitespace(c) || c == '>' || c == '/' }

  /** The text behind the first `<name` that is not the start of a longer name. */
  function BehindTag(s: string, name: string): (r: Option<string>)
    ensures r.Some? ==> |r.value| < |s| && r.value != "" && EndsName(r.value[0])
    decreases |s|
  {
    match SplitOnce(s, "<" + name)
    case None => None
    case Some((_, rest)) => if rest != "" && EndsName(rest[0]) then Some(rest) else BehindTag(rest, name)
  }

  /** `find_open_tag`: where that tag starts. */
  method FindOpenTag(xml: string, name: string, from: nat) returns (r: Option<nat>)
    requires from <= |xml|
    ensures r.Some? ==> from <= r.value && r.value + |name| + 1 <= |xml|
    ensures BehindTag(xml[from..], name) == if r.Some? then Some(xml[r.value + |name| + 1..]) else None
  {
    var needle := "<" + name;
    var cursor := from;
    while true
      invariant from <= cursor <= |xml|
      invariant BehindTag(xml[cursor..], name) == BehindTag(xml[from..], name)
      decreases |xml| - cursor
    {
      var start := SplitFrom(xml, cursor, needle);
      if start.None? {
        return None;
      }
      var after := start.value + |needle|;
      BehindHit(xml[cursor..], name, xml[cursor..start.value], xml[after..]);
      if after < |xml| && EndsName(xml[after]) {
        return start;
      }
      cursor := after;
    }
  }

  /** One turn of the search. */
  lemma BehindHit(s: string, name: string, before: string, rest: string)
    requires SplitOnce(s, "<" + name) == Some((before, rest))
    ensures BehindTag(s, name) == if rest != "" && EndsName(rest[0]) then Some(rest) else BehindTag(rest, name)
  {
  }

  /** The first tag of that name: what it holds, and the text behind it. */
  function OpenTag(s: string, name: string): (r: Option<(string, string)>)
    ensures r.Some? ==> |r.value.1| < |s|
  {
    match BehindTag(s, name)
    case None => None
    case Some(tag) => SplitOnce(tag, ">")
  }

  /** `find` from a cursor, as a split. */
  method SplitFrom(s: string, cursor: nat, needle: string) returns (at: Option<nat>)
    requires cursor <= |s| && needle != ""
    ensures at.Some? ==> cursor <= at.value && at.value + |needle| <= |s|
    ensures SplitOnce(s[cursor..], needle)
         == if at.Some? then Some((s[cursor..at.value], s[at.value + |needle|..])) else None
  {
    var offset := Find(s[cursor..], needle);
    SplitAtFind(s[cursor..], needle);
    if offset.None? {
      return None;
    }
    at := Some(cursor + offset.value);
    assert s[cursor..][..offset.value] == s[cursor..at.value];
    assert s[cursor..][offset.value + |needle|..] == s[at.value + |needle|..];
  }

  /** The tag from a cursor on: where its inside starts, and where its `>` stands. */
  method FindTag(xml: string, name: string, from: nat) returns (r: Option<(nat, nat)>)
    requires from <= |xml|
    ensures r.Some? ==> from <= r.value.0 <= r.value.1 < |xml|
    ensures OpenTag(xml[from..], name)
         == if r.Some? then Some((xml[r.value.0..r.value.1], xml[r.value.1 + 1..])) else None
  {
    var start := FindOpenTag(xml, name, from);
    if start.None? {
      return None;
    }
    var inside := start.value + |name| + 1;
    var end := SplitFrom(xml, inside, ">");
    r := if end.Some? then Some((inside, end.value)) else None;
  }

  const CLOSE_ENTRY := "</entry>"

  /** The first `<entry>` element: its body, and the text behind it. */
  function FirstEntry(s: string): (r: Option<(string, string)>)
    ensures r.Some? ==> |r.value.1| < |s|
  {
    match OpenTag(s, "entry") case None => None case Some((_, rest)) => SplitOnce(rest, CLOSE_ENTRY)
  }

  /** The bodies of the `<entry>` elements; an element that is cut off ends the list. */
  function EntryBodies(s: string): seq<string>
    decreases |s|
  {
    match FirstEntry(s) case None => [] case Some((body, next)) => [body] + EntryBodies(next)
  }

  /** Where the next body starts and ends, and where the text behind its element starts. */
  method NextEntry(feed: string, cursor: nat) returns (r: Option<(nat, nat, nat)>)
    requires cursor <= |feed|
    ensures r.Some? ==> cursor <= r.value.0 <= r.value.1 < r.value.2 <= |feed|
    ensures FirstEntry(feed[cursor..])
         == if r.Some? then Some((feed[r.value.0..r.value.1], feed[r.value.2..])) else None
  {
    var tag := FindTag(feed, "entry", cursor);
    if tag.None? {
      return None;
    }
    var bodyStart := tag.value.1 + 1;
    var close := SplitFrom(feed, bodyStart, CLOSE_ENTRY);
    r := if close.Some? then Some((bodyStart, close.value, close.value + |CLOSE_ENTRY|)) else None;
  }

  /** `entry_bodies`. */
  method CollectEntries(feed: string) returns (entries: seq<string>)
    ensures entries == EntryBodies(feed)
  {
    entries := [];
    var cursor := 0;
    assert feed[0..] == feed;
    while true
      invariant cursor <= |feed|
      invariant entries + EntryBodies(feed[cursor..]) == EntryBodies(feed)
      decreases |feed| - cursor
    {
      var element := NextEntry(feed, cursor);
      if element.None? {
        break;
      }
      var (start, end, next) := element.value;
      TakeBody(entries, feed[cursor..], feed[start..end], feed[next..]);
      entries := entries + [feed[start..end]];
      cursor := next;
    }
    assert entries + [] == entries;
  }

  /** One turn of the loop. */
  lemma TakeBody(entries: seq<string>, s: string, body: string, rest: string)
    requires FirstEntry(s) == Some((body, rest))
    ensures entries + EntryBodies(s) == entries + [body] + EntryBodies(rest)
  {
    assert EntryBodies(s) == [body] + EntryBodies(rest);
  }

  function ElementText(s: string, name: string): Option<string> {
    match OpenTag(s, name)
    case None => None
    case Some((_, rest)) =>
      match SplitOnce(rest, "</" + name + ">")
      case None => None
      case Some((text, _)) => Some(text)
  }

  predicate AttrSpace(c: char) { IsAsciiWhitespace(c) || c == '/' }
  predicate AttrNameChar(c: char) { !IsAsciiWhitespace(c) && c != '=' && c != '/' && c != '>' }

  /** The quoted value behind a `=`, and the text behind it. */
  function QuotedValue(s: string): (r: Option<(string, string)>)
    ensures r.Some? ==> |r.value.1| < |s|
  {
    var v := Drop(s, IsAsciiWhitespace);
    if v == "" || (v[0] != '"' && v[0] != '\'') then None
    else
      var rest := Drop(v[1..], Other(v[0]));
      if rest == "" then None else Some((Head(v[1..], Other(v[0])), rest[1..]))
  }

  /** One turn of the search: it ends, or goes on behind an attribute. */
  datatype Turn = Stop(value: Option<string>) | Go(rest: string)

  function AttributeTurn(s: string, wanted: string): (r: Turn)
    requires s != ""
    ensures r.Go? ==> |r.rest| < |s|
  {
    var t := Drop(s, AttrSpace);
    var name := Head(t, AttrNameChar);
    if t == "" then Stop(None)
    else if name == "" then Go(t[1..])
    else BehindName(Drop(t, AttrNameChar), name, wanted)
  }

  function BehindName(s: string, name: string, wanted: string): (r: Turn)
    ensures r.Go? ==> |r.rest| <= |s|
  {
    var u := Drop(s, IsAsciiWhitespace);
    if u == "" || u[0] != '=' then Go(u)
    else
      match QuotedValue(u[1..])
      case None => Stop(None)
      case Some((value, rest)) => if name == wanted then Stop(Some(value)) else Go(rest)
  }

  /** `attribute_value`: the raw value of the first attribute of that name. A value
      without quotes, or one whose quote is not closed, ends the search. */
  function AttributeValue(s: string, wanted: string): Option<string>
    decreases |s|
  {
    if s == "" then None
    else match AttributeTurn(s, wanted)
      case Stop(value) => value
      case Go(rest) => AttributeValue(rest, wanted)
  }

  /** `attribute_value`, with its cursor. */
  method ReadAttribute(attributes: string, wanted: string) returns (value: Option<string>)
    ensures value == AttributeValue(attributes, wanted)
  {
    var cursor := 0;
    assert attributes[0..] == attributes;
    while cursor < |attributes|
      invariant cursor <= |attributes|
      invariant AttributeValue(attributes[cursor..], wanted) == AttributeValue(attributes, wanted)
      decreases |attributes| - cursor
    {
      var stopped;
      stopped, value, cursor := ReadTurn(attributes, cursor, wanted);
      if stopped {
        return;
      }
    }
    value := None;
  }

  /** The body of that loop. */
  method ReadTurn(attributes: string, cursor: nat, wanted: string)
      returns (stopped: bool, value: Option<string>, next: nat)
    requires cursor < |attributes|
    ensures cursor < next <= |attributes| || stopped
    ensures AttributeTurn(attributes[cursor..], wanted) == if stopped then Stop(value) else Go(attributes[next..])
  {
    var nameStart := SkipWhile(attributes, cursor, AttrSpace);
    var nameEnd := SkipWhile(attributes, nameStart, AttrNameChar);
    if nameEnd == nameStart {
      if nameStart == |attributes| {
        return true, None, nameStart;
      }
      assert attributes[nameStart..][1..] == attributes[nameStart + 1..];
      return false, None, nameStart + 1;
    }
    stopped, value, next := ReadBehindName(attributes, nameEnd, attributes[nameStart..nameEnd], wanted);
  }

  method ReadBehindName(attributes: string, nameEnd: nat, name: string, wanted: string)
      returns (stopped: bool, value: Option<string>, next: nat)
    requires nameEnd <= |attributes|
    ensures nameEnd <= next <= |attributes|
    ensures BehindName(attributes[nameEnd..], name, wanted) == if stopped then Stop(value) else Go(attributes[next..])
  {
    var equals := SkipWhile(attributes, nameEnd, IsAsciiWhitespace);
    if equals == |attributes| || attributes[equals] != '=' {
      return false, None, equals;
    }
    assert attributes[equals..][1..] == attributes[equals + 1..];
    var quoted := ReadQuoted(attributes, equals + 1);
    if quoted.None? {
      return true, None, equals;
    }
    value := Some(attributes[quoted.value.0..quoted.value.1]);
    stopped, next := name == wanted, quoted.value.1 + 1;
  }

  /** The value behind a `=`: where it starts, and where its closing quote stands. */
  method ReadQuoted(attributes: string, from: nat) returns (r: Option<(nat, nat)>)
    requires from <= |attributes|
    ensures r.Some? ==> from <= r.value.0 <= r.value.1 < |attributes|
    ensures QuotedValue(attributes[from..])
         == if r.Some? then Some((attributes[r.value.0..r.value.1], attributes[r.value.1 + 1..])) else None
  {
    var quote := SkipWhile(attributes, from, IsAsciiWhitespace);
    if quote == |attributes| || (attributes[quote] != '"' && attributes[quote] != '\'') {
      return None;
    }
    assert attributes[quote..][1..] == attributes[quote + 1..];
    var end := SkipWhile(attributes, quote + 1, Other(attributes[quote]));
    if end == |attributes| {
      return None;
    }
    assert attributes[end..][1..] == attributes[end + 1..];
    r := Some((quote + 1, end));
  }

  // -------------------------------------------------------------------------
  // Download links
  // -------------------------------------------------------------------------

  const I64_MAX := 0x7FFF_FFFF_FFFF_FFFF
  const DOWNLOAD_PREFIX := "/api/v1/opds/"
  const FILE_QUERY := "/download?fileId="
  const ACQUISITION_REL := "http://opds-spec.org/acquisition"

  datatype Ids = Ids(book: nat, file: nat)

  /** A non-empty run of decimal digits that fits an `i64`. */
  function ParseId(digits: string): Option<nat> {
    if digits != "" && forall i :: 0 <= i < |digits| ==> IsDigit(digits[i]) then
      match Digits(digits, 10, 0)
      case Some(n) => if n <= I64_MAX then Some(n) else None
      case None => None
    else None
  }

  /** What follows the first `&` has to be non-empty parameters joined by `&`. */
  predicate ExtraParams(s: string) {
    s != "" && s[0] != '&' && s[|s| - 1] != '&' && Find(s, "&&") == None
  }

  function FileIdText(query: string): Option<string> {
    match SplitOnce(query, "&")
    case None => Some(query)
    case Some((file, extra)) => if ExtraParams(extra) then Some(file) else None
  }

  function ParseHref(href: string): Option<Ids> {
    if DOWNLOAD_PREFIX <= href then ParsePath(href[|DOWNLOAD_PREFIX|..]) else None
  }

  function ParsePath(path: string): Option<Ids> {
    match SplitOnce(path, FILE_QUERY)
    case None => None
    case Some((book, query)) =>
      match FileIdText(query)
      case None => None
      case Some(file) =>
        match (ParseId(book), ParseId(file))
        case (Some(b), Some(f)) => Some(Ids(b, f))
        case _ => None
  }

  /** What the catalogue says about an issue. */
  datatype Found = Book(ids: Ids) | NotFound | Malformed

  /** What one link offers. */
  datatype Offer = NoDownload | BadAddress | Download(ids: Ids)

  function OfferOf(attributes: string): Offer {
    if AttributeValue(attributes, "rel") == Some(ACQUISITION_REL) then
      match LinkIds(AttributeValue(attributes, "href")) case Some(ids) => Download(ids) case None => BadAddress
    else NoDownload
  }

  function LinkIds(href: Option<string>): Option<Ids> {
    match href case Some(h) => ParseHref(XmlUnescape(h)) case None => None
  }

  /** The offer of the first link, and the text behind its tag. */
  function FirstOffer(s: string): (r: Option<(Offer, string)>)
    ensures r.Some? ==> |r.value.1| < |s|
  {
    match OpenTag(s, "link") case None => None case Some((attributes, rest)) => Some((OfferOf(attributes), rest))
  }

  function AcquisitionIds(s: string, saw: bool): Found
    decreases |s|
  {
    match FirstOffer(s)
    case None => if saw then Malformed else NotFound
    case Some((NoDownload, rest)) => AcquisitionIds(rest, saw)
    case Some((BadAddress, rest)) => AcquisitionIds(rest, true)
    case Some((Download(ids), _)) => Book(ids)
  }

  /** `acquisition_ids`. */
  method ReadAcquisitionIds(entry: string) returns (found: Found)
    ensures found == AcquisitionIds(entry, false)
  {
    var cursor := 0;
    var saw := false;
    assert entry[0..] == entry;
    while true
      invariant cursor <= |entry|
      invariant AcquisitionIds(entry[cursor..], saw) == AcquisitionIds(entry, false)
      decreases |entry| - cursor
    {
      var link := ReadLink(entry, cursor);
      if link.None? {
        return if saw then Malformed else NotFound;
      }
      match link.value.0 {
        case NoDownload =>
        case BadAddress => saw := true;
        case Download(ids) => return Book(ids);
      }
      cursor := link.value.1;
    }
  }

  /** The next link, and where the text behind its tag starts. */
  method ReadLink(entry: string, cursor: nat) returns (r: Option<(Offer, nat)>)
    requires cursor <= |entry|
    ensures r.Some? ==> cursor < r.value.1 <= |entry|
    ensures FirstOffer(entry[cursor..]) == if r.Some? then Some((r.value.0, entry[r.value.1..])) else None
  {
    var tag := FindTag(entry, "link", cursor);
    if tag.None? {
      return None;
    }
    var offer := ReadOffer(entry[tag.value.0..tag.value.1]);
    r := Some((offer, tag.value.1 + 1));
  }

  method ReadOffer(attributes: string) returns (offer: Offer)
    ensures offer == OfferOf(attributes)
  {
    var rel := ReadAttribute(attributes, "rel");
    if rel != Some(ACQUISITION_REL) {
      return NoDownload;
    }
    var href := ReadAttribute(attributes, "href");
    var ids := LinkIds(href);
    offer := if ids.Some? then Download(ids.value) else BadAddress;
  }

  /** The loop of `select_issue_entry`, with the fallback entry found so far. */
  function SelectFrom(entries: seq<string>, issueTitle: string, fallbackTitle: string,
                      fallback: Option<string>): Found {
    if entries == [] then
      match fallback case Some(entry) => AcquisitionIds(entry, false) case None => NotFound
    else
      match ElementText(entries[0], "title")
      case None => SelectFrom(entries[1..], issueTitle, fallbackTitle, fallback)
      case Some(text) =>
        var title := Trim(XmlUnescape(text));
        if EndsWith(title, "(X4)") then SelectFrom(entries[1..], issueTitle, fallbackTitle, fallback)
        else if title == issueTitle then AcquisitionIds(entries[0], false)
        else
          SelectFrom(entries[1..], issueTitle, fallbackTitle,
                     if title == fallbackTitle && fallback.None? then Some(entries[0]) else fallback)
  }

  function Selected(feed: string, issueTitle: string, fallbackTitle: string): Found {
    if BehindTag(feed, "feed").None? then Malformed
    else SelectFrom(EntryBodies(feed), issueTitle, fallbackTitle, None)
  }

  /** `select_issue_entry`. */
  method SelectIssueEntry(feed: string, issueTitle: string, fallbackTitle: string) returns (found: Found)
    ensures found == Selected(feed, issueTitle, fallbackTitle)
  {
    var root := FindOpenTag(feed, "feed", 0);
    assert feed[0..] == feed;
    if root.None? {
      return Malformed;
    }
    var entries := CollectEntries(feed);
    var fallback: Option<string> := None;
    assert entries[0..] == entries;
    for i := 0 to |entries|
      invariant SelectFrom(entries[i..], issueTitle, fallbackTitle, fallback)
             == SelectFrom(entries, issueTitle, fallbackTitle, None)
    {
      assert entries[i..][1..] == entries[i + 1..];
      var text := ElementText(entries[i], "title");
      if text.Some? {
        var unescaped := Unescape(text.value);
        var title := Trim(unescaped);
        if EndsWith(title, "(X4)") {
          continue;
        }
        if title == issueTitle {
          found := ReadAcquisitionIds(entries[i]);
          return;
        }
        if title == fallbackTitle && fallback.None? {
          fallback := Some(entries[i]);
        }
      }
    }
    if fallback.None? {
      return NotFound;
    }
    found := ReadAcquisitionIds(fallback.value);
  }
}
