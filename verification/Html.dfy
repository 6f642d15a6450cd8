/** `src/html.rs`: markup as text. Tags are found by a quote-aware scan, never by building
    a tree; void elements are self-closed in place, and all else is copied. */
module Html {
  import opened Text
  import opened Entities

  // -------------------------------------------------------------------------
  // Tag scanning
  // -------------------------------------------------------------------------

  /** How far the first `>` outside quotes is, counting it; `quote` is the quote open now. */
  function QuoteScan(s: string, quote: Option<char>): (r: Option<nat>)
    ensures r.Some? ==> 1 <= r.value <= |s| && s[r.value - 1] == '>'
  {
    if s == "" then None
    else if quote.None? && s[0] == '>' then Some(1)
    else Shift(QuoteScan(s[1..], QuoteAfter(s[0], quote)), 1)
  }

  function QuoteAfter(c: char, quote: Option<char>): Option<char> {
    match quote
    case Some(q) => if c == q then None else quote
    case None => if c == '"' || c == '\'' then Some(c) else None
  }

  /** Length of the tag or comment that `s` starts with, if it is terminated. */
  function TagLen(s: string): (r: Option<nat>)
    requires s != "" && s[0] == '<'
    ensures r.Some? ==> 2 <= r.value <= |s| && s[r.value - 1] == '>'
  {
    if OpensComment(s) then
      CommentEnds(s);
      Shift(Find(s, "-->"), 3)
    else Shift(QuoteScan(s[1..], None), 1)
  }

  lemma CommentEnds(s: string)
    ensures Find(s, "-->").Some? ==> s[Find(s, "-->").value] == '-' && s[Find(s, "-->").value + 2] == '>'
  {
    if Find(s, "-->").Some? {
      FindHit(s, "-->");
      var tail := s[Find(s, "-->").value..];
      assert tail[0] == '-' && tail[2] == '>';
    }
  }

  /** `starts_with("<!--")`. */
  predicate OpensComment(s: string) {
    |s| >= 4 && s[0] == '<' && s[1] == '!' && s[2] == '-' && s[3] == '-'
  }

  lemma QuoteScanStep(s: string, i: nat, quote: Option<char>)
    requires i < |s|
    ensures Shift(QuoteScan(s[i..], quote), i)
         == if quote.None? && s[i] == '>' then Some(i + 1)
            else Shift(QuoteScan(s[i + 1..], QuoteAfter(s[i], quote)), i + 1)
  {
    assert s[i..][1..] == s[i + 1..];
  }

  method TagEnd(html: string, start: nat) returns (end: Option<nat>)
    requires start < |html| && html[start] == '<'
    ensures end == Shift(TagLen(html[start..]), start)
  {
    var rest := html[start..];
    if OpensComment(rest) {
      return Shift(Find(rest, "-->"), start + 3);
    }
    var quote: Option<char> := None;
    ghost var answer := TagLen(rest);
    for i := 1 to |rest|
      invariant answer == Shift(QuoteScan(rest[i..], quote), i)
    {
      QuoteScanStep(rest, i, quote);
      if quote.None? && rest[i] == '>' {
        return Some(start + i + 1);
      }
      quote := QuoteAfter(rest[i], quote);
    }
    return None;
  }

  /** The scan only ever has a double or a single quote open. */
  predicate QuoteMark(quote: Option<char>) {
    quote == None || quote == Some('"') || quote == Some('\'')
  }

  /** No `>` outside quotes in `body`, scanned from quote state `quote`. */
  predicate Quiet(body: string, quote: Option<char>) {
    body == "" || (!(quote.None? && body[0] == '>') && Quiet(body[1..], QuoteAfter(body[0], quote)))
  }

  /** The quote state after `body`. */
  function QuoteState(body: string, quote: Option<char>): Option<char> {
    if body == "" then quote else QuoteState(body[1..], QuoteAfter(body[0], quote))
  }

  /** The scan stops at a `>` exactly when the text before it is quiet and leaves no quote open. */
  lemma {:induction false} ScanStopsAt(body: string, rest: string, quote: Option<char>)
    ensures QuoteScan(body + ">" + rest, quote) == Some(|body| + 1)
       <==> Quiet(body, quote) && QuoteState(body, quote) == None
  {
    var s := body + ">" + rest;
    if body != "" {
      assert s[1..] == body[1..] + ">" + rest;
      ScanStopsAt(body[1..], rest, QuoteAfter(body[0], quote));
    } else {
      assert s[0] == '>';
    }
  }

  /** Whitespace at the end of a quiet body can go: no quote is open there. */
  lemma {:induction false} QuietPrefix(body: string, n: nat, quote: Option<char>)
    requires QuoteMark(quote)
    requires n <= |body| && Quiet(body, quote) && QuoteState(body, quote) == None
    requires forall i :: n <= i < |body| ==> IsWhitespace(body[i])
    ensures Quiet(body[..n], quote) && QuoteState(body[..n], quote) == None
  {
    if n > 0 {
      assert body[..n][1..] == body[1..][..n - 1];
      QuietPrefix(body[1..], n - 1, QuoteAfter(body[0], quote));
    } else if body != "" {
      QuietPrefix(body[1..], 0, QuoteAfter(body[0], quote));
    }
  }

  /** `<` at the front of a body is invisible to the scan. */
  lemma {:induction false} QuietStrip(body: string)
    ensures Quiet(body, None) == Quiet(StripStart(body, '<'), None)
    ensures QuoteState(body, None) == QuoteState(StripStart(body, '<'), None)
    ensures StripStart(body + ">", '<') == StripStart(body, '<') + ">"
  {
    if body != "" && body[0] == '<' {
      assert (body + ">")[1..] == body[1..] + ">";
      QuietStrip(body[1..]);
    } else {
      assert body == "" ==> body + ">" == ">";
    }
  }

  lemma {:induction false} QuietConcat(a: string, b: string, quote: Option<char>)
    ensures Quiet(a + b, quote) <==> Quiet(a, quote) && Quiet(b, QuoteState(a, quote))
    ensures QuoteState(a + b, quote) == QuoteState(b, QuoteState(a, quote))
  {
    if a == "" {
      assert a + b == b;
    } else {
      assert (a + b)[1..] == a[1..] + b;
      QuietConcat(a[1..], b, QuoteAfter(a[0], quote));
    }
  }

  /** A tag ends where it ends whatever follows it. */
  lemma TagLenIgnoresRest(s: string, rest: string)
    requires s != "" && s[0] == '<' && TagLen(s) == Some(|s|)
    ensures TagLen(s + rest) == Some(|s|)
  {
    var t := s + rest;
    if OpensComment(s) {
      assert s + "" == s;
      FindPrefix(s, "", rest, "-->");
    } else {
      assert t[|s| - 1] == '>';
      var body := s[1..|s| - 1];
      assert s[1..] == body + ">" + "" && t[1..] == body + ">" + rest;
      ScanStopsAt(body, "", None);
      ScanStopsAt(body, rest, None);
    }
  }

  /** A terminated tag, cut out of its surroundings, is still exactly that tag. */
  lemma TagLenOfRaw(s: string)
    requires s != "" && s[0] == '<' && TagLen(s).Some?
    ensures TagLen(s[..TagLen(s).value]) == TagLen(s)
  {
    var n := TagLen(s).value;
    var raw := s[..n];
    if OpensComment(s) {
      assert s == raw + s[n..] && raw + "" == raw;
      FindPrefix(raw, s[n..], "", "-->");
      CommentEnds(s);
      assert n >= 4;
    } else {
      var body := s[1..n - 1];
      assert ">" == [s[n - 1]];
      assert s[1..] == body + ">" + s[n..];
      assert raw[1..] == body + ">" + "";
      ScanStopsAt(body, s[n..], None);
      ScanStopsAt(body, "", None);
    }
  }

  // -------------------------------------------------------------------------
  // Tag names and void elements
  // -------------------------------------------------------------------------

  const VOID_ELEMENTS: seq<string> := [
    "area", "base", "br", "col", "embed", "hr", "img", "input", "link", "meta", "param", "source",
    "track", "wbr"]

  /** `slice::contains`. */
  predicate Among(name: string, names: seq<string>) {
    names != [] && (name == names[0] || Among(name, names[1..]))
  }

  predicate IsVoid(name: string) { Among(name, VOID_ELEMENTS) }

  predicate Letters(name: string) {
    name != "" && forall i :: 0 <= i < |name| ==> 'a' <= name[i] <= 'z'
  }

  predicate NameChar(c: char) { !IsWhitespace(c) && c != '/' && c != '>' }

  function TagName(inner: string): string {
    LowerAll(Head(StripStart(inner, '/'), NameChar))
  }

  predicate EndsWithSlash(s: string) { s != "" && s[|s| - 1] == '/' }

  /** What stands between the angle brackets. */
  function Inner(raw: string): string { StripEnd(StripStart(raw, '<'), '>') }

  /** A void element that is not self-closed yet. */
  predicate NeedsClosing(raw: string) {
    IsVoid(TagName(Inner(raw))) && !EndsWithSlash(TrimEnd(Inner(raw)))
  }

  function CloseTag(raw: string): string {
    if NeedsClosing(raw) then "<" + TrimEnd(Inner(raw)) + "/>" else raw
  }

  lemma VoidNamesAreLetters(name: string)
    requires IsVoid(name)
    ensures Letters(name)
  {
    AmongLetters(name, VOID_ELEMENTS);
  }

  lemma {:induction false} AmongLetters(name: string, names: seq<string>)
    requires Among(name, names) && forall i :: 0 <= i < |names| ==> Letters(names[i])
    ensures Letters(name)
  {
    if name != names[0] { AmongLetters(name, names[1..]); }
  }

  // -------------------------------------------------------------------------
  // The scan as a sequence of pieces
  // -------------------------------------------------------------------------

  /** A run of text, a terminated tag or comment, or an unterminated tail. */
  datatype Piece = Text(text: string) | Tag(raw: string) | Tail(rest: string)
  {
    function Shown(): string {
      match this case Text(t) => t case Tag(r) => r case Tail(r) => r
    }
    function Closed(): Piece { if Tag? then Tag(CloseTag(raw)) else this }
    function Renamed(): Piece {
      match this
      case Text(t) => Text(Numeric(t))
      case Tag(r) => Tag(Numeric(r))
      case Tail(r) => Tail(Numeric(r))
    }
  }

  const NBSP := "&nbsp;"
  const NBSP_NUMERIC := "&#160;"

  function Numeric(s: string): string { Replace(s, NBSP, NBSP_NUMERIC) }

  function Scan(s: string): seq<Piece>
    decreases |s|
  {
    if s == "" then []
    else if s[0] != '<' then
      var n := Span(s, Other('<'));
      [Text(s[..n])] + Scan(s[n..])
    else match TagLen(s)
      case None => [Tail(s)]
      case Some(n) => [Tag(s[..n])] + Scan(s[n..])
  }

  function Join(pieces: seq<Piece>): string {
    if pieces == [] then "" else pieces[0].Shown() + Join(pieces[1..])
  }

  function ClosePieces(pieces: seq<Piece>): (r: seq<Piece>)
    ensures |r| == |pieces| && forall i :: 0 <= i < |r| ==> r[i] == pieces[i].Closed()
  {
    seq(|pieces|, i requires 0 <= i < |pieces| => pieces[i].Closed())
  }

  function RenamePieces(pieces: seq<Piece>): (r: seq<Piece>)
    ensures |r| == |pieces| && forall i :: 0 <= i < |r| ==> r[i] == pieces[i].Renamed()
  {
    seq(|pieces|, i requires 0 <= i < |pieces| => pieces[i].Renamed())
  }

  /** `to_xhtml`: close every void tag of the scan, then make `&nbsp;` numeric. */
  function ToXhtml(html: string): string { Numeric(Close(html)) }

  function Close(html: string): string { Join(ClosePieces(Scan(html))) }

  lemma JoinCons(p: Piece, rest: seq<Piece>)
    ensures Join([p] + rest) == p.Shown() + Join(rest)
    ensures ClosePieces([p] + rest) == [p.Closed()] + ClosePieces(rest)
    ensures RenamePieces([p] + rest) == [p.Renamed()] + RenamePieces(rest)
  {
    ShownCons(p, rest);
    ClosedCons(p, rest);
    RenamedCons(p, rest);
  }

  lemma ShownCons(p: Piece, rest: seq<Piece>)
    ensures Join([p] + rest) == p.Shown() + Join(rest)
  {
    assert ([p] + rest)[1..] == rest;
  }

  lemma ClosedCons(p: Piece, rest: seq<Piece>)
    ensures ClosePieces([p] + rest) == [p.Closed()] + ClosePieces(rest)
  {
  }

  lemma RenamedCons(p: Piece, rest: seq<Piece>)
    ensures RenamePieces([p] + rest) == [p.Renamed()] + RenamePieces(rest)
  {
  }

  lemma JoinOne(p: Piece)
    ensures Join([p]) == p.Shown() && ClosePieces([p]) == [p.Closed()] && RenamePieces([p]) == [p.Renamed()]
  {
    assert [p][1..] == [];
  }

  lemma ScanRun(run: string, rest: string)
    requires run != "" && '<' !in run && (rest == "" || rest[0] == '<')
    ensures Scan(run + rest) == [Text(run)] + Scan(rest)
  {
    SpanExact(run, rest, Other('<'));
    assert (run + rest)[0] == run[0] && run[0] in run;
    assert (run + rest)[..|run|] == run && (run + rest)[|run|..] == rest;
  }

  /** A run of text up to the next tag passes through unchanged. */
  lemma CloseRun(run: string, rest: string)
    requires '<' !in run && (rest == "" || rest[0] == '<')
    ensures Close(run + rest) == run + Close(rest)
  {
    if run == "" {
      assert run + rest == rest;
    } else {
      ScanRun(run, rest);
      JoinCons(Text(run), Scan(rest));
      JoinCons(Text(run), ClosePieces(Scan(rest)));
    }
  }

  /** A terminated tag is closed and the scan goes on behind it; an unterminated one is copied. */
  lemma CloseMarkup(s: string)
    requires s != "" && s[0] == '<'
    ensures Close(s) == match TagLen(s) case None => s case Some(n) => CloseTag(s[..n]) + Close(s[n..])
  {
    if TagLen(s).None? {
      JoinOne(Tail(s));
    } else {
      var n := TagLen(s).value;
      JoinCons(Tag(s[..n]), Scan(s[n..]));
      JoinCons(Tag(CloseTag(s[..n])), ClosePieces(Scan(s[n..])));
    }
  }

  /** What is written so far, followed by the closed form of what is left, is the result. */
  ghost predicate Writing(out: string, left: string, all: string) {
    out + Close(left) == all
  }

  lemma WritingRun(out: string, run: string, rest: string, all: string)
    requires '<' !in run && (rest == "" || rest[0] == '<')
    requires Writing(out, run + rest, all)
    ensures Writing(out + run, rest, all)
  {
    CloseRun(run, rest);
  }

  lemma WritingStarts(s: string)
    ensures Writing("", s, Close(s))
  {
    assert "" + Close(s) == Close(s);
  }

  lemma WritingEnd(out: string, left: string, all: string)
    requires '<' !in left && Writing(out, left, all)
    ensures out + left == all
  {
    CloseRun(left, "");
    assert left + "" == left && Close("") == "";
  }

  lemma WritingTail(out: string, s: string, all: string)
    requires s != "" && s[0] == '<' && TagLen(s).None? && Writing(out, s, all)
    ensures Writing(out + s, "", all)
  {
    CloseMarkup(s);
  }

  lemma WritingTag(out: string, raw: string, rest: string, all: string)
    requires raw != "" && raw[0] == '<' && TagLen(raw + rest) == Some(|raw|) && Writing(out, raw + rest, all)
    ensures Writing(out + CloseTag(raw), rest, all)
  {
    CloseMarkup(raw + rest);
    assert (raw + rest)[..|raw|] == raw && (raw + rest)[|raw|..] == rest;
  }

  method WriteXhtml(html: string) returns (result: string)
    ensures result == ToXhtml(html)
  {
    ghost var all := Close(html);
    WritingStarts(html);
    var out := "";
    var cursor := 0;
    assert html[0..] == html;
    var start := NextChar(html, 0, '<');
    while start < |html|
      invariant cursor <= start <= |html|
      invariant start < |html| ==> html[start] == '<'
      invariant '<' !in html[cursor..start]
      invariant html[cursor..] == html[cursor..start] + html[start..]
      invariant Writing(out, html[cursor..], all)
      decreases |html| - cursor
    {
      WritingRun(out, html[cursor..start], html[start..], all);
      out := out + html[cursor..start];
      out, cursor := WriteMarkup(html, start, out, all);
      start := NextChar(html, cursor, '<');
    }
    WritingEnd(out, html[cursor..], all);
    out := out + html[cursor..];
    result := Replace(out, NBSP, NBSP_NUMERIC);
  }

  /** One tag, or all that is left if it is not terminated. */
  method WriteMarkup(html: string, start: nat, out: string, ghost all: string) returns (out': string, cursor: nat)
    requires start < |html| && html[start] == '<' && Writing(out, html[start..], all)
    ensures start < cursor <= |html| && Writing(out', html[cursor..], all)
  {
    var end := TagEnd(html, start);
    if end.None? {
      WritingTail(out, html[start..], all);
      return out + html[start..], |html|;
    }
    cursor := end.value;
    var raw := html[start..cursor];
    Cut(html, start, cursor);
    WritingTag(out, raw, html[cursor..], all);
    var written := WriteTag(raw);
    out' := out + written;
  }

  /** The tag-rewriting branch of the loop. */
  method WriteTag(raw: string) returns (written: string)
    ensures written == CloseTag(raw)
  {
    var inner := StripEnd(StripStart(raw, '<'), '>');
    var name := TagName(inner);
    if IsVoid(name) && !EndsWithSlash(TrimEnd(inner)) {
      written := "<" + TrimEnd(inner) + "/>";
    } else {
      written := raw;
    }
  }

  // -------------------------------------------------------------------------
  // The scan loses nothing
  // -------------------------------------------------------------------------

  lemma {:induction false} ScanIsLossless(s: string)
    ensures Join(Scan(s)) == s
    decreases |s|
  {
    if s != "" {
      var n := if s[0] != '<' then Span(s, Other('<')) else if TagLen(s).Some? then TagLen(s).value else |s|;
      assert s == s[..n] + s[n..];
      if s[0] == '<' && TagLen(s).None? {
        JoinOne(Tail(s));
      } else {
        ScanIsLossless(s[n..]);
        JoinCons(if s[0] != '<' then Text(s[..n]) else Tag(s[..n]), Scan(s[n..]));
      }
    }
  }

  // -------------------------------------------------------------------------
  // Closing a tag
  // -------------------------------------------------------------------------

  /** A name is read the same whether whitespace or a slash follows it. */
  lemma {:induction false} TagNameTail(t: string, space: string)
    requires forall i :: 0 <= i < |space| ==> IsWhitespace(space[i])
    ensures TagName(t + "/") == TagName(t + space)
  {
    if t == "" {
      assert t + space == space && t + "/" == "/" && "/"[1..] == "";
    } else if t[0] == '/' {
      assert (t + "/")[1..] == t[1..] + "/" && (t + space)[1..] == t[1..] + space;
      TagNameTail(t[1..], space);
    } else {
      HeadTail(t, space);
    }
  }

  lemma {:induction false} HeadTail(t: string, space: string)
    requires forall i :: 0 <= i < |space| ==> IsWhitespace(space[i])
    ensures Head(t + "/", NameChar) == Head(t + space, NameChar)
  {
    if t == "" {
      assert t + space == space && t + "/" == "/";
    } else {
      assert (t + "/")[1..] == t[1..] + "/" && (t + space)[1..] == t[1..] + space;
      HeadTail(t[1..], space);
    }
  }

  /** The part of a void tag's inside that closing keeps. */
  lemma InnerOfTag(raw: string)
    requires NeedsClosing(raw)
    ensures var t := TrimEnd(Inner(raw)); t != "" && t[0] == Inner(raw)[0] && t[0] != '<' && t[0] != '!'
  {
    var inner := Inner(raw);
    var t := TrimEnd(inner);
    VoidNamesAreLetters(TagName(inner));
    assert inner == t + inner[|t|..];
    TagNameTail(t, inner[|t|..]);
    SlashHasNoName();
    assert "" + "/" == "/";
    BangIsNoLetter(inner);
    assert inner[0] == StripStart(raw, '<')[0];
  }

  lemma SlashHasNoName()
    ensures TagName("/") == ""
  {
    assert "/"[1..] == "";
  }

  lemma BangIsNoLetter(inner: string)
    ensures inner != "" && inner[0] == '!' ==> !Letters(TagName(inner))
  {
    if inner != "" && inner[0] == '!' { assert TagName(inner)[0] == '!'; }
  }

  lemma {:induction false} StripEndOnce(s: string, c: char)
    requires s != "" && s[|s| - 1] == c && (|s| == 1 || s[|s| - 2] != c)
    ensures StripEnd(s, c) == s[..|s| - 1]
  {
  }

  /** The inside of a self-closed tag ends with its slash. */
  lemma InnerOfClosed(t: string)
    requires t != ""
    ensures EndsWithSlash(TrimEnd(Inner("<" + t + "/>")))
  {
    var body := t + "/";
    assert "<" + t + "/>" == "<" + (body + ">");
    QuietStrip("<" + body);
    assert "<" + body + ">" == "<" + (body + ">");
    StripKeepsSlash("<" + t);
    assert ("<" + t) + "/" == "<" + body;
    StripEndOnce(StripStart("<" + body, '<') + ">", '>');
  }

  lemma {:induction false} StripKeepsSlash(t: string)
    ensures EndsWithSlash(StripStart(t + "/", '<'))
  {
    if t != "" && t[0] == '<' {
      assert (t + "/")[1..] == t[1..] + "/";
      StripKeepsSlash(t[1..]);
    } else {
      assert t == "" ==> t + "/" == "/";
    }
  }

  lemma ClosedNeedsNoClosing(raw: string)
    ensures !NeedsClosing(CloseTag(raw))
    ensures CloseTag(CloseTag(raw)) == CloseTag(raw)
  {
    if NeedsClosing(raw) {
      InnerOfTag(raw);
      InnerOfClosed(TrimEnd(Inner(raw)));
    }
  }

  /** A closed tag is again one terminated tag: nothing in it ends the scan early,
      and it is no comment. */
  lemma ClosedTagIsOneTag(raw: string)
    requires raw != "" && raw[0] == '<' && TagLen(raw) == Some(|raw|)
    ensures CloseTag(raw) != "" && CloseTag(raw)[0] == '<'
    ensures TagLen(CloseTag(raw)) == Some(|CloseTag(raw)|)
  {
    if NeedsClosing(raw) {
      KeptIsQuiet(raw);
      SelfClosedIsOneTag(TrimEnd(Inner(raw)));
    }
  }

  lemma KeptIsQuiet(raw: string)
    requires raw != "" && raw[0] == '<' && TagLen(raw) == Some(|raw|) && NeedsClosing(raw)
    ensures var t := TrimEnd(Inner(raw)); Quiet(t, None) && QuoteState(t, None) == None && t != "" && t[0] != '!'
  {
    InnerOfTag(raw);
    InnerIsQuiet(raw);
    var t := TrimEnd(Inner(raw));
    QuietPrefix(Inner(raw), |t|, None);
    assert Inner(raw)[..|t|] == t;
  }

  lemma SelfClosedIsOneTag(t: string)
    requires Quiet(t, None) && QuoteState(t, None) == None && t != "" && t[0] != '!'
    ensures TagLen("<" + t + "/>") == Some(|t| + 3)
  {
    QuietConcat(t, "/", None);
    SlashIsQuiet();
    QuietBodyIsTag(t + "/");
    assert "<" + (t + "/") + ">" == "<" + t + "/>";
  }

  lemma SlashIsQuiet()
    ensures Quiet("/", None) && QuoteState("/", None) == None
  {
    assert "/"[1..] == "";
  }

  lemma QuietBodyIsTag(body: string)
    requires Quiet(body, None) && QuoteState(body, None) == None && body != "" && body[0] != '!'
    ensures TagLen("<" + body + ">") == Some(|body| + 2)
  {
    var raw := "<" + body + ">";
    ScanStopsAt(body, "", None);
    assert raw[1..] == body + ">" + "" && raw[1] == body[0];
  }

  /** The inside of a void tag holds no `>` outside quotes and leaves no quote open. */
  lemma InnerIsQuiet(raw: string)
    requires raw != "" && raw[0] == '<' && TagLen(raw) == Some(|raw|) && NeedsClosing(raw)
    ensures Quiet(Inner(raw), None) && QuoteState(Inner(raw), None) == None
  {
    VoidIsNoComment(raw);
    PlainTagIsQuiet(raw);
    InnerOfPlainTag(raw[1..|raw| - 1]);
  }

  lemma PlainTagIsQuiet(raw: string)
    requires raw != "" && raw[0] == '<' && TagLen(raw) == Some(|raw|) && !OpensComment(raw)
    ensures |raw| > 1 && raw == "<" + raw[1..|raw| - 1] + ">"
    ensures Quiet(raw[1..|raw| - 1], None) && QuoteState(raw[1..|raw| - 1], None) == None
  {
    var body := raw[1..|raw| - 1];
    assert raw[1..] == body + ">" + "";
    ScanStopsAt(body, "", None);
  }

  lemma VoidIsNoComment(raw: string)
    requires raw != "" && NeedsClosing(raw)
    ensures !OpensComment(raw)
  {
    InnerOfTag(raw);
    assert StripStart(raw, '<')[0] == Inner(raw)[0];
    assert raw[0] == '<' ==> StripStart(raw, '<') == StripStart(raw[1..], '<');
  }

  lemma InnerOfPlainTag(body: string)
    requires Quiet(body, None) && QuoteState(body, None) == None
    ensures var inner := Inner("<" + body + ">"); Quiet(inner, None) && QuoteState(inner, None) == None
  {
    assert ("<" + body + ">")[1..] == body + ">";
    QuietStrip(body);
    LastBeforeEnd(StripStart(body, '<'), None);
    StripEndOnce(StripStart(body, '<') + ">", '>');
  }

  /** A quiet body that leaves no quote open does not end in `>`. */
  lemma {:induction false} LastBeforeEnd(body: string, quote: Option<char>)
    requires QuoteMark(quote) && Quiet(body, quote) && QuoteState(body, quote) == None
    ensures body == "" || body[|body| - 1] != '>'
  {
    if |body| > 1 {
      LastBeforeEnd(body[1..], QuoteAfter(body[0], quote));
    } else if body != "" {
      assert QuoteState(body[1..], QuoteAfter(body[0], quote)) == QuoteAfter(body[0], quote);
    }
  }

  /** Re-tokenisation: scanning the closed markup finds the same pieces, each tag closed. */
  lemma {:induction false} RescanClosed(s: string)
    ensures Scan(Close(s)) == ClosePieces(Scan(s))
    ensures Close(s) == "" <==> s == ""
    ensures s != "" ==> (Close(s)[0] == '<' <==> s[0] == '<')
    decreases |s|
  {
    if s == "" {
    } else if s[0] != '<' {
      var n := Span(s, Other('<'));
      var run, rest := s[..n], s[n..];
      assert s == run + rest;
      RescanClosed(rest);
      CloseRun(run, rest);
      ScanRun(run, Close(rest));
      JoinCons(Text(run), Scan(rest));
    } else {
      CloseMarkup(s);
      if TagLen(s).None? {
        JoinOne(Tail(s));
      } else {
        var n := TagLen(s).value;
        RescanClosed(s[n..]);
        TagLenOfRaw(s);
        ClosedTagIsOneTag(s[..n]);
        ScanTag(CloseTag(s[..n]), Close(s[n..]));
        JoinCons(Tag(s[..n]), Scan(s[n..]));
      }
    }
  }

  /** A string that is one tag is scanned as that tag, whatever follows. */
  lemma ScanTag(raw: string, rest: string)
    requires raw != "" && raw[0] == '<' && TagLen(raw) == Some(|raw|)
    ensures raw + rest != "" && Scan(raw + rest) == [Tag(raw)] + Scan(rest)
  {
    TagLenIgnoresRest(raw, rest);
    assert (raw + rest)[..|raw|] == raw && (raw + rest)[|raw|..] == rest;
  }

  // -------------------------------------------------------------------------
  // Making &nbsp; numeric
  // -------------------------------------------------------------------------

  /** Same length, and characters differ only where a letter of `nbsp` became one of `#160`. */
  ghost predicate Twin(s: string, t: string) {
    |s| == |t| && forall i :: 0 <= i < |s| ==> t[i] == s[i] || (s[i] in "nbsp" && t[i] in "#160")
  }

  lemma {:induction false} NumericIsTwin(s: string)
    ensures Twin(s, Numeric(s))
    decreases |s|
  {
    if s != "" {
      if NBSP <= s {
        NumericIsTwin(s[6..]);
        assert forall i :: 0 <= i < 6 ==> s[i] == NBSP[i];
      } else {
        NumericIsTwin(s[1..]);
      }
    }
  }

  /** None of the scanner's tests can tell `nbsp` from `#160`. */
  lemma {:induction false} TwinQuoteScan(s: string, t: string, quote: Option<char>)
    requires Twin(s, t) && QuoteMark(quote)
    ensures QuoteScan(s, quote) == QuoteScan(t, quote)
  {
    if s != "" {
      TwinQuoteScan(s[1..], t[1..], QuoteAfter(s[0], quote));
    }
  }

  lemma TwinPrefix(s: string, t: string, p: string)
    requires Twin(s, t) && forall i :: 0 <= i < |p| ==> p[i] !in "nbsp#160"
    ensures p <= s <==> p <= t
  {
    assert forall i :: 0 <= i < |p| ==> p[i] !in "nbsp" && p[i] !in "#160";
    if |p| <= |s| {
      if p <= s { assert forall i :: 0 <= i < |p| ==> s[i] == p[i] && t[i] == p[i]; }
      if p <= t { assert forall i :: 0 <= i < |p| ==> t[i] == p[i] && s[i] == p[i]; }
    }
  }

  lemma {:induction false} TwinFind(s: string, t: string, p: string)
    requires p != "" && Twin(s, t) && forall i :: 0 <= i < |p| ==> p[i] !in "nbsp#160"
    ensures Find(s, p) == Find(t, p)
  {
    TwinPrefix(s, t, p);
    if |p| <= |s| { TwinFind(s[1..], t[1..], p); }
  }

  lemma TwinTagLen(s: string, t: string)
    requires s != "" && s[0] == '<' && Twin(s, t)
    ensures t[0] == '<' && TagLen(s) == TagLen(t)
  {
    TwinFind(s, t, "-->");
    TwinQuoteScan(s[1..], t[1..], None);
  }

  lemma {:induction false} TwinStripEnd(s: string, t: string, c: char)
    requires Twin(s, t) && c !in "nbsp" && c !in "#160"
    ensures |StripEnd(s, c)| == |StripEnd(t, c)|
  {
    if s != "" { TwinStripEnd(s[..|s| - 1], t[..|s| - 1], c); }
  }

  lemma TwinWhitespace(c: char, d: char)
    requires d == c || (c in "nbsp" && d in "#160")
    ensures IsWhitespace(c) == IsWhitespace(d)
  {
  }

  lemma {:induction false} TwinTrimEnd(s: string, t: string)
    requires Twin(s, t)
    ensures |TrimEnd(s)| == |TrimEnd(t)|
  {
    if s != "" {
      TwinWhitespace(s[|s| - 1], t[|s| - 1]);
      TwinTrimEnd(s[..|s| - 1], t[..|s| - 1]);
    }
  }

  lemma {:induction false} TwinStripStart(s: string, t: string, c: char)
    requires Twin(s, t) && c !in "nbsp" && c !in "#160"
    ensures Twin(StripStart(s, c), StripStart(t, c))
  {
    if s != "" { TwinStripStart(s[1..], t[1..], c); }
  }

  lemma {:induction false} TwinHead(s: string, t: string)
    requires Twin(s, t)
    ensures Twin(Head(s, NameChar), Head(t, NameChar))
  {
    if s != "" { TwinHead(s[1..], t[1..]); }
  }

  lemma TwinInner(s: string, t: string)
    requires Twin(s, t)
    ensures Twin(Inner(s), Inner(t))
  {
    TwinStripStart(s, t, '<');
    TwinStripEnd(StripStart(s, '<'), StripStart(t, '<'), '>');
  }

  /** Making `&nbsp;` numeric never turns a tag into a void one: letters of a name
      that the replacement touched would no longer be letters. */
  lemma TwinNeedsClosing(s: string, t: string)
    requires Twin(s, t) && NeedsClosing(t)
    ensures NeedsClosing(s)
  {
    TwinInner(s, t);
    var a, b := Inner(s), Inner(t);
    TwinVoidName(a, b);
    TwinTrimEnd(a, b);
  }

  lemma TwinVoidName(a: string, b: string)
    requires Twin(a, b) && IsVoid(TagName(b))
    ensures TagName(a) == TagName(b)
  {
    VoidNamesAreLetters(TagName(b));
    TwinStripStart(a, b, '/');
    TwinHead(StripStart(a, '/'), StripStart(b, '/'));
    var m, n := Head(StripStart(a, '/'), NameChar), Head(StripStart(b, '/'), NameChar);
    assert forall i :: 0 <= i < |n| ==> LowerAll(n)[i] == Lower(n[i]) && n[i] !in "#160";
    assert LowerAll(m) == LowerAll(n);
  }

  /** Scanning numeric markup finds the same pieces, each made numeric. */
  lemma {:induction false} RescanNumeric(s: string)
    ensures Scan(Numeric(s)) == RenamePieces(Scan(s))
    decreases |s|
  {
    NumericIsTwin(s);
    if s == "" {
    } else if s[0] != '<' {
      var n := Span(s, Other('<'));
      var run, rest := s[..n], s[n..];
      assert s == run + rest;
      RescanNumeric(rest);
      NumericRun(run, rest);
      ScanRun(Numeric(run), Numeric(rest));
      JoinCons(Text(run), Scan(rest));
    } else if TagLen(s).None? {
      TwinTagLen(s, Numeric(s));
      JoinOne(Tail(s));
    } else {
      var n := TagLen(s).value;
      var raw, rest := s[..n], s[n..];
      assert s == raw + rest;
      RescanNumeric(rest);
      TagLenOfRaw(s);
      NumericTag(raw, rest);
      ScanTag(Numeric(raw), Numeric(rest));
      JoinCons(Tag(raw), Scan(rest));
    }
  }

  lemma NumericTag(raw: string, rest: string)
    requires raw != "" && raw[0] == '<' && TagLen(raw) == Some(|raw|)
    ensures Numeric(raw + rest) == Numeric(raw) + Numeric(rest)
    ensures Numeric(raw) != "" && Numeric(raw)[0] == '<' && TagLen(Numeric(raw)) == Some(|Numeric(raw)|)
  {
    ReplaceSplit(raw, rest, NBSP, NBSP_NUMERIC);
    NumericIsTwin(raw);
    TwinTagLen(raw, Numeric(raw));
  }

  lemma NumericRun(run: string, rest: string)
    requires run != "" && '<' !in run && (rest == "" || rest[0] == '<')
    ensures Numeric(run + rest) == Numeric(run) + Numeric(rest)
    ensures Numeric(run) != "" && '<' !in Numeric(run) && (rest == "" <==> Numeric(rest) == "")
    ensures rest != "" ==> Numeric(rest)[0] == '<'
  {
    ReplaceSplit(run, rest, NBSP, NBSP_NUMERIC);
    NumericIsTwin(run);
    NumericIsTwin(rest);
  }

  lemma {:induction false} NumericLeavesNone(s: string)
    ensures Find(Numeric(s), NBSP) == None
    decreases |s|
  {
    NumericIsTwin(s);
    if s != "" {
      var t := Numeric(s);
      if NBSP <= s {
        NumericLeavesNone(s[6..]);
        FindNotAcross(NBSP_NUMERIC, Numeric(s[6..]));
      } else {
        NumericLeavesNone(s[1..]);
        NumericIsTwin(s[1..]);
        if NBSP <= t { TwinNbsp(s, t); }
        assert t[1..] == Numeric(s[1..]);
      }
    }
  }

  lemma TwinNbsp(s: string, t: string)
    requires Twin(s, t) && NBSP <= t
    ensures NBSP <= s
  {
    assert forall i :: 0 <= i < 6 ==> t[i] == NBSP[i] && t[i] !in "#160";
    assert s[..6] == t[..6];
  }

  lemma FindNotAcross(a: string, b: string)
    requires a == NBSP_NUMERIC && Find(b, NBSP) == None
    ensures Find(a + b, NBSP) == None
  {
    var s := a + b;
    assert !(NBSP <= s) by { assert s[1] == '#'; }
    NoAmpersandSkipped(a[1..], b);
    assert s[1..] == a[1..] + b;
  }

  lemma {:induction false} NoAmpersandSkipped(a: string, b: string)
    requires '&' !in a && Find(b, NBSP) == None
    ensures Find(a + b, NBSP) == None
  {
    if a == "" {
      assert a + b == b;
    } else {
      assert (a + b)[1..] == a[1..] + b && (a + b)[0] == a[0];
      NoAmpersandSkipped(a[1..], b);
    }
  }

  // -------------------------------------------------------------------------
  // to_xhtml: the main results
  // -------------------------------------------------------------------------

  /** A second scan of the output finds the same pieces in the same order, each
      tag closed and each `&nbsp;` numeric, and nothing else changed. */
  lemma SecondScanFindsTheSamePieces(html: string)
    ensures Scan(ToXhtml(html)) == RenamePieces(ClosePieces(Scan(html)))
  {
    RescanClosed(html);
    RescanNumeric(Close(html));
  }

  /** In the output every terminated void tag is self-closed and no `&nbsp;` is left. */
  lemma OutputIsClean(html: string)
    ensures forall p :: p in Scan(ToXhtml(html)) && p.Tag? ==> !NeedsClosing(p.raw)
    ensures Find(ToXhtml(html), NBSP) == None
  {
    SecondScanFindsTheSamePieces(html);
    NumericLeavesNone(Close(html));
    var first, second := ClosePieces(Scan(html)), Scan(ToXhtml(html));
    forall i | 0 <= i < |second| && second[i].Tag? ensures !NeedsClosing(second[i].raw) {
      assert second[i] == first[i].Renamed() && first[i] == Scan(html)[i].Closed();
      ClosedNeedsNoClosing(Scan(html)[i].raw);
      NumericIsTwin(first[i].raw);
      if NeedsClosing(second[i].raw) { TwinNeedsClosing(first[i].raw, second[i].raw); }
    }
  }

  /** The strings `to_xhtml` leaves alone are exactly those with no unclosed void
      tag and no `&nbsp;`. */
  lemma UnchangedExactlyWhenClean(html: string)
    ensures ToXhtml(html) == html
       <==> (forall p :: p in Scan(html) && p.Tag? ==> !NeedsClosing(p.raw)) && Find(html, NBSP) == None
  {
    if ToXhtml(html) == html {
      OutputIsClean(html);
    }
    if (forall p :: p in Scan(html) && p.Tag? ==> !NeedsClosing(p.raw)) && Find(html, NBSP) == None {
      assert ClosePieces(Scan(html)) == Scan(html);
      ScanIsLossless(html);
      ReplaceAbsent(html, NBSP, NBSP_NUMERIC);
    }
  }

  /** `to_xhtml` is idempotent on every string, terminated or not. */
  lemma ToXhtmlIsIdempotent(html: string)
    ensures ToXhtml(ToXhtml(html)) == ToXhtml(html)
  {
    OutputIsClean(html);
    UnchangedExactlyWhenClean(ToXhtml(html));
  }

  /** An end tag with a slash before its `>`, which no XML parser takes. */
  predicate BadEnd(raw: string) { "</" <= raw && EndsWithSlash(TrimEnd(Inner(raw))) }

  /** A tag that is such an end tag, or becomes one because its name, read behind the
      slash, is that of a void element. */
  predicate MakesBadEnd(raw: string) { BadEnd(raw) || (NeedsClosing(raw) && "/" <= Inner(raw)) }

  lemma ClosedBadEnd(raw: string)
    requires raw != "" && raw[0] == '<' && TagLen(raw) == Some(|raw|)
    ensures BadEnd(CloseTag(raw)) <==> MakesBadEnd(raw)
  {
    if NeedsClosing(raw) {
      var t := TrimEnd(Inner(raw));
      InnerOfTag(raw);
      InnerOfClosed(t);
      StartsWithSlash(t);
      assert "/" <= Inner(raw) <==> Inner(raw)[0] == '/';
    }
  }

  lemma StartsWithSlash(t: string)
    requires t != ""
    ensures "</" <= "<" + t + "/>" <==> t[0] == '/'
  {
    var c := "<" + t + "/>";
    assert c[0] == '<' && c[1] == t[0] && "</"[0] == '<' && "</"[1] == '/';
    assert c[..2] == "</" <==> t[0] == '/';
  }

  lemma TwinBadEnd(s: string, t: string)
    requires Twin(s, t)
    ensures BadEnd(s) <==> BadEnd(t)
  {
    assert "</"[0] == '<' && "</"[1] == '/';
    TwinPrefix(s, t, "</");
    TwinInner(s, t);
    TwinSlashEnd(Inner(s), Inner(t));
  }

  lemma TwinSlashEnd(s: string, t: string)
    requires Twin(s, t)
    ensures EndsWithSlash(TrimEnd(s)) <==> EndsWithSlash(TrimEnd(t))
  {
    TwinTrimEnd(s, t);
    var k := |TrimEnd(s)|;
    assert k > 0 ==> TrimEnd(s)[k - 1] == s[k - 1] && TrimEnd(t)[k - 1] == t[k - 1];
    assert '/' !in "nbsp" && '/' !in "#160";
  }

  lemma WrittenBadEnd(raw: string)
    requires raw != "" && raw[0] == '<' && TagLen(raw) == Some(|raw|)
    ensures BadEnd(Numeric(CloseTag(raw))) <==> MakesBadEnd(raw)
  {
    ClosedBadEnd(raw);
    NumericIsTwin(CloseTag(raw));
    TwinBadEnd(CloseTag(raw), Numeric(CloseTag(raw)));
  }

  lemma EndsMatch(html: string, i: nat)
    requires i < |Scan(html)|
    ensures |Scan(ToXhtml(html))| == |Scan(html)|
    ensures var p, q := Scan(html)[i], Scan(ToXhtml(html))[i];
            (p.Tag? && MakesBadEnd(p.raw)) <==> (q.Tag? && BadEnd(q.raw))
  {
    var p, closed := Scan(html)[i], ClosePieces(Scan(html));
    SecondScanFindsTheSamePieces(html);
    assert Scan(ToXhtml(html))[i] == closed[i].Renamed() && closed[i] == p.Closed();
    if p.Tag? {
      TagsAreTags(html, i);
      WrittenBadEnd(p.raw);
    }
  }

  /** When the output is no XML for an end tag: exactly when the input holds one that is
      broken already, or an end tag of a void element. The latter gains a slash, because
      the slash in front is skipped when its name is read. */
  lemma WhenEndTagsBreak(html: string)
    ensures (exists p :: p in Scan(ToXhtml(html)) && p.Tag? && BadEnd(p.raw))
       <==> (exists p :: p in Scan(html) && p.Tag? && MakesBadEnd(p.raw))
  {
    var pieces, second := Scan(html), Scan(ToXhtml(html));
    SecondScanFindsTheSamePieces(html);
    forall i: nat | i < |pieces|
      ensures (pieces[i].Tag? && MakesBadEnd(pieces[i].raw)) <==> (second[i].Tag? && BadEnd(second[i].raw))
    {
      EndsMatch(html, i);
    }
    SomeOfBoth(pieces, second);
  }

  lemma SomeOfBoth(pieces: seq<Piece>, second: seq<Piece>)
    requires |pieces| == |second|
    requires forall i :: 0 <= i < |pieces| ==>
               ((pieces[i].Tag? && MakesBadEnd(pieces[i].raw)) <==> (second[i].Tag? && BadEnd(second[i].raw)))
    ensures (exists p :: p in second && p.Tag? && BadEnd(p.raw))
       <==> (exists p :: p in pieces && p.Tag? && MakesBadEnd(p.raw))
  {
    if p :| p in second && p.Tag? && BadEnd(p.raw) {
      var i :| 0 <= i < |second| && second[i] == p;
      assert pieces[i] in pieces;
    }
    if p :| p in pieces && p.Tag? && MakesBadEnd(p.raw) {
      var i :| 0 <= i < |pieces| && pieces[i] == p;
      assert second[i] in second;
    }
  }

  lemma {:induction false} TagsAreTags(s: string, i: nat)
    requires i < |Scan(s)| && Scan(s)[i].Tag?
    ensures var raw := Scan(s)[i].raw; raw != "" && raw[0] == '<' && TagLen(raw) == Some(|raw|)
    decreases |s|
  {
    if s[0] != '<' {
      TagsAreTags(s[Span(s, Other('<'))..], i - 1);
    } else {
      TagLenOfRaw(s);
      if i > 0 { TagsAreTags(s[TagLen(s).value..], i - 1); }
    }
  }
}
