/** Entity coding: three escapers, two cursor-loop decoders and two `replace`-chain decoders of the crate. */
module Entities {
  import opened Text

  // -------------------------------------------------------------------------
  // Escapers
  // -------------------------------------------------------------------------

  type Attr = (string, string)

  /** Which characters an escaper rewrites. */
  datatype Escaper = AttrEscaper | TextEscaper | XmlEscaper {
    function Char(c: char): string {
      if c == '&' then "&amp;"
      else if c == '<' then "&lt;"
      else if c == '>' then "&gt;"
      else if c == '"' && !TextEscaper? then "&quot;"
      else if c == '\'' && XmlEscaper? then "&apos;"
      else [c]
    }

    function Escape(s: string): string {
      if s == "" then "" else Char(s[0]) + Escape(s[1..])
    }

    /** ` key="escaped value"` for each pair. */
    function Attrs(attrs: seq<Attr>): string {
      if attrs == [] then ""
      else " " + attrs[0].0 + "=\"" + Escape(attrs[0].1) + "\"" + Attrs(attrs[1..])
    }

    /** `attr_escape`, `text_escape` and `xml_escape` push one character at a time. */
    method Push(s: string) returns (out: string)
      ensures out == Escape(s)
    {
      out := "";
      for i := 0 to |s|
        invariant out + Escape(s[i..]) == Escape(s)
      {
        assert s[i..][1..] == s[i + 1..];
        assert out + (Char(s[i]) + Escape(s[i + 1..])) == (out + Char(s[i])) + Escape(s[i + 1..]);
        out := out + Char(s[i]);
      }
    }
  }

  /** Escaped text holds no markup delimiter, and no double quote unless it is
      text content, so it can stand between tags or between quotes. */
  lemma {:induction false} EscapedIsInert(e: Escaper, s: string)
    ensures '<' !in e.Escape(s) && '>' !in e.Escape(s)
    ensures !e.TextEscaper? ==> '"' !in e.Escape(s)
    ensures e.XmlEscaper? ==> '\'' !in e.Escape(s)
  {
    if s != "" {
      CharIsInert(e, s[0]);
      EscapedIsInert(e, s[1..]);
    }
  }

  lemma CharIsInert(e: Escaper, c: char)
    ensures '<' !in e.Char(c) && '>' !in e.Char(c)
    ensures !e.TextEscaper? ==> '"' !in e.Char(c)
    ensures e.XmlEscaper? ==> '\'' !in e.Char(c)
  {
  }

  lemma {:induction false} EscapeConcat(e: Escaper, a: string, b: string)
    ensures e.Escape(a + b) == e.Escape(a) + e.Escape(b)
  {
    if a == "" {
      assert a + b == b;
    } else {
      assert (a + b)[1..] == a[1..] + b;
      EscapeConcat(e, a[1..], b);
    }
  }

  /** The name inside the entity an escaper writes for `c`; both decoders know it. */
  lemma EntityName(e: Escaper, c: char) returns (name: string)
    requires c == '&' || e.Char(c) != [c]
    ensures e.Char(c) == "&" + name + ";" && ';' !in name && |name| <= 6
    ensures forall i :: 0 <= i < |name| ==> name[i] as int < 0x80
    ensures HtmlEntity(name) == Some(c) && XmlEntity(name) == Some(c)
  {
    if c == '&' { name := "amp"; }
    else if c == '<' { name := "lt"; }
    else if c == '>' { name := "gt"; }
    else if c == '"' { name := "quot"; }
    else { name := "apos"; }
  }

  // -------------------------------------------------------------------------
  // Numeric character references
  // -------------------------------------------------------------------------

  function Digit(c: char): Option<nat> {
    if '0' <= c <= '9' then Some(c as int - '0' as int)
    else if 'a' <= c <= 'z' then Some(c as int - 'a' as int + 10)
    else if 'A' <= c <= 'Z' then Some(c as int - 'A' as int + 10)
    else None
  }

  /** The value of a digit string, `acc` being what stands to its left. */
  function Digits(s: string, radix: nat, acc: nat): Option<nat> {
    if s == "" then Some(acc)
    else match Digit(s[0])
      case Some(d) => if d < radix then Digits(s[1..], radix, acc * radix + d) else None
      case None => None
  }

  /** `u32::from_str_radix`: one optional `+`, then at least one digit. A value past
      `u32::MAX` is kept here; `CharOf` refuses it just as the overflow would be. */
  function Number(s: string, radix: nat): Option<nat> {
    var digits := if s != "" && s[0] == '+' then s[1..] else s;
    if digits == "" then None else Digits(digits, radix, 0)
  }

  /** `char::from_u32`: every scalar value, no surrogate. */
  function CharOf(n: nat): Option<char> {
    if n < 0xD800 || 0xE000 <= n < 0x11_0000 then Some(n as char) else None
  }

  /** `#123`, `#x7B` and `#X7B`. */
  function NumericChar(entity: string): Option<char> {
    if entity == "" || entity[0] != '#' then None
    else
      var n := if |entity| > 1 && (entity[1] == 'x' || entity[1] == 'X')
               then Number(entity[2..], 16) else Number(entity[1..], 10);
      match n case None => None case Some(v) => CharOf(v)
  }

  // -------------------------------------------------------------------------
  // html::decode_entities
  // -------------------------------------------------------------------------

  /** The `;` that ends the entity, looked for in the first 12 bytes only. */
  function SemicolonWithin(s: string, budget: nat): (r: Option<nat>)
    ensures r.Some? ==> r.value < |s| && s[r.value] == ';'
  {
    if s == "" || budget == 0 then None
    else if s[0] == ';' then Some(0)
    else if budget <= Utf8Len(s[0]) then None
    else Shift(SemicolonWithin(s[1..], budget - Utf8Len(s[0])), 1)
  }

  function HtmlEntity(entity: string): Option<char> {
    if entity == "amp" then Some('&')
    else if entity == "lt" then Some('<')
    else if entity == "gt" then Some('>')
    else if entity == "quot" then Some('"')
    else if entity == "apos" then Some('\'')
    else if entity == "nbsp" then Some('\U{00A0}')
    else NumericChar(entity)
  }

  /** The decoded form of text that starts with `&`: what to emit, and how far to go on. */
  function HtmlStep(tail: string): (r: (char, nat))
    requires tail != "" && tail[0] == '&'
    ensures 1 <= r.1 <= |tail|
  {
    match SemicolonWithin(tail, 12)
    case None => ('&', 1)
    case Some(end) =>
      match HtmlEntity(tail[1..end])
      case Some(c) => (c, end + 1)
      case None => ('&', 1)
  }

  function DecodeEntities(s: string): string
    decreases |s|
  {
    if s == "" then ""
    else if s[0] != '&' then [s[0]] + DecodeEntities(s[1..])
    else var (c, n) := HtmlStep(s); [c] + DecodeEntities(s[n..])
  }

  lemma {:induction false} DecodeCopies(a: string, b: string)
    requires '&' !in a
    ensures DecodeEntities(a + b) == a + DecodeEntities(b)
  {
    if a == "" {
      assert a + b == b;
    } else {
      assert (a + b)[1..] == a[1..] + b;
      DecodeCopies(a[1..], b);
    }
  }

  method Decode(s: string) returns (out: string)
    ensures out == DecodeEntities(s)
  {
    if '&' !in s {
      DecodeCopies(s, "");
      assert s + "" == s;
      return s;
    }
    out := "";
    var rest := s;
    while '&' in rest
      invariant out + DecodeEntities(rest) == DecodeEntities(s)
      decreases |rest|
    {
      var i := NextChar(rest, 0, '&');
      var tail := rest[i..];
      DecodeStep(rest, i);
      var (c, n) := HtmlStep(tail);
      RegroupText(out, rest[..i], c, DecodeEntities(tail[n..]));
      out := out + rest[..i] + [c];
      rest := tail[n..];
    }
    DecodeCopies(rest, "");
    assert rest + "" == rest;
    out := out + rest;
  }

  lemma DecodeStep(s: string, i: nat)
    requires i < |s| && s[i] == '&' && '&' !in s[..i]
    ensures var (c, n) := HtmlStep(s[i..]);
            DecodeEntities(s) == s[..i] + ([c] + DecodeEntities(s[i..][n..]))
  {
    assert s == s[..i] + s[i..];
    DecodeCopies(s[..i], s[i..]);
  }

  lemma RegroupText(out: string, before: string, c: char, rest: string)
    ensures out + (before + ([c] + rest)) == (out + before + [c]) + rest
  {
  }

  /** A known entity that closes inside the window decodes to its character. */
  lemma {:induction false} SemicolonAfter(name: string, rest: string, budget: nat)
    requires ';' !in name && ByteLen(name) < budget
    ensures SemicolonWithin(name + ";" + rest, budget) == Some(|name|)
  {
    if name != "" {
      assert (name + ";" + rest)[1..] == name[1..] + ";" + rest;
      SemicolonAfter(name[1..], rest, budget - Utf8Len(name[0]));
    }
  }

  lemma HtmlEntityDecodes(name: string, c: char, rest: string)
    requires ';' !in name && |name| <= 10 && HtmlEntity(name) == Some(c)
    requires forall i :: 0 <= i < |name| ==> name[i] as int < 0x80
    ensures DecodeEntities("&" + name + ";" + rest) == [c] + DecodeEntities(rest)
  {
    var s := "&" + name + ";" + rest;
    assert s == ("&" + name) + ";" + rest;
    AsciiByteLen("&" + name);
    SemicolonAfter("&" + name, rest, 12);
    assert s[1..|name| + 1] == name;
    assert s[|name| + 2..] == rest;
  }

  lemma {:induction false} AsciiByteLen(s: string)
    requires forall i :: 0 <= i < |s| ==> s[i] as int < 0x80
    ensures ByteLen(s) == |s|
  {
    if s != "" { AsciiByteLen(s[1..]); }
  }

  /** `decode_entities` undoes every escaper, on every string. */
  lemma {:induction false} DecodeUndoesEscape(e: Escaper, s: string)
    ensures DecodeEntities(e.Escape(s)) == s
  {
    if s != "" {
      DecodeUndoesEscape(e, s[1..]);
      var c, rest := s[0], e.Escape(s[1..]);
      if e.Char(c) == [c] && c != '&' {
        DecodeCopies([c], rest);
      } else {
        var name := EntityName(e, c);
        HtmlEntityDecodes(name, c, rest);
      }
    }
  }

  // -------------------------------------------------------------------------
  // bookorbit::xml_unescape
  // -------------------------------------------------------------------------

  function XmlEntity(entity: string): Option<char> {
    if entity == "amp" then Some('&')
    else if entity == "lt" then Some('<')
    else if entity == "gt" then Some('>')
    else if entity == "quot" then Some('"')
    else if entity == "apos" then Some('\'')
    else NumericChar(entity)
  }

  /** What to emit for text that starts with `&`, and how far to go on. Unlike
      `decode_entities`, an unknown entity is copied up to its `;`, and a `&` with
      no `;` anywhere after it ends the scan. */
  function XmlStep(tail: string): (r: (string, nat))
    requires tail != "" && tail[0] == '&'
    ensures 1 <= r.1 <= |tail|
  {
    match Find(tail[1..], ";")
    case None => (tail, |tail|)
    case Some(end) =>
      match XmlEntity(tail[1..end + 1])
      case Some(c) => ([c], end + 2)
      case None => (tail[..end + 2], end + 2)
  }

  function XmlUnescape(s: string): string
    decreases |s|
  {
    if s == "" then ""
    else if s[0] != '&' then [s[0]] + XmlUnescape(s[1..])
    else var (piece, n) := XmlStep(s); piece + XmlUnescape(s[n..])
  }

  lemma {:induction false} UnescapeCopies(a: string, b: string)
    requires '&' !in a
    ensures XmlUnescape(a + b) == a + XmlUnescape(b)
  {
    if a == "" {
      assert a + b == b;
    } else {
      assert (a + b)[1..] == a[1..] + b;
      UnescapeCopies(a[1..], b);
    }
  }

  method Unescape(text: string) returns (output: string)
    ensures output == XmlUnescape(text)
  {
    output := "";
    var cursor := 0;
    assert text[0..] == text;
    while '&' in text[cursor..]
      invariant cursor <= |text|
      invariant output + XmlUnescape(text[cursor..]) == XmlUnescape(text)
      decreases |text| - cursor
    {
      var ampersand := NextChar(text, cursor, '&');
      UnescapeTurn(output, text[cursor..ampersand], text[ampersand..], XmlUnescape(text));
      var (piece, n) := XmlStep(text[ampersand..]);
      output := output + text[cursor..ampersand] + piece;
      cursor := ampersand + n;
      assert text[ampersand..][n..] == text[cursor..];
    }
    UnescapeCopies(text[cursor..], "");
    assert text[cursor..] + "" == text[cursor..];
    output := output + text[cursor..];
  }

  lemma UnescapeTurn(output: string, run: string, tail: string, all: string)
    requires '&' !in run && tail != "" && tail[0] == '&' && output + XmlUnescape(run + tail) == all
    ensures var (piece, n) := XmlStep(tail); output + run + piece + XmlUnescape(tail[n..]) == all
  {
    UnescapeCopies(run, tail);
  }

  lemma XmlEntityDecodes(name: string, c: char, rest: string)
    requires ';' !in name && XmlEntity(name) == Some(c)
    ensures XmlUnescape("&" + name + ";" + rest) == [c] + XmlUnescape(rest)
  {
    var s, tail := "&" + name + ";" + rest, name + ";" + rest;
    assert s[1..] == tail;
    FindAfter(name, ";", rest);
    assert s[1..|name| + 1] == tail[..|name|] == name;
    assert s[|name| + 2..] == tail[|name| + 1..] == rest;
  }

  /** `bookorbit::xml_unescape` undoes every escaper, `publish::xml_escape` among them. */
  lemma {:induction false} UnescapeUndoesEscape(e: Escaper, s: string)
    ensures XmlUnescape(e.Escape(s)) == s
  {
    if s != "" {
      UnescapeUndoesEscape(e, s[1..]);
      var c, rest := s[0], e.Escape(s[1..]);
      if e.Char(c) == [c] && c != '&' {
        UnescapeCopies([c], rest);
      } else {
        var name := EntityName(e, c);
        XmlEntityDecodes(name, c, rest);
      }
    }
  }

  // -------------------------------------------------------------------------
  // Replace chains
  // -------------------------------------------------------------------------

  /** An entity and the character it stands for. */
  type Entry = (string, char)

  /** The first entry whose entity `s` starts with. */
  function Lookup(table: seq<Entry>, s: string): (r: Option<Entry>)
    ensures r.Some? ==> r.value in table && r.value.0 <= s
    ensures r.None? ==> forall e :: e in table ==> !(e.0 <= s)
  {
    if table == [] then None
    else if table[0].0 <= s then Some(table[0])
    else Lookup(table[1..], s)
  }

  predicate Entity(text: string) {
    && text != "" && text[0] == '&'
    && forall i :: 1 <= i < |text| ==> text[i] != '&'
  }

  predicate Entities(table: seq<Entry>) {
    forall e :: e in table ==> Entity(e.0)
  }

  /** What the chains rely on: proper entities, none the start of another, and the
      character of an earlier entry occurring in no later entity (so `&amp;` is last). */
  ghost predicate WellOrdered(table: seq<Entry>) {
    && Entities(table)
    && (forall i, j :: 0 <= i < j < |table| ==>
          !(table[i].0 <= table[j].0) && !(table[j].0 <= table[i].0))
    && (forall i, j :: 0 <= i < j < |table| ==> table[i].1 !in table[j].0)
  }

  /** One left-to-right pass over the text. */
  function DecodeWith(table: seq<Entry>, s: string): string
    requires Entities(table)
    decreases |s|
  {
    if s == "" then ""
    else match Lookup(table, s)
      case Some(e) => [e.1] + DecodeWith(table, s[|e.0|..])
      case None => [s[0]] + DecodeWith(table, s[1..])
  }

  /** `s.replace(..).replace(..)…`, one pass per entry. */
  function ReplaceChain(table: seq<Entry>, s: string): string
    requires Entities(table)
    decreases |table|
  {
    if table == [] then s
    else
      var k := |table| - 1;
      Replace(ReplaceChain(table[..k], s), table[k].0, [table[k].1])
  }

  /** Text made of characters no entry produces comes through a decode only by being copied. */
  lemma {:induction false} DecodedPrefix(table: seq<Entry>, s: string, p: string)
    requires Entities(table) && forall e :: e in table ==> e.1 !in p
    requires p <= DecodeWith(table, s)
    ensures p <= s
  {
    if p != "" {
      assert s != "";
      assert p[0] == DecodeWith(table, s)[0];
      assert p[1..] <= DecodeWith(table, s)[1..];
      DecodedPrefix(table, s[1..], p[1..]);
    }
  }

  /** Text without `&` is copied. */
  lemma {:induction false} DecodeWithCopies(table: seq<Entry>, a: string, s: string)
    requires Entities(table)
    requires '&' !in a
    ensures DecodeWith(table, a + s) == a + DecodeWith(table, s)
  {
    if a == "" {
      assert a + s == s;
    } else {
      assert (a + s)[1..] == a[1..] + s;
      DecodeWithCopies(table, a[1..], s);
    }
  }

  /** One more `replace` on top of a decode is the decode with one more entry. */
  lemma {:induction false} ReplaceExtends(table: seq<Entry>, last: Entry, s: string)
    requires WellOrdered(table + [last])
    ensures Entities(table)
    ensures Replace(DecodeWith(table, s), last.0, [last.1]) == DecodeWith(table + [last], s)
    decreases |s|
  {
    EntriesAreEntities(table, last);
    LookupExtends(table, last, s);
    if s != "" {
      var d := DecodeWith(table, s);
      var hit := Lookup(table, s);
      if hit.Some? {
        ReplaceExtends(table, last, s[|hit.value.0|..]);
        assert d[0] != last.0[0] by { assert hit.value.1 !in last.0; }
        assert d[1..] == DecodeWith(table, s[|hit.value.0|..]);
      } else if last.0 <= s {
        ReplaceExtends(table, last, s[|last.0|..]);
        CopiedEntity(table, last.0, s);
      } else {
        ReplaceExtends(table, last, s[1..]);
        if last.0 <= d { DecodedPrefix(table, s, last.0); }
        assert d[1..] == DecodeWith(table, s[1..]);
      }
    }
  }

  /** An entity outside the table is copied whole. */
  lemma CopiedEntity(table: seq<Entry>, entity: string, s: string)
    requires Entities(table) && Entity(entity) && entity <= s && Lookup(table, s).None?
    ensures DecodeWith(table, s) == entity + DecodeWith(table, s[|entity|..])
    ensures DecodeWith(table, s)[|entity|..] == DecodeWith(table, s[|entity|..])
  {
    var body, rest := entity[1..], s[|entity|..];
    assert s[1..] == body + rest;
    DecodeWithCopies(table, body, rest);
    assert DecodeWith(table, s) == [s[0]] + (body + DecodeWith(table, rest));
    assert [s[0]] + (body + DecodeWith(table, rest)) == entity + DecodeWith(table, rest);
  }

  lemma EntriesAreEntities(table: seq<Entry>, last: Entry)
    requires WellOrdered(table + [last])
    ensures WellOrdered(table)
    ensures forall e :: e in table ==> e.1 !in last.0 && !(e.0 <= last.0) && !(last.0 <= e.0)
  {
    var all := table + [last];
    assert forall i :: 0 <= i < |table| ==> all[i] == table[i];
    assert all[|table|] == last;
  }

  lemma {:induction false} LookupExtends(table: seq<Entry>, last: Entry, s: string)
    ensures Lookup(table + [last], s)
         == if Lookup(table, s).Some? then Lookup(table, s)
            else if last.0 <= s then Some(last) else None
  {
    if table == [] {
      assert table + [last] == [last];
    } else {
      assert (table + [last])[1..] == table[1..] + [last];
      LookupExtends(table[1..], last, s);
    }
  }

  lemma {:induction false} DecodeWithNothing(s: string)
    ensures DecodeWith([], s) == s
  {
    if s != "" { DecodeWithNothing(s[1..]); }
  }

  /** A chain of `replace` calls in a well-ordered table is one left-to-right decoder. */
  lemma {:induction false} ChainIsOnePass(table: seq<Entry>, s: string)
    requires WellOrdered(table)
    ensures ReplaceChain(table, s) == DecodeWith(table, s)
    decreases |table|
  {
    if table == [] {
      DecodeWithNothing(s);
    } else {
      var k := |table| - 1;
      assert table == table[..k] + [table[k]];
      EntriesAreEntities(table[..k], table[k]);
      ChainIsOnePass(table[..k], s);
      ReplaceExtends(table[..k], table[k], s);
    }
  }

  // --- The chains themselves ------------------------------------------------

  /** `interests::xml_unescape`. */
  const INTERESTS_TABLE: seq<Entry> :=
    [("&lt;", '<'), ("&gt;", '>'), ("&quot;", '"'), ("&apos;", '\''), ("&#39;", '\''), ("&amp;", '&')]

  /** `discovery::unescape`. */
  const DISCOVERY_TABLE: seq<Entry> :=
    [("&lt;", '<'), ("&gt;", '>'), ("&quot;", '"'), ("&#39;", '\''), ("&apos;", '\''), ("&amp;", '&')]

  function InterestsUnescape(value: string): string {
    if '&' !in value then value else ReplaceChain(INTERESTS_TABLE, value)
  }

  function DiscoveryUnescape(raw: string): string {
    ReplaceChain(DISCOVERY_TABLE, raw)
  }

  lemma InterestsTableIsWellOrdered()
    ensures WellOrdered(INTERESTS_TABLE)
  {
    var t := INTERESTS_TABLE;
    assert Start(t[0]) == ('l', 't') && Start(t[1]) == ('g', 't') && Start(t[2]) == ('q', 'u');
    assert Start(t[3]) == ('a', 'p') && Start(t[4]) == ('#', '3') && Start(t[5]) == ('a', 'm');
    InterestsOrder();
    DistinctStarts(t);
  }

  lemma InterestsOrder()
    ensures var t := INTERESTS_TABLE;
            Entities(t) && (forall i :: 0 <= i < |t| ==> |t[i].0| >= 3)
            && forall i, j :: 0 <= i < j < |t| ==> t[i].1 !in t[j].0
  {
  }

  lemma DiscoveryTableIsWellOrdered()
    ensures WellOrdered(DISCOVERY_TABLE)
  {
    var t := DISCOVERY_TABLE;
    assert Start(t[0]) == ('l', 't') && Start(t[1]) == ('g', 't') && Start(t[2]) == ('q', 'u');
    assert Start(t[3]) == ('#', '3') && Start(t[4]) == ('a', 'p') && Start(t[5]) == ('a', 'm');
    DiscoveryOrder();
    DistinctStarts(t);
  }

  lemma DiscoveryOrder()
    ensures var t := DISCOVERY_TABLE;
            Entities(t) && (forall i :: 0 <= i < |t| ==> |t[i].0| >= 3)
            && forall i, j :: 0 <= i < j < |t| ==> t[i].1 !in t[j].0
  {
  }

  /** The two characters behind the `&`. */
  function Start(e: Entry): (char, char)
    requires |e.0| >= 3
  {
    (e.0[1], e.0[2])
  }

  lemma DistinctStarts(t: seq<Entry>)
    requires Entities(t) && forall i :: 0 <= i < |t| ==> |t[i].0| >= 3
    requires forall i, j :: 0 <= i < j < |t| ==> Start(t[i]) != Start(t[j])
    requires forall i, j :: 0 <= i < j < |t| ==> t[i].1 !in t[j].0
    ensures WellOrdered(t)
  {
  }

  /** In a well-ordered table at most one entity fits at a position. */
  lemma LookupIsUnique(table: seq<Entry>, e: Entry, s: string)
    requires WellOrdered(table) && e in table && e.0 <= s
    ensures Lookup(table, s) == Some(e)
  {
    var hit := Lookup(table, s).value;
    var m, n := |hit.0|, |e.0|;
    assert s[..m] == hit.0 && s[..n] == e.0;
    assert hit.0 <= e.0 || e.0 <= hit.0;
    var i :| 0 <= i < |table| && table[i] == hit;
    var j :| 0 <= j < |table| && table[j] == e;
  }

  lemma {:induction false} SameEntitiesSameDecode(a: seq<Entry>, b: seq<Entry>, s: string)
    requires WellOrdered(a) && WellOrdered(b)
    requires forall e :: e in a <==> e in b
    ensures DecodeWith(a, s) == DecodeWith(b, s)
    decreases |s|
  {
    if s != "" {
      match Lookup(a, s) {
        case Some(e) => LookupIsUnique(b, e, s); SameEntitiesSameDecode(a, b, s[|e.0|..]);
        case None => SameEntitiesSameDecode(a, b, s[1..]);
      }
    }
  }

  /** Each chain is the one-pass decoder over its table, and the two chains, though
      they replace in different orders, agree on every string. */
  lemma ChainsAgree(s: string)
    ensures Entities(INTERESTS_TABLE) && Entities(DISCOVERY_TABLE)
    ensures InterestsUnescape(s) == DecodeWith(INTERESTS_TABLE, s)
    ensures DiscoveryUnescape(s) == DecodeWith(DISCOVERY_TABLE, s)
    ensures InterestsUnescape(s) == DiscoveryUnescape(s)
  {
    InterestsTableIsWellOrdered();
    DiscoveryTableIsWellOrdered();
    ChainIsOnePass(INTERESTS_TABLE, s);
    ChainIsOnePass(DISCOVERY_TABLE, s);
    if '&' !in s {
      DecodeWithCopies(INTERESTS_TABLE, s, "");
      assert s + "" == s;
    }
    SameEntitiesSameDecode(INTERESTS_TABLE, DISCOVERY_TABLE, s);
  }

  /** Both chains undo every escaper on every string, because `&amp;` is replaced last. */
  lemma ChainsUndoEscape(e: Escaper, s: string)
    ensures InterestsUnescape(e.Escape(s)) == s
    ensures DiscoveryUnescape(e.Escape(s)) == s
  {
    ChainsAgree(e.Escape(s));
    InterestsTableIsWellOrdered();
    TableUndoesEscape(e, s);
  }

  lemma EscapesAreListed(e: Escaper, c: char)
    requires c == '&' || e.Char(c) != [c]
    ensures (e.Char(c), c) in INTERESTS_TABLE
  {
  }

  lemma {:induction false} TableUndoesEscape(e: Escaper, s: string)
    requires WellOrdered(INTERESTS_TABLE)
    ensures DecodeWith(INTERESTS_TABLE, e.Escape(s)) == s
  {
    if s != "" {
      TableUndoesEscape(e, s[1..]);
      var c, rest := s[0], e.Escape(s[1..]);
      if e.Char(c) == [c] && c != '&' {
        DecodeWithCopies(INTERESTS_TABLE, [c], rest);
      } else {
        var entity := e.Char(c);
        EscapesAreListed(e, c);
        LookupIsUnique(INTERESTS_TABLE, (entity, c), entity + rest);
        assert (entity + rest)[|entity|..] == rest;
      }
    }
  }
}
