/** How `parse_attrs` in `src/html.rs` reads attributes as people write them: with either
    quote, without quotes or without a value, in any case and with any blanks between. */
module TagAttributes {
  import opened Text
  import opened Entities
  import opened Attributes

  datatype Form = Quoted(mark: char) | Bare | Flag

  /** An attribute as written: what stands in front of the key, the key, its form, the
      blanks around the `=`, and the text of the value. */
  datatype Written = Written(gap: string, key: string, form: Form, before: string, after: string, value: string) {
    predicate Good() {
      && gap != "" && (forall i :: 0 <= i < |gap| ==> IsWhitespace(gap[i]) || gap[i] == '/')
      && key != "" && (forall i :: 0 <= i < |key| ==> !IsWhitespace(key[i]) && key[i] != '=' && key[i] != '/')
      && (forall i :: 0 <= i < |before| ==> IsWhitespace(before[i]))
      && (forall i :: 0 <= i < |after| ==> IsWhitespace(after[i]))
      && match form
         case Quoted(mark) => (mark == '"' || mark == '\'') && mark !in value
         case Bare =>
           value != "" && value[0] !in "\"'"
           && forall i :: 0 <= i < |value| ==> !IsWhitespace(value[i]) && value[i] != '>'
         case Flag => value == ""
    }

    /** What stands behind the key, up to and with `rest`. */
    function Behind(rest: string): string {
      match form
      case Quoted(mark) => before + ("=" + (after + ([mark] + (value + ([mark] + rest)))))
      case Bare => before + ("=" + (after + (value + rest)))
      case Flag => rest
    }
  }

  function Shown(ws: seq<Written>, tail: string): string {
    if ws == [] then tail else ws[0].gap + (ws[0].key + ws[0].Behind(Shown(ws[1..], tail)))
  }

  /** A value without quotes ends at the next blank or `>`; behind a key without a value
      stands a blank or a slash, or the end, and then no `=`. */
  predicate Follows(w: Written, rest: string) {
    match w.form
    case Quoted(_) => true
    case Bare => rest == "" || IsWhitespace(rest[0]) || rest[0] == '>'
    case Flag =>
      && (rest == "" || IsWhitespace(rest[0]) || rest[0] == '/')
      && (Drop(rest, IsWhitespace) == "" || Drop(rest, IsWhitespace)[0] != '=')
  }

  predicate GoodAll(ws: seq<Written>, tail: string) {
    ws == [] || (ws[0].Good() && GoodAll(ws[1..], tail) && Follows(ws[0], Shown(ws[1..], tail)))
  }

  /** The pairs that are meant. */
  function Meant(ws: seq<Written>): seq<Attr> {
    if ws == [] then [] else [(LowerAll(ws[0].key), DecodeEntities(ws[0].value))] + Meant(ws[1..])
  }

  lemma QuotedValue(mark: char, value: string, rest: string)
    requires (mark == '"' || mark == '\'') && mark !in value
    ensures var t := [mark] + (value + ([mark] + rest));
            && t[0] == mark && Head(t[1..], Other(mark)) == value && Drop(t[1..], Other(mark)) == [mark] + rest
  {
    var t := [mark] + (value + ([mark] + rest));
    assert t[1..] == value + ([mark] + rest);
    HeadDropExact(value, [mark] + rest, Other(mark));
  }

  /** The value behind an `=`. */
  lemma ValueIsRead(w: Written, rest: string)
    requires w.Good() && !w.form.Flag? && Follows(w, rest)
    ensures RawValue(Drop(w.Behind(rest), IsWhitespace)) == (w.value, rest)
  {
    var mark := if w.form.Quoted? then w.form.mark else ' ';
    var text := if w.form.Quoted? then [mark] + (w.value + ([mark] + rest)) else w.value + rest;
    var s := "=" + (w.after + text);
    if w.form.Quoted? { QuotedValue(mark, w.value, rest); } else { HeadDropExact(w.value, rest, BareChar); }
    assert text[0] == if w.form.Quoted? then mark else w.value[0];
    assert !IsWhitespace(text[0]) && !IsWhitespace(s[0]);
    HeadDropExact(w.before, s, IsWhitespace);
    HeadDropExact(w.after, text, IsWhitespace);
    assert s[1..] == w.after + text;
    assert ([mark] + rest)[1..] == rest;
  }

  lemma {:induction false} DropBlanks(s: string)
    ensures Drop(Drop(s, IsWhitespace), SpaceOrSlash) == Drop(s, SpaceOrSlash)
  {
    if s != "" && IsWhitespace(s[0]) { DropBlanks(s[1..]); }
  }

  /** One attribute is read, and the search goes on behind it. */
  lemma AttrIsRead(w: Written, rest: string)
    requires w.Good() && Follows(w, rest)
    ensures AttrsFrom(w.gap + (w.key + w.Behind(rest)))
         == [(LowerAll(w.key), DecodeEntities(w.value))] + AttrsFrom(rest)
  {
    var behind := w.Behind(rest);
    var t := w.key + behind;
    assert t[0] == w.key[0];
    HeadDropExact(w.gap, t, SpaceOrSlash);
    StopsAtValue(w, rest);
    HeadDropExact(w.key, behind, KeyChar);
    if w.form.Flag? { DropBlanks(rest); } else { ValueIsRead(w, rest); }
  }

  lemma StopsAtValue(w: Written, rest: string)
    requires w.Good() && Follows(w, rest)
    ensures w.Behind(rest) == "" || !KeyChar(w.Behind(rest)[0])
  {
    if !w.form.Flag? { assert w.Behind(rest)[0] == if w.before == "" then '=' else w.before[0]; }
  }

  lemma {:induction false} AllAreRead(ws: seq<Written>, tail: string)
    requires GoodAll(ws, tail)
    ensures AttrsFrom(Shown(ws, tail)) == Meant(ws) + AttrsFrom(tail)
  {
    if ws == [] {
      assert [] + AttrsFrom(tail) == AttrsFrom(tail);
    } else {
      AllAreRead(ws[1..], tail);
      AttrIsRead(ws[0], Shown(ws[1..], tail));
      Regroup([], (LowerAll(ws[0].key), DecodeEntities(ws[0].value)), Meant(ws[1..]) + AttrsFrom(tail));
    }
  }

  /** A tag body gives its attributes in order, with their keys in lower case and their
      values decoded, in whatever form each is written, and then what its tail gives. */
  lemma WrittenAttrsAreRead(name: string, ws: seq<Written>, tail: string)
    requires forall i :: 0 <= i < |name| ==> NonSpace(name[i])
    requires GoodAll(ws, tail) && (Shown(ws, tail) == "" || IsWhitespace(Shown(ws, tail)[0]))
    ensures ParsedAttrs(name + Shown(ws, tail)) == Meant(ws) + AttrsFrom(tail)
  {
    HeadDropExact(name, Shown(ws, tail), NonSpace);
    AllAreRead(ws, tail);
  }

  /** Blanks and slashes at the end give nothing. */
  lemma {:induction false} NothingInGap(tail: string)
    requires forall i :: 0 <= i < |tail| ==> IsWhitespace(tail[i]) || tail[i] == '/'
    ensures AttrsFrom(tail) == []
  {
    HeadDropExact(tail, "", SpaceOrSlash);
    assert tail + "" == tail;
  }

  /** A quote that is not closed lends its attribute all that is left. */
  lemma UnclosedQuote(w: Written, mark: char)
    requires w.(form := Quoted(mark)).Good()
    ensures AttrsFrom(w.gap + (w.key + (w.before + ("=" + (w.after + ([mark] + w.value))))))
         == [(LowerAll(w.key), DecodeEntities(w.value))]
  {
    var text := [mark] + w.value;
    var s := "=" + (w.after + text);
    var behind := w.before + s;
    assert text[1..] == w.value && !IsWhitespace(text[0]) && s[1..] == w.after + text;
    HeadDropExact(w.value, "", Other(mark));
    assert w.value + "" == w.value;
    HeadDropExact(w.after, text, IsWhitespace);
    HeadDropExact(w.before, s, IsWhitespace);
    assert behind[0] == if w.before == "" then '=' else w.before[0];
    HeadDropExact(w.key, behind, KeyChar);
    assert (w.key + behind)[0] == w.key[0];
    HeadDropExact(w.gap, w.key + behind, SpaceOrSlash);
    assert AttrsFrom("") == [];
  }

  // -------------------------------------------------------------------------
  // Printing and parsing back
  // -------------------------------------------------------------------------

  /** A key that survives: lower-case, not empty, and without the characters that end one. */
  predicate Key(k: string) {
    k != "" && LowerAll(k) == k && forall i :: 0 <= i < |k| ==> KeyChar(k[i])
  }

  /** Pairs as the printer writes them. */
  function AsWritten(attrs: seq<Attr>): seq<Written> {
    if attrs == [] then []
    else [Written(" ", attrs[0].0, Quoted('"'), "", "", AttrEscaper.Escape(attrs[0].1))] + AsWritten(attrs[1..])
  }

  lemma {:induction false} PrintedIsWritten(attrs: seq<Attr>, tail: string)
    requires forall i :: 0 <= i < |attrs| ==> Key(attrs[i].0)
    requires forall i :: 0 <= i < |tail| ==> SpaceOrSlash(tail[i])
    ensures Shown(AsWritten(attrs), tail) == AttrEscaper.Attrs(attrs) + tail
    ensures GoodAll(AsWritten(attrs), tail) && Meant(AsWritten(attrs)) == attrs
  {
    if attrs == [] {
      assert AttrEscaper.Attrs(attrs) + tail == tail;
    } else {
      PrintedIsWritten(attrs[1..], tail);
      EscapedIsInert(AttrEscaper, attrs[0].1);
      DecodeUndoesEscape(AttrEscaper, attrs[0].1);
      PrintedFirst(attrs, tail);
    }
  }

  lemma PrintedFirst(attrs: seq<Attr>, tail: string)
    requires attrs != []
    ensures AttrEscaper.Attrs(attrs) + tail
         == " " + (attrs[0].0 + AsWritten(attrs)[0].Behind(AttrEscaper.Attrs(attrs[1..]) + tail))
  {
    Regrouped(attrs[0].0, AttrEscaper.Escape(attrs[0].1), AttrEscaper.Attrs(attrs[1..]), tail);
  }

  lemma Regrouped(key: string, value: string, more: string, tail: string)
    ensures (" " + key + "=\"" + value + "\"" + more) + tail
         == " " + (key + ("" + ("=" + ("" + (['"'] + (value + (['"'] + (more + tail))))))))
  {
    var equals, end := "=\"" + value, "\"" + more;
    assert (" " + key + "=\"" + value + "\"" + more) == " " + (key + (equals + end));
    assert (equals + end) + tail == "=" + (['"'] + (value + (['"'] + (more + tail))));
  }

  lemma {:induction false} NothingBehindName(name: string, tail: string)
    requires forall i :: 0 <= i < |name| ==> NonSpace(name[i])
    requires forall i :: 0 <= i < |tail| ==> SpaceOrSlash(tail[i])
    ensures ParsedAttrs(name + tail) == []
  {
    if name != "" {
      assert (name + tail)[1..] == name[1..] + tail;
      NothingBehindName(name[1..], tail);
    } else {
      assert name + tail == tail;
      if tail != "" && NonSpace(tail[0]) {
        NothingBehindName("", tail[1..]);
        assert "" + tail[1..] == tail[1..];
      } else {
        NothingInGap(tail);
      }
    }
  }

  /** A printed tag body parses back to exactly its pairs, in order: every value,
      any element name without whitespace, and also with the slash of a
      self-closed tag behind them. */
  lemma PrintedAttrsParseBack(name: string, attrs: seq<Attr>, tail: string)
    requires forall i :: 0 <= i < |name| ==> NonSpace(name[i])
    requires forall i :: 0 <= i < |attrs| ==> Key(attrs[i].0)
    requires forall i :: 0 <= i < |tail| ==> SpaceOrSlash(tail[i])
    ensures ParsedAttrs(name + (AttrEscaper.Attrs(attrs) + tail)) == attrs
  {
    PrintedIsWritten(attrs, tail);
    NothingInGap(tail);
    if attrs == [] {
      NothingBehindName(name, tail);
    } else {
      WrittenAttrsAreRead(name, AsWritten(attrs), tail);
    }
  }
}
