/** How `attribute_value` in `src/bookorbit.rs` looks up an attribute: quoted either way, with
    blanks anywhere, behind attributes without a value, and where it gives up. */
module AtomAttributes {
  import opened Text
  import opened Bookorbit

  /** An attribute as written; without a mark it has no value. */
  datatype Attribute = Attribute(gap: string, key: string, before: string, after: string, mark: Option<char>,
                                 value: string)
  {
    predicate Good() {
      && (forall i :: 0 <= i < |gap| ==> IsAsciiWhitespace(gap[i]) || gap[i] == '/')
      && key != "" && (forall i :: 0 <= i < |key| ==> !IsAsciiWhitespace(key[i]) && key[i] !in "=/>")
      && (forall i :: 0 <= i < |before| ==> IsAsciiWhitespace(before[i]))
      && (forall i :: 0 <= i < |after| ==> IsAsciiWhitespace(after[i]))
      && match mark
         case Some(m) => (m == '"' || m == '\'') && m !in value
         case None => value == ""
    }

    function Behind(rest: string): string {
      match mark
      case Some(m) => before + ("=" + (after + ([m] + (value + ([m] + rest)))))
      case None => rest
    }
  }

  function Shown(ws: seq<Attribute>, tail: string): string {
    if ws == [] then tail else ws[0].gap + (ws[0].key + ws[0].Behind(Shown(ws[1..], tail)))
  }

  /** What follows a key without a value is a blank or a slash, and then no `=`. */
  predicate NoValue(rest: string) {
    && (rest == "" || AttrSpace(rest[0]))
    && (Drop(rest, IsAsciiWhitespace) == "" || Drop(rest, IsAsciiWhitespace)[0] != '=')
  }

  predicate GoodAll(ws: seq<Attribute>, tail: string) {
    ws == []
    || (ws[0].Good() && GoodAll(ws[1..], tail) && (ws[0].mark.None? ==> NoValue(Shown(ws[1..], tail))))
  }

  /** The value of the first attribute of that name that has one, or what the rest gives. */
  function FirstValue(ws: seq<Attribute>, wanted: string, otherwise: Option<string>): Option<string> {
    if ws == [] then otherwise
    else if ws[0].key == wanted && ws[0].mark.Some? then Some(ws[0].value)
    else FirstValue(ws[1..], wanted, otherwise)
  }

  lemma QuotedIsRead(m: char, after: string, value: string, rest: string)
    requires (m == '"' || m == '\'') && m !in value && forall i :: 0 <= i < |after| ==> IsAsciiWhitespace(after[i])
    ensures QuotedValue(after + ([m] + (value + ([m] + rest)))) == Some((value, rest))
  {
    var t, end := [m] + (value + ([m] + rest)), [m] + rest;
    HeadDropExact(after, t, IsAsciiWhitespace);
    assert t[1..] == value + end && end[1..] == rest;
    HeadDropExact(value, end, Other(m));
  }

  lemma {:induction false} DropBlanks(s: string)
    ensures Drop(Drop(s, IsAsciiWhitespace), AttrSpace) == Drop(s, AttrSpace)
  {
    if s != "" && IsAsciiWhitespace(s[0]) { DropBlanks(s[1..]); }
  }

  /** The turn of the search at an attribute goes by what stands behind its name. */
  lemma NameIsRead(gap: string, key: string, behind: string, wanted: string)
    requires (forall i :: 0 <= i < |gap| ==> AttrSpace(gap[i]))
    requires key != "" && (forall i :: 0 <= i < |key| ==> AttrNameChar(key[i]))
    requires behind == "" || !AttrNameChar(behind[0])
    ensures AttributeTurn(gap + (key + behind), wanted) == BehindName(behind, key, wanted)
  {
    assert (key + behind)[0] == key[0];
    HeadDropExact(gap, key + behind, AttrSpace);
    HeadDropExact(key, behind, AttrNameChar);
  }

  lemma ValueIsRead(w: Attribute, rest: string, wanted: string)
    requires w.Good() && w.mark.Some?
    ensures BehindName(w.Behind(rest), w.key, wanted)
         == if w.key == wanted then Stop(Some(w.value)) else Go(rest)
    ensures !AttrNameChar(w.Behind(rest)[0])
  {
    var m := w.mark.value;
    var s := "=" + (w.after + ([m] + (w.value + ([m] + rest))));
    HeadDropExact(w.before, s, IsAsciiWhitespace);
    QuotedIsRead(m, w.after, w.value, rest);
    assert s[1..] == w.after + ([m] + (w.value + ([m] + rest)));
    assert (w.before + s)[0] == if w.before == "" then '=' else w.before[0];
  }

  lemma AttributeIsRead(w: Attribute, rest: string, wanted: string)
    requires w.Good() && (w.mark.None? ==> NoValue(rest))
    ensures AttributeValue(w.gap + (w.key + w.Behind(rest)), wanted)
         == if w.key == wanted && w.mark.Some? then Some(w.value) else AttributeValue(rest, wanted)
  {
    if w.mark.Some? {
      ValueIsRead(w, rest, wanted);
      NameIsRead(w.gap, w.key, w.Behind(rest), wanted);
    } else {
      NameIsRead(w.gap, w.key, rest, wanted);
      var u := Drop(rest, IsAsciiWhitespace);
      assert BehindName(rest, w.key, wanted) == Go(u);
      BlanksDoNotMatter(rest, wanted);
    }
  }

  lemma BlanksDoNotMatter(s: string, wanted: string)
    ensures AttributeValue(Drop(s, IsAsciiWhitespace), wanted) == AttributeValue(s, wanted)
  {
    var u := Drop(s, IsAsciiWhitespace);
    DropBlanks(s);
    if u == "" {
      assert Drop("", AttrSpace) == "" && Drop(s, AttrSpace) == "";
    }
  }

  /** In a tag body the lookup finds the first attribute of that name with a value. What
      stands behind the attributes is searched next. */
  lemma {:induction false} WrittenAttributes(ws: seq<Attribute>, tail: string, wanted: string)
    requires GoodAll(ws, tail)
    ensures AttributeValue(Shown(ws, tail), wanted) == FirstValue(ws, wanted, AttributeValue(tail, wanted))
  {
    if ws != [] {
      WrittenAttributes(ws[1..], tail, wanted);
      AttributeIsRead(ws[0], Shown(ws[1..], tail), wanted);
    }
  }

  /** The search ends without a result at a value that has no quotes, or no closing one. */
  lemma BadValueEndsTheSearch(gap: string, key: string, before: string, after: string, value: string, wanted: string)
    requires Attribute(gap, key, before, after, None, "").Good()
    requires value == "" || (value[0] != '"' && value[0] != '\'' && !IsAsciiWhitespace(value[0]))
             || ((value[0] == '"' || value[0] == '\'') && value[0] !in value[1..])
    ensures AttributeValue(gap + (key + (before + ("=" + (after + value)))), wanted) == None
  {
    var s := "=" + (after + value);
    NoQuotedValue(after, value);
    HeadDropExact(before, s, IsAsciiWhitespace);
    assert s[1..] == after + value;
    assert (before + s)[0] == if before == "" then '=' else before[0];
    NameIsRead(gap, key, before + s, wanted);
  }

  lemma NoQuotedValue(after: string, value: string)
    requires forall i :: 0 <= i < |after| ==> IsAsciiWhitespace(after[i])
    requires value == "" || (value[0] != '"' && value[0] != '\'' && !IsAsciiWhitespace(value[0]))
             || ((value[0] == '"' || value[0] == '\'') && value[0] !in value[1..])
    ensures QuotedValue(after + value) == None
  {
    HeadDropExact(after, value, IsAsciiWhitespace);
    if value != "" && (value[0] == '"' || value[0] == '\'') {
      HeadDropExact(value[1..], "", Other(value[0]));
      assert value[1..] + "" == value[1..];
    }
  }
}
