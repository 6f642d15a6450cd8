/** `parse_attrs` in `src/html.rs`: the pairs in the inside of a tag. */
module Attributes {
  import opened Text
  import opened Entities

  predicate NonSpace(c: char) { !IsWhitespace(c) }
  predicate SpaceOrSlash(c: char) { IsWhitespace(c) || c == '/' }
  predicate KeyChar(c: char) { !IsWhitespace(c) && c != '=' && c != '/' }
  predicate BareChar(c: char) { !IsWhitespace(c) && c != '>' }

  /** The raw value behind a key, and what is left. `s` starts after the key and
      the whitespace behind it; a missing `=` means an empty value, and a missing
      closing quote ends the value at the end of the tag. */
  function RawValue(s: string): (r: (string, string))
    ensures |r.1| <= |s|
  {
    if s == "" || s[0] != '=' then ("", s)
    else
      var t := Drop(s[1..], IsWhitespace);
      if t != "" && (t[0] == '"' || t[0] == '\'') then
        var rest := Drop(t[1..], Other(t[0]));
        (Head(t[1..], Other(t[0])), if rest == "" then "" else rest[1..])
      else (Head(t, BareChar), Drop(t, BareChar))
  }

  function AttrsFrom(s: string): seq<Attr>
    decreases |s|
  {
    var t := Drop(s, SpaceOrSlash);
    var key := Head(t, KeyChar);
    if key == "" then []
    else
      var (value, rest) := RawValue(Drop(Drop(t, KeyChar), IsWhitespace));
      [(LowerAll(key), DecodeEntities(value))] + AttrsFrom(rest)
  }

  /** The pairs of a whole tag body: the element name is skipped first. */
  function ParsedAttrs(inner: string): seq<Attr> { AttrsFrom(Drop(inner, NonSpace)) }

  /** The cursor form. It ends on every input and never reads past the end, also
      when a quote is not closed and the cursor steps one past the last character. */
  method ParseAttrs(inner: string) returns (attrs: seq<Attr>)
    ensures attrs == ParsedAttrs(inner)
  {
    attrs := [];
    assert inner[0..] == inner;
    var i := SkipWhile(inner, 0, NonSpace);
    while i < |inner|
      invariant i <= |inner|
      invariant attrs + AttrsFrom(inner[i..]) == ParsedAttrs(inner)
      decreases |inner| - i
    {
      ghost var before := inner[i..];
      var start := SkipWhile(inner, i, SpaceOrSlash);
      var end := SkipWhile(inner, start, KeyChar);
      if end == start {
        assert AttrsFrom(before) == [];
        return attrs;
      }
      var key := LowerAll(inner[start..end]);
      var next := SkipWhile(inner, end, IsWhitespace);
      var value, after := ReadValue(inner, next);
      var decoded := Decode(value);
      assert AttrsFrom(before) == [(key, decoded)] + AttrsFrom(inner[after..]);
      Regroup(attrs, (key, decoded), AttrsFrom(inner[after..]));
      attrs := attrs + [(key, decoded)];
      i := after;
    }
    assert inner[i..] == "" && AttrsFrom("") == [];
  }

  lemma Regroup(a: seq<Attr>, x: Attr, b: seq<Attr>)
    ensures a + ([x] + b) == (a + [x]) + b
  {
  }

  method ReadValue(inner: string, from: nat) returns (value: string, after: nat)
    requires from <= |inner|
    ensures from <= after <= |inner| && (value, inner[after..]) == RawValue(inner[from..])
  {
    if from == |inner| || inner[from] != '=' {
      return "", from;
    }
    assert inner[from..][1..] == inner[from + 1..];
    var i := SkipWhile(inner, from + 1, IsWhitespace);
    if i < |inner| && (inner[i] == '"' || inner[i] == '\'') {
      assert inner[i..][1..] == inner[i + 1..];
      var end := SkipWhile(inner, i + 1, Other(inner[i]));
      value := inner[i + 1..end];
      after := if end == |inner| then end else end + 1;
      assert end < |inner| ==> inner[end..][1..] == inner[end + 1..];
    } else {
      after := SkipWhile(inner, i, BareChar);
      value := inner[i..after];
    }
  }
}
