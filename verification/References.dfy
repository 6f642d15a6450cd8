/** Numeric character references, as the two cursor decoders of the crate read them. */
module References {
  import opened Text
  import opened Entities

  // -------------------------------------------------------------------------
  // Printed numbers
  // -------------------------------------------------------------------------

  function Figure(d: nat, upper: bool): (c: char)
    requires d < 16
    ensures Digit(c) == Some(d) && c as int < 0x80 && c != ';' && c != '+' && c != 'x' && c != 'X'
  {
    if d < 10 then ('0' as int + d) as char else ((if upper then 'A' else 'a') as int + d - 10) as char
  }

  function Printed(n: nat, radix: nat, upper: bool): (s: string)
    requires 2 <= radix <= 16
    ensures s != "" && forall i :: 0 <= i < |s| ==> exists d: nat :: d < radix && s[i] == Figure(d, upper)
  {
    if n < radix then [Figure(n, upper)]
    else
      QuotientIsSmaller(n, radix);
      Printed(n / radix, radix, upper) + [Figure(n % radix, upper)]
  }

  lemma QuotientIsSmaller(n: nat, radix: nat)
    requires 2 <= radix <= n
    ensures 0 < n / radix < n
  {
    assert n / radix * radix <= n;
  }

  lemma {:induction false} DigitsConcat(a: string, b: string, radix: nat, acc: nat)
    requires Digits(a, radix, acc).Some?
    ensures Digits(a + b, radix, acc) == Digits(b, radix, Digits(a, radix, acc).value)
  {
    if a == "" {
      assert a + b == b;
    } else {
      assert (a + b)[1..] == a[1..] + b && (a + b)[0] == a[0];
      DigitsConcat(a[1..], b, radix, acc * radix + Digit(a[0]).value);
    }
  }

  /** A printed number reads back. */
  lemma {:induction false} PrintedReadsBack(n: nat, radix: nat, upper: bool)
    requires 2 <= radix <= 16
    ensures Digits(Printed(n, radix, upper), radix, 0) == Some(n)
  {
    if n < radix {
      OneMoreFigure("", 0, n, radix, upper);
      assert "" + [Figure(n, upper)] == [Figure(n, upper)];
    } else {
      QuotientIsSmaller(n, radix);
      PrintedReadsBack(n / radix, radix, upper);
      OneMoreFigure(Printed(n / radix, radix, upper), n / radix, n % radix, radix, upper);
      DivMod(n, radix);
    }
  }

  lemma DivMod(n: nat, radix: nat)
    requires radix > 0
    ensures n / radix * radix + n % radix == n
  {
  }

  lemma OneMoreFigure(s: string, q: nat, d: nat, radix: nat, upper: bool)
    requires d < radix <= 16 && Digits(s, radix, 0) == Some(q)
    ensures Digits(s + [Figure(d, upper)], radix, 0) == Some(q * radix + d)
  {
    var last := [Figure(d, upper)];
    DigitsConcat(s, last, radix, 0);
    assert last[1..] == "" && Digits("", radix, q * radix + d) == Some(q * radix + d);
  }

  predicate Zeros(s: string) { forall i :: 0 <= i < |s| ==> s[i] == '0' }

  lemma {:induction false} ZerosAreNothing(zeros: string, radix: nat)
    requires Zeros(zeros) && radix > 0
    ensures Digits(zeros, radix, 0) == Some(0)
  {
    if zeros != "" { ZerosAreNothing(zeros[1..], radix); }
  }

  // -------------------------------------------------------------------------
  // References
  // -------------------------------------------------------------------------

  /** How a reference spells its number. */
  datatype Notation = Decimal | Hexadecimal(mark: char, upper: bool) {
    predicate Valid() { Hexadecimal? ==> mark == 'x' || mark == 'X' }

    function Figures(n: nat): string { if Decimal? then Printed(n, 10, false) else Printed(n, 16, upper) }

    /** The reference without its `&` and `;`, maybe with leading zeros. */
    function Spelled(n: nat, zeros: string): string {
      (if Decimal? then "#" else "#" + [mark]) + (zeros + Figures(n))
    }
  }

  /** A code point that is a character: no surrogate, and not past the last plane. */
  predicate Scalar(n: nat) { n < 0xD800 || 0xE000 <= n < 0x11_0000 }

  lemma SpelledIsPlain(how: Notation, n: nat, zeros: string)
    requires how.Valid() && Zeros(zeros)
    ensures var s := how.Spelled(n, zeros); s[0] == '#' && ';' !in s && forall i :: 0 <= i < |s| ==> s[i] as int < 0x80
  {
  }

  lemma SpelledNumber(how: Notation, n: nat, zeros: string)
    requires how.Valid() && Zeros(zeros)
    ensures Number(zeros + how.Figures(n), if how.Decimal? then 10 else 16) == Some(n)
  {
    var radix := if how.Decimal? then 10 else 16;
    var s := zeros + how.Figures(n);
    ZerosAreNothing(zeros, radix);
    DigitsConcat(zeros, how.Figures(n), radix, 0);
    PrintedReadsBack(n, radix, how.Hexadecimal? && how.upper);
    assert s[0] == if zeros == "" then how.Figures(n)[0] else '0';
  }

  lemma SpelledChar(how: Notation, n: nat, zeros: string)
    requires how.Valid() && Zeros(zeros)
    ensures NumericChar(how.Spelled(n, zeros)) == if Scalar(n) then Some(n as char) else None
  {
    var s, digits := how.Spelled(n, zeros), zeros + how.Figures(n);
    SpelledNumber(how, n, zeros);
    if how.Decimal? {
      assert s[1..] == digits && s[1] == if zeros == "" then how.Figures(n)[0] else '0';
    } else {
      assert s[2..] == digits && s[1] == how.mark;
    }
  }

  /** In `bookorbit::xml_unescape` a reference to a character stands for that character,
      in decimal or hexadecimal notation, with leading zeros or without; one to anything
      else is copied. */
  lemma ReferenceUnescapes(how: Notation, n: nat, zeros: string, rest: string)
    requires how.Valid() && Zeros(zeros)
    ensures var s := how.Spelled(n, zeros);
            && XmlUnescape("&" + s + ";" + rest)
               == (if Scalar(n) then [n as char] else "&" + s + ";") + XmlUnescape(rest)
  {
    var s := how.Spelled(n, zeros);
    SpelledIsPlain(how, n, zeros);
    SpelledChar(how, n, zeros);
    NamesAreLetters(s);
    XmlReference(s, rest);
  }

  /** In `html::decode_entities` as well, as long as the reference ends within twelve bytes;
      a longer one is left as it is. */
  lemma ReferenceDecodes(how: Notation, n: nat, zeros: string, rest: string)
    requires how.Valid() && Zeros(zeros)
    ensures var s := how.Spelled(n, zeros);
            && DecodeEntities("&" + s + ";" + rest)
               == if Scalar(n) && |s| <= 10 then [n as char] + DecodeEntities(rest)
                  else "&" + DecodeEntities(s + ";" + rest)
  {
    var s := how.Spelled(n, zeros);
    SpelledIsPlain(how, n, zeros);
    SpelledChar(how, n, zeros);
    NamesAreLetters(s);
    if |s| > 10 {
      LongIsCopied(s, rest);
    } else if Scalar(n) {
      HtmlEntityDecodes(s, n as char, rest);
    } else {
      UnknownIsCopied(s, rest);
    }
  }

  /** The named entities, `nbsp` in `html::decode_entities` only. */
  lemma NamesDecode(name: string, c: char, rest: string)
    requires (name, c) in [("amp", '&'), ("lt", '<'), ("gt", '>'), ("quot", '"'), ("apos", '\''), ("nbsp", '\U{00A0}')]
    ensures DecodeEntities("&" + name + ";" + rest) == [c] + DecodeEntities(rest)
    ensures XmlUnescape("&" + name + ";" + rest)
         == (if c == '\U{00A0}' then "&" + name + ";" else [c]) + XmlUnescape(rest)
  {
    NameIsKnown(name, c);
    HtmlEntityDecodes(name, c, rest);
    XmlReference(name, rest);
  }

  lemma NameIsKnown(name: string, c: char)
    requires (name, c) in [("amp", '&'), ("lt", '<'), ("gt", '>'), ("quot", '"'), ("apos", '\''), ("nbsp", '\U{00A0}')]
    ensures ';' !in name && |name| <= 10 && forall i :: 0 <= i < |name| ==> name[i] as int < 0x80
    ensures HtmlEntity(name) == Some(c) && XmlEntity(name) == if c == '\U{00A0}' then None else Some(c)
  {
  }

  /** No named entity starts with a `#`. */
  lemma NamesAreLetters(s: string)
    requires s != "" && s[0] == '#'
    ensures HtmlEntity(s) == NumericChar(s) == XmlEntity(s)
  {
  }

  lemma XmlReference(s: string, rest: string)
    requires ';' !in s
    ensures XmlUnescape("&" + s + ";" + rest)
         == (match XmlEntity(s) case Some(c) => [c] case None => "&" + s + ";") + XmlUnescape(rest)
  {
    var all, tail := "&" + s + ";" + rest, s + ";" + rest;
    assert all[1..] == tail;
    FindAfter(s, ";", rest);
    assert all[1..|s| + 1] == tail[..|s|] == s;
    assert all[..|s| + 2] == "&" + s + ";";
    assert all[|s| + 2..] == tail[|s| + 1..] == rest;
  }

  /** An unknown entity is no entity: the `&` is copied, and the scan goes on behind it. */
  lemma UnknownIsCopied(s: string, rest: string)
    requires ';' !in s && |s| <= 10 && HtmlEntity(s) == None
    requires forall i :: 0 <= i < |s| ==> s[i] as int < 0x80
    ensures DecodeEntities("&" + s + ";" + rest) == "&" + DecodeEntities(s + ";" + rest)
  {
    var all := "&" + s + ";" + rest;
    assert all == ("&" + s) + ";" + rest;
    AsciiByteLen("&" + s);
    SemicolonAfter("&" + s, rest, 12);
    assert all[1..|s| + 1] == s;
    assert all[1..] == s + ";" + rest;
    StepOverAmpersand(all);
  }

  lemma StepOverAmpersand(all: string)
    requires all != "" && all[0] == '&' && HtmlStep(all) == ('&', 1)
    ensures DecodeEntities(all) == "&" + DecodeEntities(all[1..])
  {
  }

  lemma {:induction false} NoSemicolonYet(s: string, rest: string, budget: nat)
    requires ';' !in s && budget <= |s| && forall i :: 0 <= i < |s| ==> s[i] as int < 0x80
    ensures SemicolonWithin(s + rest, budget) == None
  {
    if budget > 0 {
      assert (s + rest)[0] == s[0] && (s + rest)[1..] == s[1..] + rest;
      if budget > 1 { NoSemicolonYet(s[1..], rest, budget - 1); }
    }
  }

  lemma LongIsCopied(s: string, rest: string)
    requires ';' !in s && |s| > 10 && forall i :: 0 <= i < |s| ==> s[i] as int < 0x80
    ensures DecodeEntities("&" + s + ";" + rest) == "&" + DecodeEntities(s + ";" + rest)
  {
    var all := "&" + s + ";" + rest;
    assert all == ("&" + s) + (";" + rest);
    NoSemicolonYet("&" + s, ";" + rest, 12);
    assert all[1..] == s + ";" + rest;
    StepOverAmpersand(all);
  }
}
