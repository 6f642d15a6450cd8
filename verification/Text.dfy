/** Text as the Rust source sees it: a `string` is a sequence of Unicode scalar
    values, and the standard-library operations the scanners lean on
    (`find`, `replace`, `trim_*`, `split_whitespace`) are written out here. */
module Text {

  datatype Option<+T> = None | Some(value: T)

  function Shift(at: Option<nat>, k: nat): Option<nat> {
    match at case None => None case Some(i) => Some(i + k)
  }

  /** `char::is_whitespace`: the Unicode White_Space property. */
  predicate IsWhitespace(c: char) {
    || '\t' <= c <= '\r' || c == ' ' || c == '\U{0085}' || c == '\U{00A0}'
    || c == '\U{1680}' || '\U{2000}' <= c <= '\U{200A}' || c == '\U{2028}'
    || c == '\U{2029}' || c == '\U{202F}' || c == '\U{205F}' || c == '\U{3000}'
  }

  /** `u8::is_ascii_whitespace` (which leaves out the vertical tab). */
  predicate IsAsciiWhitespace(c: char) {
    c == ' ' || c == '\t' || c == '\n' || c == '\U{000C}' || c == '\r'
  }

  predicate IsDigit(c: char) { '0' <= c <= '9' }

  /** `char::to_ascii_lowercase`. */
  function Lower(c: char): char {
    if 'A' <= c <= 'Z' then (c as int + 32) as char else c
  }

  function LowerAll(s: string): (r: string)
    ensures |r| == |s|
    ensures forall i :: 0 <= i < |s| ==> r[i] == Lower(s[i])
  {
    seq(|s|, i requires 0 <= i < |s| => Lower(s[i]))
  }

  /** Bytes `c` takes in UTF-8. */
  function Utf8Len(c: char): (n: nat)
    ensures 1 <= n <= 4
  {
    if c as int < 0x80 then 1 else if c as int < 0x800 then 2 else if c as int < 0x1_0000 then 3 else 4
  }

  function ByteLen(s: string): (n: nat)
    ensures |s| <= n
  {
    if s == "" then 0 else Utf8Len(s[0]) + ByteLen(s[1..])
  }

  /** `str::find`: the first position at which `needle` occurs. */
  function Find(s: string, needle: string): (r: Option<nat>)
    requires needle != ""
    ensures r.Some? ==> r.value + |needle| <= |s|
  {
    if |s| < |needle| then None
    else if needle <= s then Some(0)
    else Shift(Find(s[1..], needle), 1)
  }

  /** `str::replace`: every non-overlapping occurrence, left to right. */
  function Replace(s: string, from: string, to: string): string
    requires from != ""
    decreases |s|
  {
    if s == "" then ""
    else if from <= s then to + Replace(s[|from|..], from, to)
    else [s[0]] + Replace(s[1..], from, to)
  }

  /** Length of the longest prefix whose characters all satisfy `p`. */
  function Span(s: string, p: char -> bool): (n: nat)
    ensures n <= |s|
    ensures forall i :: 0 <= i < n ==> p(s[i])
    ensures n < |s| ==> !p(s[n])
  {
    if s == "" || !p(s[0]) then 0 else 1 + Span(s[1..], p)
  }

  /** The cursor loop behind every `while i < len && p(chars[i])`. */
  method SkipWhile(s: string, start: nat, p: char -> bool) returns (i: nat)
    requires start <= |s|
    ensures start <= i <= |s|
    ensures s[start..i] == Head(s[start..], p) && s[i..] == Drop(s[start..], p)
  {
    i := start;
    while i < |s| && p(s[i])
      invariant start <= i <= |s|
      invariant s[start..i] + Head(s[i..], p) == Head(s[start..], p)
      invariant Drop(s[i..], p) == Drop(s[start..], p)
    {
      SkipStep(s, start, i, p);
      i := i + 1;
    }
  }

  lemma SkipStep(s: string, start: nat, i: nat, p: char -> bool)
    requires start <= i < |s| && p(s[i])
    ensures s[start..i] + Head(s[i..], p) == s[start..i + 1] + Head(s[i + 1..], p)
    ensures Drop(s[i..], p) == Drop(s[i + 1..], p)
  {
    assert s[i..][1..] == s[i + 1..];
    assert s[start..i] + [s[i]] == s[start..i + 1];
    assert s[start..i] + ([s[i]] + Head(s[i + 1..], p)) == (s[start..i] + [s[i]]) + Head(s[i + 1..], p);
  }

  /** `find(c)` from a cursor: the next `c`, or the end. */
  method NextChar(s: string, start: nat, c: char) returns (i: nat)
    requires start <= |s|
    ensures start <= i <= |s| && c !in s[start..i] && (i < |s| ==> s[i] == c)
    ensures s[start..] == s[start..i] + s[i..] && (c in s[start..] ==> i < |s|)
  {
    i := start;
    while i < |s| && s[i] != c
      invariant start <= i <= |s| && c !in s[start..i]
    {
      i := i + 1;
    }
  }

  /** Named so that two uses of the same test are the same function value. */
  function Other(c: char): char -> bool { d => d != c }

  /** The longest prefix whose characters all satisfy `p`. */
  function Head(s: string, p: char -> bool): string {
    if s == "" || !p(s[0]) then "" else [s[0]] + Head(s[1..], p)
  }

  /** What is left after that prefix. */
  function Drop(s: string, p: char -> bool): (r: string)
    ensures |Head(s, p)| + |r| == |s|
  {
    if s == "" || !p(s[0]) then s else Drop(s[1..], p)
  }

  function StripStart(s: string, c: char): (r: string)
    ensures r == "" || r[0] != c
  {
    if s != "" && s[0] == c then StripStart(s[1..], c) else s
  }

  function StripEnd(s: string, c: char): (r: string)
    ensures r <= s
    ensures r == "" || r[|r| - 1] != c
    ensures forall i :: |r| <= i < |s| ==> s[i] == c
  {
    if s != "" && s[|s| - 1] == c then StripEnd(s[..|s| - 1], c) else s
  }

  predicate EndsWith(s: string, suffix: string) {
    |suffix| <= |s| && s[|s| - |suffix|..] == suffix
  }

  /** The order of strings. */
  predicate StringBefore(a: string, b: string) {
    b != "" && (a == "" || a[0] < b[0] || (a[0] == b[0] && StringBefore(a[1..], b[1..])))
  }

  lemma {:induction false} BeforeIsStrictOrder(a: string, b: string, c: string)
    ensures !StringBefore(a, a)
    ensures StringBefore(a, b) && StringBefore(b, c) ==> StringBefore(a, c)
    ensures StringBefore(a, b) || StringBefore(b, a) || a == b
    decreases |a|
  {
    if a != "" {
      BeforeIsStrictOrder(a[1..], if b == "" then "" else b[1..], if c == "" then "" else c[1..]);
      assert a == [a[0]] + a[1..];
      assert b != "" ==> b == [b[0]] + b[1..];
    }
  }

  /** Behind the same start the order is that of what follows. */
  lemma {:induction false} SameStart(p: string, a: string, b: string)
    ensures StringBefore(p + a, p + b) <==> StringBefore(a, b)
  {
    if p == "" {
      assert p + a == a && p + b == b;
    } else {
      assert (p + a)[1..] == p[1..] + a && (p + b)[1..] == p[1..] + b;
      SameStart(p[1..], a, b);
    }
  }

  /** Behind different starts of one length it is that of the starts. */
  lemma {:induction false} OtherStart(p: string, a: string, q: string, b: string)
    requires |p| == |q| && p != q
    ensures StringBefore(p + a, q + b) <==> StringBefore(p, q)
  {
    if p[0] == q[0] {
      assert p == [p[0]] + p[1..] && q == [q[0]] + q[1..];
      assert (p + a)[1..] == p[1..] + a && (q + b)[1..] == q[1..] + b;
      OtherStart(p[1..], a, q[1..], b);
    }
  }

  /** The first characters that make up `n` bytes, if they end at a character. */
  function BytePrefix(s: string, n: nat): (r: Option<string>)
    ensures r.Some? ==> r.value <= s
  {
    if n == 0 then Some("")
    else if s == "" || Utf8Len(s[0]) > n then None
    else match BytePrefix(s[1..], n - Utf8Len(s[0])) case Some(t) => Some([s[0]] + t) case None => None
  }

  function TrimStart(s: string): (r: string)
    ensures r == "" || !IsWhitespace(r[0])
  {
    if s != "" && IsWhitespace(s[0]) then TrimStart(s[1..]) else s
  }

  function TrimEnd(s: string): (r: string)
    ensures r <= s
    ensures r == "" || !IsWhitespace(r[|r| - 1])
    ensures forall i :: |r| <= i < |s| ==> IsWhitespace(s[i])
  {
    if s != "" && IsWhitespace(s[|s| - 1]) then TrimEnd(s[..|s| - 1]) else s
  }

  function Trim(s: string): string { TrimEnd(TrimStart(s)) }

  lemma {:induction false} SpanExact(a: string, b: string, p: char -> bool)
    requires forall i :: 0 <= i < |a| ==> p(a[i])
    requires b == "" || !p(b[0])
    ensures Span(a + b, p) == |a|
  {
    if a == "" {
      assert a + b == b;
    } else {
      assert (a + b)[1..] == a[1..] + b;
      SpanExact(a[1..], b, p);
    }
  }

  lemma Cut(s: string, i: nat, j: nat)
    requires i <= j <= |s|
    ensures s[i..] == s[i..j] + s[j..] && s[i..][..j - i] == s[i..j] && s[i..][j - i..] == s[j..]
  {
  }

  lemma {:induction false} HeadDropExact(a: string, b: string, p: char -> bool)
    requires forall i :: 0 <= i < |a| ==> p(a[i])
    requires b == "" || !p(b[0])
    ensures Head(a + b, p) == a && Drop(a + b, p) == b
  {
    if a == "" {
      assert a + b == b;
    } else {
      assert (a + b)[1..] == a[1..] + b;
      HeadDropExact(a[1..], b, p);
    }
  }

  lemma {:induction false} FindHit(s: string, needle: string)
    requires needle != "" && Find(s, needle).Some?
    ensures needle <= s[Find(s, needle).value..]
  {
    if !(needle <= s) {
      FindHit(s[1..], needle);
      assert s[Find(s, needle).value..] == s[1..][Find(s[1..], needle).value..];
    }
  }

  /** A needle is found right after text that its first character does not occur in. */
  lemma {:induction false} FindAfter(a: string, needle: string, b: string)
    requires needle != "" && needle[0] !in a
    ensures Find(a + needle + b, needle) == Some(|a|)
  {
    var s := a + needle + b;
    if a == "" {
      assert s == needle + b;
    } else {
      assert s[1..] == a[1..] + needle + b;
      FindAfter(a[1..], needle, b);
      assert s[0] == a[0] != needle[0];
    }
  }

  lemma {:induction false} FindNone(s: string, needle: string)
    requires needle != "" && needle[0] !in s
    ensures Find(s, needle) == None
  {
    if s != "" { FindNone(s[1..], needle); }
  }

  /** `find` depends only on the text up to the end of the hit. */
  lemma {:induction false} FindPrefix(a: string, b: string, c: string, needle: string)
    requires needle != "" && Find(a + b, needle).Some?
    requires Find(a + b, needle).value + |needle| <= |a|
    ensures Find(a + c, needle) == Find(a + b, needle)
  {
    assert (a + b)[..|needle|] == a[..|needle|] == (a + c)[..|needle|];
    if !(needle <= a) {
      assert (a + b)[1..] == a[1..] + b && (a + c)[1..] == a[1..] + c;
      FindPrefix(a[1..], b, c, needle);
    }
  }

  lemma {:induction false} ByteLenConcat(a: string, b: string)
    ensures ByteLen(a + b) == ByteLen(a) + ByteLen(b)
  {
    if a == "" {
      assert a + b == b;
    } else {
      assert (a + b)[1..] == a[1..] + b;
      ByteLenConcat(a[1..], b);
    }
  }

  lemma {:induction false} ReplaceNothing(s: string, from: string, to: string)
    requires from != "" && from[0] !in s
    ensures Replace(s, from, to) == s
  {
    if s != "" { ReplaceNothing(s[1..], from, to); }
  }

  /** No occurrence spans a cut next to a foreign character. */
  lemma NoSpan(a: string, b: string, from: string)
    requires from != "" && a != ""
    requires a[|a| - 1] !in from || (b == "" || b[0] !in from)
    ensures from <= a + b <==> from <= a
  {
    var s, n := a + b, |a|;
    if |from| <= n {
      assert s[..|from|] == a[..|from|];
    } else {
      assert s[n - 1] == a[n - 1] && (b != "" ==> s[n] == b[0]);
      assert from[n - 1] in from && from[n] in from;
    }
  }

  lemma ThreeParts(a: string, b: string, c: string)
    ensures a + (b + c) == (a + b) + c
  {
  }

  /** A cut next to a character foreign to `from` can be made before or after replacing. */
  lemma {:induction false} ReplaceSplit(a: string, b: string, from: string, to: string)
    requires from != ""
    requires (a == "" || a[|a| - 1] !in from) || (b == "" || b[0] !in from)
    ensures Replace(a + b, from, to) == Replace(a, from, to) + Replace(b, from, to)
    decreases |a|
  {
    if a == "" {
      assert a + b == b;
    } else {
      NoSpan(a, b, from);
      var n := if from <= a then |from| else 1;
      ReplaceSplit(a[n..], b, from, to);
      assert (a + b)[n..] == a[n..] + b && (a + b)[0] == a[0];
      ThreeParts(if from <= a then to else [a[0]], Replace(a[n..], from, to), Replace(b, from, to));
    }
  }

  /** A string in which `from` does not occur is left alone. */
  lemma {:induction false} ReplaceAbsent(s: string, from: string, to: string)
    requires from != "" && Find(s, from) == None
    ensures Replace(s, from, to) == s
  {
    if s != "" { ReplaceAbsent(s[1..], from, to); }
  }

  // -------------------------------------------------------------------------
  // Splitting at the first hit
  // -------------------------------------------------------------------------

  /** `split_once`: what stands before the first hit and behind it. */
  function SplitOnce(s: string, needle: string): (r: Option<(string, string)>)
    requires needle != ""
    ensures r.Some? ==> |r.value.0| + |needle| + |r.value.1| == |s|
  {
    if |s| < |needle| then None
    else if needle <= s then Some(("", s[|needle|..]))
    else match SplitOnce(s[1..], needle)
      case None => None
      case Some((before, after)) => Some(([s[0]] + before, after))
  }

  lemma {:induction false} SplitAtFind(s: string, needle: string)
    requires needle != ""
    ensures SplitOnce(s, needle)
         == match Find(s, needle) case None => None case Some(i) => Some((s[..i], s[i + |needle|..]))
  {
    assert s[..0] == "";
    if |needle| <= |s| && !(needle <= s) {
      SplitAtFind(s[1..], needle);
      var at := Find(s[1..], needle);
      if at.Some? {
        assert [s[0]] + s[1..][..at.value] == s[..at.value + 1];
        assert s[1..][at.value + |needle|..] == s[at.value + 1 + |needle|..];
      }
    }
  }

  lemma {:induction false} SplitAfter(a: string, needle: string, b: string)
    requires needle != "" && needle[0] !in a
    ensures SplitOnce(a + (needle + b), needle) == Some((a, b))
  {
    var s := a + (needle + b);
    if a == "" {
      assert s == needle + b && s[|needle|..] == b;
    } else {
      assert s[0] == a[0] && a[0] in a && s[1..] == a[1..] + (needle + b);
      SplitAfter(a[1..], needle, b);
      assert [a[0]] + a[1..] == a;
    }
  }

  lemma {:induction false} SplitNone(s: string, needle: string)
    requires needle != "" && needle[0] !in s
    ensures SplitOnce(s, needle) == None
  {
    if s != "" {
      assert s[0] in s;
      SplitNone(s[1..], needle);
    }
  }
}
