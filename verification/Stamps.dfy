/** Timestamps as `fmt_ts` in `src/db.rs` prints them and the database compares them. */
module Stamps {
  import opened Text

  predicate Figures(s: string) { forall i :: 0 <= i < |s| ==> IsDigit(s[i]) }

  /** A moment: its whole second, and the figures of the fraction without trailing zeros. */
  datatype Stamp = Stamp(second: int, fraction: string) {
    predicate Valid() {
      InYears(second) && Figures(fraction) && (fraction == "" || fraction[|fraction| - 1] != '0')
    }
  }

  /** The seconds of the years 0 to 9999, counted from 1970. */
  predicate InYears(second: int) { -62_167_219_200 <= second < 253_402_300_800 }

  /** The text of a whole second, such as `2026-08-15T04:00:00`; its fields are of fixed width. */
  type Clock = int -> string

  ghost predicate Ordered(clock: Clock) {
    forall a, b :: InYears(a) && InYears(b) ==>
      |clock(a)| == |clock(b)| && (StringBefore(clock(a), clock(b)) <==> a < b)
  }

  function Tail(fraction: string): string { if fraction == "" then "Z" else "." + (fraction + "Z") }

  /** `fmt_ts`. */
  function Printed(t: Stamp, clock: Clock): string { clock(t.second) + Tail(t.fraction) }

  /** What a fraction is worth. */
  function Value(fraction: string): (r: real)
    requires Figures(fraction)
    ensures 0.0 <= r < 1.0
  {
    if fraction == "" then 0.0 else ((fraction[0] as int - '0' as int) as real + Value(fraction[1..])) / 10.0
  }

  predicate Earlier(a: Stamp, b: Stamp)
    requires a.Valid() && b.Valid()
  {
    a.second < b.second || (a.second == b.second && Value(a.fraction) < Value(b.fraction))
  }

  lemma {:induction false} Positive(f: string)
    requires Stamp(0, f).Valid() && f != ""
    ensures Value(f) > 0.0
  {
    if |f| > 1 { Positive(f[1..]); }
  }

  /** Without trailing zeros, fractions are ordered as their texts are. */
  lemma {:induction false} FractionOrder(f: string, g: string)
    requires Stamp(0, f).Valid() && Stamp(0, g).Valid()
    ensures Value(f) < Value(g) <==> StringBefore(f, g)
    ensures Value(f) == Value(g) <==> f == g
  {
    if f == "" || g == "" {
      if f != "" { Positive(f); }
      if g != "" { Positive(g); }
    } else {
      FractionOrder(f[1..], g[1..]);
      assert f == [f[0]] + f[1..] && g == [g[0]] + g[1..];
      FirstFigure(f[0] as int - '0' as int, Value(f[1..]), g[0] as int - '0' as int, Value(g[1..]));
    }
  }

  lemma FirstFigure(a: int, x: real, b: int, y: real)
    requires 0.0 <= x < 1.0 && 0.0 <= y < 1.0
    ensures (a as real + x) / 10.0 < (b as real + y) / 10.0 <==> a < b || (a == b && x < y)
    ensures (a as real + x) / 10.0 == (b as real + y) / 10.0 <==> a == b && x == y
  {
  }

  /** Behind the figures stands a `Z`, which sorts after every figure: a text that goes
      on sorts before the one it continues. */
  lemma {:induction false} ZulOrder(f: string, g: string)
    requires Figures(f) && Figures(g)
    ensures StringBefore(f + "Z", g + "Z") <==> g < f || (StringBefore(f, g) && !(f < g))
  {
    if f == "" || g == "" {
      assert f == "" ==> f + "Z" == "Z";
      assert g == "" ==> g + "Z" == "Z";
    } else {
      assert f == [f[0]] + f[1..] && g == [g[0]] + g[1..];
      assert (f + "Z")[1..] == f[1..] + "Z" && (g + "Z")[1..] == g[1..] + "Z";
      ZulOrder(f[1..], g[1..]);
      assert f[0] == g[0] ==> (f < g <==> f[1..] < g[1..]) && (g < f <==> g[1..] < f[1..]);
    }
  }

  lemma TailOrder(f: string, g: string)
    requires Figures(f) && Figures(g)
    ensures StringBefore(Tail(f), Tail(g)) <==> g < f || (StringBefore(f, g) && !(f < g))
  {
    if f != "" && g != "" {
      SameStart(".", f + "Z", g + "Z");
      ZulOrder(f, g);
    }
  }

  /** The database compares the texts. That is the order of time, except within one
      second when one fraction continues the other: then the later moment sorts first. */
  lemma TextOrder(a: Stamp, b: Stamp, clock: Clock)
    requires a.Valid() && b.Valid() && Ordered(clock)
    ensures var astray := a.second == b.second && (a.fraction < b.fraction || b.fraction < a.fraction);
            && (!astray ==> (StringBefore(Printed(a, clock), Printed(b, clock)) <==> Earlier(a, b)))
            && (astray ==> (StringBefore(Printed(a, clock), Printed(b, clock)) <==> Earlier(b, a)))
            && (astray ==> Earlier(a, b) || Earlier(b, a))
  {
    FractionOrder(a.fraction, b.fraction);
    FractionOrder(b.fraction, a.fraction);
    if a.second == b.second {
      SameStart(clock(a.second), Tail(a.fraction), Tail(b.fraction));
      TailOrder(a.fraction, b.fraction);
      PrefixSortsFirst(a.fraction, b.fraction);
      PrefixSortsFirst(b.fraction, a.fraction);
    } else {
      assert StringBefore(clock(a.second), clock(b.second)) || StringBefore(clock(b.second), clock(a.second));
      BeforeIsStrictOrder(clock(a.second), clock(a.second), "");
      OtherStart(clock(a.second), Tail(a.fraction), clock(b.second), Tail(b.fraction));
    }
  }

  lemma {:induction false} PrefixSortsFirst(f: string, g: string)
    ensures f < g ==> StringBefore(f, g) && !StringBefore(g, f)
  {
    if f != "" && f < g { PrefixSortsFirst(f[1..], g[1..]); }
  }
}
