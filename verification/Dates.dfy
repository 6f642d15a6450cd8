/** Dates as the job names and the published file names carry them. */
module Dates {
  import opened Text

  predicate Leap(year: int) { year % 4 == 0 && (year % 100 != 0 || year % 400 == 0) }

  function DaysIn(year: int, month: nat): nat {
    if month == 2 then (if Leap(year) then 29 else 28)
    else if month == 4 || month == 6 || month == 9 || month == 11 then 30
    else 31
  }

  /** A civil date of the date library, which counts years from -9999 to 9999. */
  datatype Date = Date(year: int, month: nat, day: nat) {
    predicate Valid() { -9999 <= year <= 9999 && 1 <= month <= 12 && 1 <= day <= DaysIn(year, month) }

    predicate Before(d: Date) {
      year < d.year || (year == d.year && (month < d.month || (month == d.month && day < d.day)))
    }

    /** `YYYY-MM-DD`; a negative year has a sign and six figures. */
    function Print(): (r: string)
      requires Valid()
      ensures |r| == if year >= 0 then 10 else 13
      ensures forall i :: 0 <= i < |r| ==> IsDigit(r[i]) || r[i] == '-'
    {
      var y: nat := if year >= 0 then year else -year;
      var era := if year >= 0 then "" else "-00";
      era + [Figure(y / 1000), Figure(y / 100), Figure(y / 10), Figure(y), '-',
             Figure(month / 10), Figure(month), '-', Figure(day / 10), Figure(day)]
    }
  }

  function Figure(n: nat): (c: char)
    ensures IsDigit(c)
  {
    ('0' as int + n % 10) as char
  }

  function TwoFigures(n: nat): string { [Figure(n / 10), Figure(n)] }

  lemma TwoFiguresInOrder(m: nat, n: nat)
    requires m < 100 && n < 100
    ensures StringBefore(TwoFigures(m), TwoFigures(n)) <==> m < n
    ensures TwoFigures(m) == TwoFigures(n) <==> m == n
  {
    var s, t := TwoFigures(m), TwoFigures(n);
    TwoPlaces(m, n);
    assert s[0] == Figure(m / 10) && s[1] == Figure(m) && t[0] == Figure(n / 10) && t[1] == Figure(n);
    assert s[1..] == [s[1]] && t[1..] == [t[1]];
    assert StringBefore([s[1]], [t[1]]) <==> s[1] < t[1] by { assert [s[1]][1..] == [] && [t[1]][1..] == []; }
  }

  lemma TwoPlaces(m: nat, n: nat)
    requires m < 100 && n < 100
    ensures m / 10 < 10 && n / 10 < 10
    ensures m < n <==> m / 10 < n / 10 || (m / 10 == n / 10 && m % 10 < n % 10)
    ensures m == n <==> m / 10 == n / 10 && m % 10 == n % 10
  {
  }

  /** Texts whose starts are of one length: the starts decide, unless they are equal. */
  lemma StartsDecide(p: string, a: string, q: string, b: string)
    requires |p| == |q|
    ensures StringBefore(p + a, q + b) <==> StringBefore(p, q) || (p == q && StringBefore(a, b))
  {
    if p == q {
      SameStart(p, a, b);
      BeforeIsStrictOrder(p, p, p);
    } else {
      OtherStart(p, a, q, b);
    }
  }

  function Pieces(d: Date): string
    requires d.Valid() && d.year >= 0
  {
    TwoFigures(d.year / 100)
    + (TwoFigures(d.year % 100) + ("-" + (TwoFigures(d.month) + ("-" + TwoFigures(d.day)))))
  }

  lemma PrintIsPieces(d: Date)
    requires d.Valid() && d.year >= 0
    ensures d.Print() == Pieces(d)
  {
    var y: nat := d.year;
    YearFigures(y);
    assert "" + [Figure(y / 1000)] == [Figure(y / 1000)];
  }

  lemma YearFigures(y: nat)
    requires y < 10000
    ensures TwoFigures(y / 100) == [Figure(y / 1000), Figure(y / 100)]
    ensures TwoFigures(y % 100) == [Figure(y / 10), Figure(y)]
  {
    FigurePlaces(y);
    SameFigure(y % 100 / 10, y / 10);
    SameFigure(y % 100, y);
  }

  lemma FigurePlaces(y: nat)
    ensures y / 100 / 10 == y / 1000 && y % 100 / 10 % 10 == y / 10 % 10 && y % 100 % 10 == y % 10
  {
    var k, r := y / 100, y % 100;
    var q, f := r / 10, r % 10;
    ByTen(y, 10 * k + q, f);
    ByTen(10 * k + q, k, q);
    ByTen(q, 0, q);
  }

  lemma ByTen(n: nat, q: nat, r: nat)
    requires n == 10 * q + r && r < 10
    ensures n / 10 == q && n % 10 == r
  {
  }

  lemma SameFigure(m: nat, n: nat)
    requires m % 10 == n % 10
    ensures Figure(m) == Figure(n)
  {
  }

  /** Of the years from 0 on, the printed dates are ordered as the dates. */
  lemma PrintsInOrder(a: Date, b: Date)
    requires a.Valid() && b.Valid() && a.year >= 0 && b.year >= 0
    ensures StringBefore(a.Print(), b.Print()) <==> a.Before(b)
  {
    PrintIsPieces(a);
    PrintIsPieces(b);
    var ad, bd := TwoFigures(a.day), TwoFigures(b.day);
    var am, bm := TwoFigures(a.month) + ("-" + ad), TwoFigures(b.month) + ("-" + bd);
    TwoFiguresInOrder(a.year / 100, b.year / 100);
    TwoFiguresInOrder(a.year % 100, b.year % 100);
    TwoFiguresInOrder(a.month, b.month);
    TwoFiguresInOrder(a.day, b.day);
    StartsDecide(TwoFigures(a.year / 100), TwoFigures(a.year % 100) + ("-" + am),
                 TwoFigures(b.year / 100), TwoFigures(b.year % 100) + ("-" + bm));
    StartsDecide(TwoFigures(a.year % 100), "-" + am, TwoFigures(b.year % 100), "-" + bm);
    StartsDecide("-", am, "-", bm);
    StartsDecide(TwoFigures(a.month), "-" + ad, TwoFigures(b.month), "-" + bd);
    StartsDecide("-", ad, "-", bd);
    BeforeIsStrictOrder("-", "-", "-");
  }

  /** The date library's parser. It reads back what it prints; which other spellings
      it accepts is left open. */
  type Reader = string -> Option<Date>

  ghost predicate Faithful(read: Reader) {
    && (forall d: Date :: d.Valid() ==> read(d.Print()) == Some(d))
    && (forall s :: read(s).Some? ==> read(s).value.Valid())
  }
}
