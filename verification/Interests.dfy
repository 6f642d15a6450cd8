/** `rates` in `src/interests.rs`: credit per interest, by a hash join of ratings and
    matches. Real numbers stand for floating point. */
module Interests {

  /** A rating with its decay, and a match of an article with an interest. */
  datatype Rating = Rating(article: int, value: real, decay: real)
  datatype Match = Match(article: int, interest: int, z: real)

  datatype Rate = Rate(up: real, down: real, n: nat) {
    function Plus(r: Rate): Rate { Rate(up + r.up, down + r.down, n + r.n) }

    function Weight(): real
      requires up >= 0.0 && down >= 0.0
    {
      (up + 1.0) / (up + down + 2.0)
    }
  }

  const NO_CREDIT := Rate(0.0, 0.0, 0)

  function Clamp(x: real): real { if x < 0.0 then 0.0 else if x > 1.0 then 1.0 else x }
  function Max(x: real, y: real): real { if x >= y then x else y }

  function Strength(z: real): real { Clamp(z / 3.0) }

  /** What one match with interest `i` makes of a rating of its article. */
  function Credited(r: Rating, strength: real): Rate {
    var credit := r.value * r.decay * strength;
    Rate(Max(credit, 0.0), Max(-credit, 0.0), 1)
  }

  // -------------------------------------------------------------------------
  // The simple form: a sum over all pairs of a rating and a match
  // -------------------------------------------------------------------------

  function PairCredit(r: Rating, m: Match, i: int): Rate {
    if m.article == r.article && m.interest == i && m.z > 0.0 then Credited(r, Strength(m.z)) else NO_CREDIT
  }

  function RatingCredit(r: Rating, rows: seq<Match>, i: int): Rate
    decreases |rows|
  {
    if rows == [] then NO_CREDIT
    else RatingCredit(r, rows[..|rows| - 1], i).Plus(PairCredit(r, rows[|rows| - 1], i))
  }

  function TotalCredit(ratings: seq<Rating>, rows: seq<Match>, i: int): Rate
    decreases |ratings|
  {
    if ratings == [] then NO_CREDIT
    else TotalCredit(ratings[..|ratings| - 1], rows, i).Plus(RatingCredit(ratings[|ratings| - 1], rows, i))
  }

  predicate Matched(r: Rating, rows: seq<Match>) {
    exists k :: 0 <= k < |rows| && rows[k].article == r.article && rows[k].z > 0.0
  }

  function Attributable(ratings: seq<Rating>, rows: seq<Match>): nat
    decreases |ratings|
  {
    if ratings == [] then 0
    else Attributable(ratings[..|ratings| - 1], rows) + if Matched(ratings[|ratings| - 1], rows) then 1 else 0
  }

  // -------------------------------------------------------------------------
  // The hash join
  // -------------------------------------------------------------------------

  /** The matches of one article, in order. */
  function MatchesOf(rows: seq<Match>, article: int): seq<(int, real)>
    decreases |rows|
  {
    if rows == [] then []
    else
      var k := |rows| - 1;
      MatchesOf(rows[..k], article) + if rows[k].article == article then [(rows[k].interest, rows[k].z)] else []
  }

  ghost predicate Indexes(index: map<int, seq<(int, real)>>, rows: seq<Match>) {
    forall a :: (a in index <==> MatchesOf(rows, a) != []) && (a in index ==> index[a] == MatchesOf(rows, a))
  }

  /** What a rating gives to a match of a strength. */
  type Credit = real -> Rate

  function CreditOf(r: Rating): Credit { strength => Credited(r, strength) }

  /** The credits of one rating, given the matches of its article. */
  function JoinedCredit(credit: Credit, matches: seq<(int, real)>, i: int): Rate
    decreases |matches|
  {
    if matches == [] then NO_CREDIT
    else
      var k := |matches| - 1;
      var before := JoinedCredit(credit, matches[..k], i);
      if matches[k].0 == i && matches[k].1 > 0.0 then before.Plus(credit(Strength(matches[k].1))) else before
  }

  predicate AnyPositive(matches: seq<(int, real)>) { exists k :: 0 <= k < |matches| && matches[k].1 > 0.0 }

  /** The map holds exactly the interests with credit, and their rates. */
  ghost predicate Holds(rates: map<int, Rate>, f: int -> Rate) {
    forall i :: (i in rates <==> f(i).n > 0) && RateIn(rates, i) == f(i)
  }

  function RateIn(rates: map<int, Rate>, i: int): Rate { if i in rates then rates[i] else NO_CREDIT }

  /** The map after one match of a rating. */
  function Added(rates: map<int, Rate>, credit: Credit, m: (int, real)): map<int, Rate> {
    if Strength(m.1) <= 0.0 then rates else rates[m.0 := RateIn(rates, m.0).Plus(credit(Strength(m.1)))]
  }

  function AddedAll(rates: map<int, Rate>, credit: Credit, matches: seq<(int, real)>): map<int, Rate>
    decreases |matches|
  {
    if matches == [] then rates
    else Added(AddedAll(rates, credit, matches[..|matches| - 1]), credit, matches[|matches| - 1])
  }

  /** The map after all ratings. */
  function Joined(ratings: seq<Rating>, rows: seq<Match>): map<int, Rate>
    decreases |ratings|
  {
    if ratings == [] then map[]
    else
      var k := |ratings| - 1;
      AddedAll(Joined(ratings[..k], rows), CreditOf(ratings[k]), MatchesOf(rows, ratings[k].article))
  }

  method Rates(ratings: seq<Rating>, rows: seq<Match>) returns (byInterest: map<int, Rate>, attributable: nat)
    ensures Holds(byInterest, Totals(ratings, rows))
    ensures attributable == Attributable(ratings, rows)
  {
    var index := BuildIndex(rows);
    byInterest, attributable := map[], 0;
    for k := 0 to |ratings|
      invariant byInterest == Joined(ratings[..k], rows)
      invariant attributable == Attributable(ratings[..k], rows)
    {
      assert ratings[..k + 1][..k] == ratings[..k];
      var attributed;
      byInterest, attributed := AddRating(ratings[k], index, byInterest, rows);
      if attributed {
        attributable := attributable + 1;
      }
    }
    assert ratings[..|ratings|] == ratings;
    JoinedHolds(ratings, rows);
  }

  /** The body of the loop over the ratings. */
  method AddRating(r: Rating, index: map<int, seq<(int, real)>>, rates: map<int, Rate>, ghost rows: seq<Match>)
    returns (rates': map<int, Rate>, attributed: bool)
    requires Indexes(index, rows)
    ensures rates' == AddedAll(rates, CreditOf(r), MatchesOf(rows, r.article))
    ensures attributed == Matched(r, rows)
  {
    AnyMatchCounts(r, rows);
    rates', attributed := rates, false;
    if r.article in index {
      rates', attributed := AddCredits(CreditOf(r), index[r.article], rates);
    }
  }

  method BuildIndex(rows: seq<Match>) returns (index: map<int, seq<(int, real)>>)
    ensures Indexes(index, rows)
  {
    index := map[];
    for k := 0 to |rows|
      invariant Indexes(index, rows[..k])
    {
      assert rows[..k + 1][..k] == rows[..k];
      var m := rows[k];
      var bucket := if m.article in index then index[m.article] else [];
      index := index[m.article := bucket + [(m.interest, m.z)]];
    }
    assert rows[..|rows|] == rows;
  }

  /** The inner loop, over the matches of the rated article. */
  method AddCredits(credit: Credit, matches: seq<(int, real)>, rates: map<int, Rate>)
    returns (rates': map<int, Rate>, attributed: bool)
    ensures rates' == AddedAll(rates, credit, matches)
    ensures attributed == AnyPositive(matches)
  {
    rates', attributed := rates, false;
    for k := 0 to |matches|
      invariant rates' == AddedAll(rates, credit, matches[..k])
      invariant attributed == AnyPositive(matches[..k])
    {
      assert matches[..k + 1] == matches[..k] + [matches[k]];
      AnyPositiveSnoc(matches[..k], matches[k]);
      var (interest, z) := matches[k];
      var strength := Strength(z);
      if strength <= 0.0 {
        continue;
      }
      attributed := true;
      rates' := rates'[interest := RateIn(rates', interest).Plus(credit(strength))];
    }
    assert matches[..|matches|] == matches;
  }

  lemma AnyPositiveSnoc(seen: seq<(int, real)>, m: (int, real))
    ensures AnyPositive(seen + [m]) <==> AnyPositive(seen) || m.1 > 0.0
  {
    var all := seen + [m];
    assert forall k :: 0 <= k < |seen| ==> all[k] == seen[k];
    assert all[|seen|] == m;
  }

  // -------------------------------------------------------------------------
  // The join is the sum
  // -------------------------------------------------------------------------

  function Totals(ratings: seq<Rating>, rows: seq<Match>): int -> Rate { i => TotalCredit(ratings, rows, i) }

  /** The rates `f` with the credits of one more rating. */
  function With(f: int -> Rate, credit: Credit, matches: seq<(int, real)>): int -> Rate {
    i => f(i).Plus(JoinedCredit(credit, matches, i))
  }

  lemma HoldsAlike(rates: map<int, Rate>, f: int -> Rate, g: int -> Rate)
    requires Holds(rates, f) && forall i :: g(i) == f(i)
    ensures Holds(rates, g)
  {
  }

  lemma HoldsOneMore(rates: map<int, Rate>, f: int -> Rate, g: int -> Rate, j: int, c: Rate)
    requires Holds(rates, f) && c.n > 0
    requires forall i :: g(i) == if i == j then f(i).Plus(c) else f(i)
    ensures Holds(rates[j := RateIn(rates, j).Plus(c)], g)
  {
  }

  lemma PlusAssociates(a: Rate, b: Rate, c: Rate)
    ensures a.Plus(b.Plus(c)) == a.Plus(b).Plus(c)
  {
  }

  lemma CreditStep(f: int -> Rate, credit: Credit, seen: seq<(int, real)>, m: (int, real), i: int)
    ensures With(f, credit, seen + [m])(i)
         == if i == m.0 && m.1 > 0.0 then With(f, credit, seen)(i).Plus(credit(Strength(m.1)))
            else With(f, credit, seen)(i)
  {
    assert (seen + [m])[..|seen|] == seen;
    PlusAssociates(f(i), JoinedCredit(credit, seen, i), credit(Strength(m.1)));
  }

  lemma AddedHolds(rates: map<int, Rate>, f: int -> Rate, credit: Credit, seen: seq<(int, real)>, m: (int, real))
    requires Holds(rates, With(f, credit, seen)) && credit(Strength(m.1)).n > 0
    ensures Holds(Added(rates, credit, m), With(f, credit, seen + [m]))
  {
    var before, after := With(f, credit, seen), With(f, credit, seen + [m]);
    forall i ensures after(i) == if i == m.0 && m.1 > 0.0 then before(i).Plus(credit(Strength(m.1))) else before(i) {
      CreditStep(f, credit, seen, m, i);
    }
    if Strength(m.1) <= 0.0 {
      HoldsAlike(rates, before, after);
    } else {
      HoldsOneMore(rates, before, after, m.0, credit(Strength(m.1)));
    }
  }

  lemma {:induction false} AddedAllHolds(rates: map<int, Rate>, f: int -> Rate, credit: Credit,
                                         matches: seq<(int, real)>)
    requires Holds(rates, f) && forall strength :: credit(strength).n > 0
    ensures Holds(AddedAll(rates, credit, matches), With(f, credit, matches))
    decreases |matches|
  {
    if matches == [] {
      NoneAdded(rates, f, credit, matches);
    } else {
      var k := |matches| - 1;
      AddedAllHolds(rates, f, credit, matches[..k]);
      LastAdded(rates, f, credit, matches);
    }
  }

  lemma NoneAdded(rates: map<int, Rate>, f: int -> Rate, credit: Credit, matches: seq<(int, real)>)
    requires Holds(rates, f) && matches == []
    ensures Holds(AddedAll(rates, credit, matches), With(f, credit, matches))
  {
    var g := With(f, credit, matches);
    forall i ensures g(i) == f(i) {
      PlusNothing(f(i));
    }
    HoldsAlike(rates, f, g);
  }

  lemma PlusNothing(r: Rate)
    ensures r.Plus(NO_CREDIT) == r
  {
  }

  lemma LastAdded(rates: map<int, Rate>, f: int -> Rate, credit: Credit, matches: seq<(int, real)>)
    requires matches != [] && credit(Strength(matches[|matches| - 1].1)).n > 0
    requires Holds(AddedAll(rates, credit, matches[..|matches| - 1]), With(f, credit, matches[..|matches| - 1]))
    ensures Holds(AddedAll(rates, credit, matches), With(f, credit, matches))
  {
    var k := |matches| - 1;
    AddedHolds(AddedAll(rates, credit, matches[..k]), f, credit, matches[..k], matches[k]);
    assert matches == matches[..k] + [matches[k]];
  }

  /** The map holds, for exactly the interests with a pair of a rating and a positive
      match, the sums of their credits. */
  lemma {:induction false} JoinedHolds(ratings: seq<Rating>, rows: seq<Match>)
    ensures Holds(Joined(ratings, rows), Totals(ratings, rows))
    decreases |ratings|
  {
    if ratings != [] {
      var k := |ratings| - 1;
      var r := ratings[k];
      JoinedHolds(ratings[..k], rows);
      CreditCounts(r);
      forall i ensures Totals(ratings, rows)(i)
                    == Totals(ratings[..k], rows)(i).Plus(JoinedCredit(CreditOf(r), MatchesOf(rows, r.article), i)) {
        TotalsStep(ratings, rows, i);
      }
      JoinOneMore(Joined(ratings[..k], rows), Totals(ratings[..k], rows), CreditOf(r), MatchesOf(rows, r.article),
                  Totals(ratings, rows));
    }
  }

  lemma CreditCounts(r: Rating)
    ensures forall strength :: CreditOf(r)(strength).n > 0
  {
  }

  lemma TotalsStep(ratings: seq<Rating>, rows: seq<Match>, i: int)
    requires ratings != []
    ensures var k := |ratings| - 1;
            TotalCredit(ratings, rows, i)
            == TotalCredit(ratings[..k], rows, i).Plus(
                 JoinedCredit(CreditOf(ratings[k]), MatchesOf(rows, ratings[k].article), i))
  {
    JoinIsSum(ratings[|ratings| - 1], rows);
  }

  lemma JoinOneMore(rates: map<int, Rate>, f: int -> Rate, credit: Credit, matches: seq<(int, real)>, g: int -> Rate)
    requires Holds(rates, f) && forall strength :: credit(strength).n > 0
    requires forall i :: g(i) == f(i).Plus(JoinedCredit(credit, matches, i))
    ensures Holds(AddedAll(rates, credit, matches), g)
  {
    AddedAllHolds(rates, f, credit, matches);
    HoldsAlike(AddedAll(rates, credit, matches), With(f, credit, matches), g);
  }

  /** Joining through the index is summing over all matches. */
  lemma {:induction false} JoinIsSum(r: Rating, rows: seq<Match>)
    ensures forall i :: JoinedCredit(CreditOf(r), MatchesOf(rows, r.article), i) == RatingCredit(r, rows, i)
    decreases |rows|
  {
    if rows != [] {
      var k := |rows| - 1;
      JoinIsSum(r, rows[..k]);
      var before, all := MatchesOf(rows[..k], r.article), MatchesOf(rows, r.article);
      if rows[k].article == r.article {
        assert all[..|before|] == before;
      } else {
        assert all == before;
      }
    }
  }

  lemma {:induction false} AnyMatchCounts(r: Rating, rows: seq<Match>)
    ensures AnyPositive(MatchesOf(rows, r.article)) <==> Matched(r, rows)
    decreases |rows|
  {
    if rows != [] {
      var k := |rows| - 1;
      AnyMatchCounts(r, rows[..k]);
      MatchedSnoc(r, rows[..k], rows[k]);
      assert rows == rows[..k] + [rows[k]];
      var before := MatchesOf(rows[..k], r.article);
      if rows[k].article == r.article {
        AnyPositiveSnoc(before, (rows[k].interest, rows[k].z));
        assert MatchesOf(rows, r.article) == before + [(rows[k].interest, rows[k].z)];
      } else {
        assert MatchesOf(rows, r.article) == before;
      }
    }
  }

  lemma MatchedSnoc(r: Rating, seen: seq<Match>, m: Match)
    ensures Matched(r, seen + [m]) <==> Matched(r, seen) || (m.article == r.article && m.z > 0.0)
  {
    var all := seen + [m];
    assert forall k :: 0 <= k < |seen| ==> all[k] == seen[k];
    assert all[|seen|] == m;
  }

  // -------------------------------------------------------------------------
  // Weights
  // -------------------------------------------------------------------------

  lemma PairIsNonNegative(r: Rating, m: Match, i: int)
    ensures var c := PairCredit(r, m, i); c.up >= 0.0 && c.down >= 0.0
  {
  }

  lemma {:induction false} RatingIsNonNegative(r: Rating, rows: seq<Match>, i: int)
    ensures var c := RatingCredit(r, rows, i); c.up >= 0.0 && c.down >= 0.0
    decreases |rows|
  {
    if rows != [] {
      RatingIsNonNegative(r, rows[..|rows| - 1], i);
      PairIsNonNegative(r, rows[|rows| - 1], i);
    }
  }

  lemma {:induction false} TotalIsNonNegative(ratings: seq<Rating>, rows: seq<Match>, i: int)
    ensures var c := TotalCredit(ratings, rows, i); c.up >= 0.0 && c.down >= 0.0
    decreases |ratings|
  {
    if ratings != [] {
      TotalIsNonNegative(ratings[..|ratings| - 1], rows, i);
      RatingIsNonNegative(ratings[|ratings| - 1], rows, i);
    }
  }

  /** A rating counts for the same wherever it stands in the list. */
  lemma {:induction false} RatingAnywhere(a: seq<Rating>, r: Rating, b: seq<Rating>, rows: seq<Match>, i: int)
    ensures TotalCredit(a + [r] + b, rows, i) == TotalCredit(a + b, rows, i).Plus(RatingCredit(r, rows, i))
    decreases |b|
  {
    if b == [] {
      assert a + [r] + b == a + [r] && a + b == a && (a + [r])[..|a|] == a;
    } else {
      var k := |b| - 1;
      RatingAnywhere(a, r, b[..k], rows, i);
      assert (a + [r] + b)[..|a| + 1 + k] == a + [r] + b[..k] && (a + b)[..|a| + k] == a + b[..k];
      PlusCommutes(TotalCredit(a + b[..k], rows, i), RatingCredit(r, rows, i), RatingCredit(b[k], rows, i));
    }
  }

  lemma PlusCommutes(a: Rate, b: Rate, c: Rate)
    ensures a.Plus(b).Plus(c) == a.Plus(c).Plus(b)
  {
  }

  lemma {:induction false} OneSided(r: Rating, rows: seq<Match>, i: int)
    ensures r.value * r.decay >= 0.0 ==> RatingCredit(r, rows, i).down == 0.0
    ensures r.value * r.decay <= 0.0 ==> RatingCredit(r, rows, i).up == 0.0
    decreases |rows|
  {
    if rows != [] {
      OneSided(r, rows[..|rows| - 1], i);
      PairIsOneSided(r, rows[|rows| - 1], i);
    }
  }

  lemma PairIsOneSided(r: Rating, m: Match, i: int)
    ensures r.value * r.decay >= 0.0 ==> PairCredit(r, m, i).down == 0.0
    ensures r.value * r.decay <= 0.0 ==> PairCredit(r, m, i).up == 0.0
  {
    CreditSign(r.value * r.decay, Strength(m.z));
  }

  lemma CreditSign(x: real, strength: real)
    requires strength >= 0.0
    ensures x >= 0.0 ==> x * strength >= 0.0
    ensures x <= 0.0 ==> x * strength <= 0.0
  {
  }

  lemma RatioOrder(a: real, b: real, c: real, d: real)
    requires b > 0.0 && d > 0.0
    ensures a / b < c / d <==> a * d < c * b
  {
    var x, y := a / b, c / d;
    assert a == x * b && c == y * d;
    assert a * d == x * (b * d) && c * b == y * (b * d);
    assert b * d > 0.0;
    if x < y {
      assert (y - x) * (b * d) > 0.0;
    } else {
      assert (x - y) * (b * d) >= 0.0;
    }
  }

  /** A match counts in full from a z of 3 on, in proportion below that, and not at all at
      0 or less. */
  function Share(z: real): real { if z <= 0.0 then 0.0 else if z < 3.0 then z / 3.0 else 1.0 }

  /** The sum of what the matches with an interest are worth, by their z. */
  function Worth(matches: seq<(int, real)>, worth: real -> real, i: int): real
    decreases |matches|
  {
    if matches == [] then 0.0
    else
      var k := |matches| - 1;
      Worth(matches[..k], worth, i) + if matches[k].0 == i then worth(matches[k].1) else 0.0
  }

  /** Value, decay and the share of the match, multiplied. */
  function WorthOf(r: Rating): real -> real { z => r.value * r.decay * Share(z) }

  predicate Favourable(r: Rating) { r.value * r.decay >= 0.0 }

  /** What a rating is worth to an interest, through all matches of its article. */
  function RatingWorth(r: Rating, rows: seq<Match>, i: int): real { Worth(MatchesOf(rows, r.article), WorthOf(r), i) }

  lemma CreditIsShare(r: Rating, z: real)
    ensures var worth := WorthOf(r)(z);
            var c := if z > 0.0 then CreditOf(r)(Strength(z)) else NO_CREDIT;
            c.up == (if Favourable(r) then worth else 0.0) && c.down == if Favourable(r) then 0.0 else -worth
  {
    CreditSign(r.value * r.decay, Share(z));
    assert z > 0.0 ==> Strength(z) == Share(z);
  }

  lemma {:induction false} JoinedIsWorth(credit: Credit, worth: real -> real, good: bool,
                                         matches: seq<(int, real)>, i: int)
    requires forall z :: var c := if z > 0.0 then credit(Strength(z)) else NO_CREDIT;
                         c.up == (if good then worth(z) else 0.0) && c.down == if good then 0.0 else -worth(z)
    ensures var c, sum := JoinedCredit(credit, matches, i), Worth(matches, worth, i);
            c.up == (if good then sum else 0.0) && c.down == if good then 0.0 else -sum
    decreases |matches|
  {
    if matches != [] {
      JoinedIsWorth(credit, worth, good, matches[..|matches| - 1], i);
    }
  }

  lemma RatingIsWorth(r: Rating, rows: seq<Match>, i: int)
    ensures var c, worth := RatingCredit(r, rows, i), RatingWorth(r, rows, i);
            c.up == (if Favourable(r) then worth else 0.0) && c.down == if Favourable(r) then 0.0 else -worth
  {
    JoinIsSum(r, rows);
    forall z
      ensures var c := if z > 0.0 then CreditOf(r)(Strength(z)) else NO_CREDIT;
              c.up == (if Favourable(r) then WorthOf(r)(z) else 0.0)
              && c.down == if Favourable(r) then 0.0 else -WorthOf(r)(z)
    {
      CreditIsShare(r, z);
    }
    JoinedIsWorth(CreditOf(r), WorthOf(r), Favourable(r), MatchesOf(rows, r.article), i);
  }

  /** The worth of the ratings that pass a test. */
  function SumOf(ratings: seq<Rating>, worth: Rating -> real, test: Rating -> bool): real
    decreases |ratings|
  {
    if ratings == [] then 0.0
    else
      var r := ratings[|ratings| - 1];
      SumOf(ratings[..|ratings| - 1], worth, test) + if test(r) then worth(r) else 0.0
  }

  function WorthTo(rows: seq<Match>, i: int): Rating -> real { r => RatingWorth(r, rows, i) }
  function Good(): Rating -> bool { r => Favourable(r) }
  function Bad(): Rating -> bool { r => !Favourable(r) }

  /** The two sums of an interest: what the favourable ratings are worth to it on one side,
      and the unfavourable ones on the other. */
  lemma {:induction false} CreditIsWorth(ratings: seq<Rating>, rows: seq<Match>, i: int)
    ensures TotalCredit(ratings, rows, i).up == SumOf(ratings, WorthTo(rows, i), Good())
    ensures TotalCredit(ratings, rows, i).down == -SumOf(ratings, WorthTo(rows, i), Bad())
    decreases |ratings|
  {
    if ratings != [] {
      var k := |ratings| - 1;
      CreditIsWorth(ratings[..k], rows, i);
      RatingIsWorth(ratings[k], rows, i);
      PlusAddsUp(TotalCredit(ratings[..k], rows, i), RatingCredit(ratings[k], rows, i));
    }
  }

  lemma PlusAddsUp(a: Rate, b: Rate)
    ensures a.Plus(b).up == a.up + b.up && a.Plus(b).down == a.down + b.down
  {
  }

  /** A weight is the favourable part of all credit, after one unit has been added on either
      side: it lies strictly between 0 and 1 and leans to the larger side. */
  lemma WeightsAreBetween(ratings: seq<Rating>, rows: seq<Match>, i: int)
    ensures var c := TotalCredit(ratings, rows, i);
            && c.up >= 0.0 && c.down >= 0.0
            && 0.0 < c.Weight() < 1.0 && c.Weight() * (c.up + c.down + 2.0) == c.up + 1.0
            && (c.Weight() > 0.5 <==> c.up > c.down)
            && (c.Weight() < 0.5 <==> c.up < c.down)
  {
    TotalIsNonNegative(ratings, rows, i);
    WeightIsBetween(TotalCredit(ratings, rows, i));
  }

  lemma WeightIsBetween(c: Rate)
    requires c.up >= 0.0 && c.down >= 0.0
    ensures 0.0 < c.Weight() < 1.0 && c.Weight() * (c.up + c.down + 2.0) == c.up + 1.0
    ensures (c.Weight() > 0.5 <==> c.up > c.down) && (c.Weight() < 0.5 <==> c.up < c.down)
  {
    RatioOrder(0.0, 1.0, c.up + 1.0, c.up + c.down + 2.0);
    RatioOrder(c.up + 1.0, c.up + c.down + 2.0, 1.0, 1.0);
    RatioOrder(1.0, 2.0, c.up + 1.0, c.up + c.down + 2.0);
    RatioOrder(c.up + 1.0, c.up + c.down + 2.0, 1.0, 2.0);
  }

  /** One more favourable rating, wherever it stands, never lowers a weight, and raises
      it exactly if it gives the interest credit; an unfavourable one never raises it. */
  lemma OneMoreRating(a: seq<Rating>, r: Rating, b: seq<Rating>, rows: seq<Match>, i: int)
    ensures var c, d, e := TotalCredit(a + b, rows, i), TotalCredit(a + [r] + b, rows, i), RatingCredit(r, rows, i);
            && c.up >= 0.0 && c.down >= 0.0 && d.up >= 0.0 && d.down >= 0.0
            && (r.value * r.decay >= 0.0 ==> d.Weight() >= c.Weight() && (d.Weight() > c.Weight() <==> e.up > 0.0))
            && (r.value * r.decay <= 0.0 ==> d.Weight() <= c.Weight() && (d.Weight() < c.Weight() <==> e.down > 0.0))
  {
    var c, e := TotalCredit(a + b, rows, i), RatingCredit(r, rows, i);
    TotalIsNonNegative(a + b, rows, i);
    TotalIsNonNegative(a + [r] + b, rows, i);
    RatingIsNonNegative(r, rows, i);
    RatingAnywhere(a, r, b, rows, i);
    OneSided(r, rows, i);
    MoreCredit(c, e);
  }

  lemma MoreCredit(c: Rate, e: Rate)
    requires c.up >= 0.0 && c.down >= 0.0 && e.up >= 0.0 && e.down >= 0.0
    ensures var d := c.Plus(e);
            && (e.down == 0.0 ==> d.Weight() >= c.Weight() && (d.Weight() > c.Weight() <==> e.up > 0.0))
            && (e.up == 0.0 ==> d.Weight() <= c.Weight() && (d.Weight() < c.Weight() <==> e.down > 0.0))
  {
    var d := c.Plus(e);
    var n, m := c.up + c.down + 2.0, d.up + d.down + 2.0;
    RatioOrder(c.up + 1.0, n, d.up + 1.0, m);
    RatioOrder(d.up + 1.0, m, c.up + 1.0, n);
    assert (d.up + 1.0) * n - (c.up + 1.0) * m == e.up * (c.down + 1.0) - e.down * (c.up + 1.0);
    if e.down == 0.0 {
      assert e.up > 0.0 ==> e.up * (c.down + 1.0) > 0.0;
    }
    if e.up == 0.0 {
      assert e.down > 0.0 ==> e.down * (c.up + 1.0) > 0.0;
    }
  }
}
