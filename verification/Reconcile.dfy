/** Pairwise and three-way comparison of the position sources (`compare_pair`, `compare_three_sources`). */
module Reconcile {
  import opened Sums
  import Positions

  /** Half a cent. */
  const PRICE_TOLERANCE := 0.005

  datatype Holding = Holding(qty: int, avg: real)

  type Source = map<string, Holding>

  datatype Field = Exists | Qty | AvgEntryPrice

  datatype Value = Present | Absent | QtyOf(qty: int) | PriceOf(price: real)

  datatype Mismatch = Mismatch(sourceA: string, sourceB: string, ticker: string, field: Field, valueA: Value, valueB: Value)

  predicate PricesDiffer(x: Holding, y: Holding) { Abs(x.avg - y.avg) > PRICE_TOLERANCE }

  /** What the comparison has to say about one ticker: nothing, a missing side, or up to two field differences. */
  function MismatchesOn(t: string, na: string, a: Source, nb: string, b: Source): seq<Mismatch> {
    if t in a && t !in b then [Mismatch(na, nb, t, Exists, Present, Absent)]
    else if t !in a && t in b then [Mismatch(na, nb, t, Exists, Absent, Present)]
    else if t in a && t in b then
      (if a[t].qty != b[t].qty then [Mismatch(na, nb, t, Qty, QtyOf(a[t].qty), QtyOf(b[t].qty))] else [])
      + (if PricesDiffer(a[t], b[t]) then [Mismatch(na, nb, t, AvgEntryPrice, PriceOf(a[t].avg), PriceOf(b[t].avg))] else [])
    else []
  }

  /** The list holds every mismatch of the tickers in `done`, each once, and nothing else. */
  ghost predicate ListsExactly(out: seq<Mismatch>, done: set<string>, na: string, a: Source, nb: string, b: Source) {
    (forall m :: m in out <==> m.ticker in done && m in MismatchesOn(m.ticker, na, a, nb, b))
    && (forall i, j :: 0 <= i < j < |out| ==> out[i] != out[j])
  }

  lemma TickerAdded(out: seq<Mismatch>, done: set<string>, t: string, na: string, a: Source, nb: string, b: Source)
    requires ListsExactly(out, done, na, a, nb, b) && t !in done
    ensures ListsExactly(out + MismatchesOn(t, na, a, nb, b), done + {t}, na, a, nb, b)
  {
    var more := MismatchesOn(t, na, a, nb, b);
    var out' := out + more;
    assert forall m :: m in more ==> m.ticker == t;
    forall i, j | 0 <= i < j < |out'|
      ensures out'[i] != out'[j]
    {
      if i < |out| <= j {
        assert out[i] in out && more[j - |out|] in more;
      }
    }
  }

  lemma ListsUnion(x: seq<Mismatch>, xs: set<string>, y: seq<Mismatch>, ys: set<string>,
                   na: string, a: Source, nb: string, b: Source)
    requires ListsExactly(x, xs, na, a, nb, b) && ListsExactly(y, ys, na, a, nb, b) && xs !! ys
    ensures ListsExactly(x + y, xs + ys, na, a, nb, b)
  {
    var out := x + y;
    forall i, j | 0 <= i < j < |out|
      ensures out[i] != out[j]
    {
      if i < |x| <= j {
        assert x[i] in x && y[j - |x|] in y;
      }
    }
  }

  /** The first two loops of `compare_pair`: tickers held by one side only. */
  method OneSided(na: string, a: Source, nb: string, b: Source, inA: bool) returns (out: seq<Mismatch>)
    ensures ListsExactly(out, if inA then a.Keys - b.Keys else b.Keys - a.Keys, na, a, nb, b)
  {
    out := [];
    var tickers := if inA then a.Keys - b.Keys else b.Keys - a.Keys;
    var todo := tickers;
    while todo != {}
      invariant todo <= tickers && ListsExactly(out, tickers - todo, na, a, nb, b)
    {
      var t :| t in todo;
      TickerAdded(out, tickers - todo, t, na, a, nb, b);
      assert tickers - todo + {t} == tickers - (todo - {t});
      out := out + [Mismatch(na, nb, t, Exists, if inA then Present else Absent, if inA then Absent else Present)];
      todo := todo - {t};
    }
    assert tickers - todo == tickers;
  }

  /** The third loop: tickers held by both sides. */
  method BothSides(na: string, a: Source, nb: string, b: Source) returns (out: seq<Mismatch>)
    ensures ListsExactly(out, a.Keys * b.Keys, na, a, nb, b)
  {
    out := [];
    var tickers := a.Keys * b.Keys;
    var todo := tickers;
    while todo != {}
      invariant todo <= tickers && ListsExactly(out, tickers - todo, na, a, nb, b)
    {
      var t :| t in todo;
      TickerAdded(out, tickers - todo, t, na, a, nb, b);
      assert tickers - todo + {t} == tickers - (todo - {t});
      ghost var before := out;
      var x, y := a[t], b[t];
      if x.qty != y.qty {
        out := out + [Mismatch(na, nb, t, Qty, QtyOf(x.qty), QtyOf(y.qty))];
      }
      var diff := if x.avg - y.avg < 0.0 then y.avg - x.avg else x.avg - y.avg;
      if diff > PRICE_TOLERANCE {
        out := out + [Mismatch(na, nb, t, AvgEntryPrice, PriceOf(x.avg), PriceOf(y.avg))];
      }
      assert out == before + MismatchesOn(t, na, a, nb, b);
      todo := todo - {t};
    }
    assert tickers - todo == tickers;
  }

  /** `compare_pair`. */
  method ComparePair(na: string, a: Source, nb: string, b: Source) returns (out: seq<Mismatch>)
    ensures ListsExactly(out, a.Keys + b.Keys, na, a, nb, b)
  {
    var x := OneSided(na, a, nb, b, true);
    var y := OneSided(na, a, nb, b, false);
    var z := BothSides(na, a, nb, b);
    var onlyA, onlyB, both := a.Keys - b.Keys, b.Keys - a.Keys, a.Keys * b.Keys;
    ListsUnion(x, onlyA, y, onlyB, na, a, nb, b);
    ListsUnion(x + y, onlyA + onlyB, z, both, na, a, nb, b);
    assert onlyA + onlyB + both == a.Keys + b.Keys;
    out := x + y + z;
  }

  /** `compare_three_sources`. */
  method CompareThreeSources(alpaca: Source, pg: Source, nj: Source) returns (out: seq<Mismatch>)
    ensures forall m :: m in out <==> m in MismatchesOn(m.ticker, "alpaca", alpaca, "pg", pg)
                                      || m in MismatchesOn(m.ticker, "alpaca", alpaca, "nj_cache", nj)
                                      || m in MismatchesOn(m.ticker, "pg", pg, "nj_cache", nj)
    ensures out == [] <==> AllAgree(alpaca, pg, nj)
  {
    var ab := ComparePair("alpaca", alpaca, "pg", pg);
    var ac := ComparePair("alpaca", alpaca, "nj_cache", nj);
    var bc := ComparePair("pg", pg, "nj_cache", nj);
    out := ab + ac + bc;
    EmptyListMeansAgree(ab, "alpaca", alpaca, "pg", pg);
    EmptyListMeansAgree(ac, "alpaca", alpaca, "nj_cache", nj);
    EmptyListMeansAgree(bc, "pg", pg, "nj_cache", nj);
    AgreementIsThreePairs(alpaca, pg, nj);
  }

  /** Both sources hold the ticker or neither does, with equal quantities and prices within tolerance. */
  predicate TickerAgrees(t: string, a: Source, b: Source) {
    (t in a <==> t in b) && (t in a && t in b ==> a[t].qty == b[t].qty && !PricesDiffer(a[t], b[t]))
  }

  ghost predicate PairAgrees(a: Source, b: Source) {
    forall t :: TickerAgrees(t, a, b)
  }

  /** The same tickers, the same quantities, and all three price pairs within tolerance. */
  ghost predicate AllAgree(a: Source, b: Source, c: Source) {
    a.Keys == b.Keys == c.Keys
    && forall t :: t in a && t in b && t in c ==>
         a[t].qty == b[t].qty == c[t].qty
         && !PricesDiffer(a[t], b[t]) && !PricesDiffer(a[t], c[t]) && !PricesDiffer(b[t], c[t])
  }

  lemma EmptyListMeansAgree(out: seq<Mismatch>, na: string, a: Source, nb: string, b: Source)
    requires ListsExactly(out, a.Keys + b.Keys, na, a, nb, b)
    ensures out == [] <==> PairAgrees(a, b)
  {
    forall t
      ensures MismatchesOn(t, na, a, nb, b) == [] <==> TickerAgrees(t, a, b)
      ensures MismatchesOn(t, na, a, nb, b) != [] ==> out != []
    {
      var ms := MismatchesOn(t, na, a, nb, b);
      if ms != [] {
        assert ms[0] in ms && ms[0].ticker == t;
        assert ms[0] in out;
      }
    }
    if out != [] {
      assert out[0] in out && MismatchesOn(out[0].ticker, na, a, nb, b) != [];
    }
  }

  lemma AgreementIsThreePairs(a: Source, b: Source, c: Source)
    ensures AllAgree(a, b, c) <==> PairAgrees(a, b) && PairAgrees(a, c) && PairAgrees(b, c)
  {
    if AllAgree(a, b, c) {
      forall t ensures TickerAgrees(t, a, b) && TickerAgrees(t, a, c) && TickerAgrees(t, b, c) {
        assert t in a.Keys <==> t in b.Keys;
        assert t in b.Keys <==> t in c.Keys;
      }
    } else if PairAgrees(a, b) && PairAgrees(a, c) && PairAgrees(b, c) {
      forall t ensures (t in a.Keys <==> t in b.Keys) && (t in b.Keys <==> t in c.Keys) {
        assert TickerAgrees(t, a, b) && TickerAgrees(t, b, c);
      }
      forall t | t in a && t in b && t in c
        ensures TickerAgrees(t, a, b) && TickerAgrees(t, a, c) && TickerAgrees(t, b, c)
      {
      }
    }
  }

  /** The pair of sources disagrees on whether or how much of the ticker is held. */
  predicate PairReports(t: string, a: Source, b: Source) {
    (t in a) != (t in b) || (t in a && t in b && a[t].qty != b[t].qty)
  }

  /** What is listed about a ticker: one line that says which side holds it when only one does; when both do, one line with
      both quantities if they differ and one with both prices if these are more than half a cent apart; and nothing else. */
  lemma ListedExactly(t: string, na: string, a: Source, nb: string, b: Source, m: Mismatch)
    ensures m in MismatchesOn(t, na, a, nb, b)
            <==> m.sourceA == na && m.sourceB == nb && m.ticker == t
                 && match m.field
                    case Exists => (t in a) != (t in b) && m.valueA == (if t in a then Present else Absent)
                                   && m.valueB == (if t in b then Present else Absent)
                    case Qty => t in a && t in b && a[t].qty != b[t].qty && m.valueA == QtyOf(a[t].qty) && m.valueB == QtyOf(b[t].qty)
                    case AvgEntryPrice => t in a && t in b && (a[t].avg - b[t].avg > 0.005 || b[t].avg - a[t].avg > 0.005)
                                          && m.valueA == PriceOf(a[t].avg) && m.valueB == PriceOf(b[t].avg)
  {
  }

  /** One of the two sources holds the ticker and the other does not. */
  predicate PresenceDiffers(t: string, a: Source, b: Source) { (t in a) != (t in b) }

  /** `PairReports` is what the lists show: an "exists" or "qty" mismatch on the ticker; `PresenceDiffers` the former. */
  lemma ReportsAreListed(t: string, na: string, a: Source, nb: string, b: Source)
    ensures PairReports(t, a, b) <==> exists m :: m in MismatchesOn(t, na, a, nb, b) && (m.field == Exists || m.field == Qty)
    ensures PresenceDiffers(t, a, b) <==> exists m :: m in MismatchesOn(t, na, a, nb, b) && m.field == Exists
  {
    if PairReports(t, a, b) {
      var ms := MismatchesOn(t, na, a, nb, b);
      assert ms[0] in ms && (ms[0].field == Exists || ms[0].field == Qty);
    }
  }

  function Tally(x: bool, y: bool, z: bool): nat {
    (if x then 1 else 0) + (if y then 1 else 0) + if z then 1 else 0
  }

  /** A ticker whose presence or quantity is not common to all three sources is reported by at least two of the three
      pairs, and its presence, when not common, by exactly two. So no single pair can be dropped without still being seen. */
  lemma DivergenceSeenTwice(t: string, a: Source, b: Source, c: Source)
    ensures var n := Tally(PairReports(t, a, b), PairReports(t, a, c), PairReports(t, b, c));
            n != 1 && (n == 0 <==> (t in a <==> t in b) && (t in b <==> t in c)
                                   && (t in a && t in b && t in c ==> a[t].qty == b[t].qty == c[t].qty))
    ensures var e := Tally(PresenceDiffers(t, a, b), PresenceDiffers(t, a, c), PresenceDiffers(t, b, c));
            e == if (t in a <==> t in b) && (t in b <==> t in c) then 0 else 2
  {
  }

  /** Two clean pairs bound the third pair's price gap by twice the tolerance. */
  lemma TwoCleanPairsBoundTheThird(a: Source, b: Source, c: Source)
    requires PairAgrees(a, b) && PairAgrees(a, c)
    ensures b.Keys == c.Keys
    ensures forall t :: t in b && t in c ==> b[t].qty == c[t].qty && Abs(b[t].avg - c[t].avg) <= 2.0 * PRICE_TOLERANCE
  {
    forall t | t in b && t in c
      ensures b[t].qty == c[t].qty && Abs(b[t].avg - c[t].avg) <= 2.0 * PRICE_TOLERANCE
    {
      assert TickerAgrees(t, a, b) && TickerAgrees(t, a, c);
    }
    forall t ensures t in b.Keys <==> t in c.Keys {
      assert TickerAgrees(t, a, b) && TickerAgrees(t, a, c);
    }
  }

  /** No better bound holds, so the third comparison is not implied by the other two. */
  lemma ThirdPairIsNotRedundant(t: string)
    ensures exists a: Source, b: Source, c: Source :: PairAgrees(a, b) && PairAgrees(a, c) && !PairAgrees(b, c) && t in b && t in c
                              && Abs(b[t].avg - c[t].avg) == 2.0 * PRICE_TOLERANCE
  {
    var a: Source, b: Source, c: Source := map[t := Holding(1, 10.0)], map[t := Holding(1, 10.005)], map[t := Holding(1, 9.995)];
    assert PricesDiffer(b[t], c[t]);
    assert !TickerAgrees(t, b, c);
    assert PairAgrees(a, b) && PairAgrees(a, c) && !PairAgrees(b, c);
  }

  // ----- no false alarms from aggregation

  function AsSource(m: map<string, Positions.Entry>): Source {
    map t | t in m :: Holding(m[t].qty, m[t].avg)
  }

  /** Broker lots and open trades of one sign per ticker: the comparison sees their totals only.
      It is clean exactly when every ticker's quantities are equal and its costs differ by at most
      the tolerance per share, however the positions are ordered or split over accounts and trades. */
  lemma ComparisonReadsTotalsOnly(x: map<string, Positions.Entry>, xs: seq<Positions.Lot>,
                                  y: map<string, Positions.Entry>, ys: seq<Positions.Lot>)
    requires Positions.Summarises(x, xs) && Positions.Summarises(y, ys)
    requires forall t :: Positions.OneSign(Positions.LotsOf(xs, t)) && Positions.OneSign(Positions.LotsOf(ys, t))
    ensures PairAgrees(AsSource(x), AsSource(y)) <==> forall t :: SameTotals(t, xs, ys)
  {
    if PairAgrees(AsSource(x), AsSource(y)) {
      forall t ensures SameTotals(t, xs, ys) {
        assert TickerAgrees(t, AsSource(x), AsSource(y));
        TickerReadsTotals(t, x, xs, y, ys);
      }
    } else {
      var t :| !TickerAgrees(t, AsSource(x), AsSource(y));
      TickerReadsTotals(t, x, xs, y, ys);
    }
  }

  lemma TickerReadsTotals(t: string, x: map<string, Positions.Entry>, xs: seq<Positions.Lot>,
                          y: map<string, Positions.Entry>, ys: seq<Positions.Lot>)
    requires Positions.Summarises(x, xs) && Positions.Summarises(y, ys)
    requires Positions.OneSign(Positions.LotsOf(xs, t)) && Positions.OneSign(Positions.LotsOf(ys, t))
    ensures TickerAgrees(t, AsSource(x), AsSource(y)) <==> SameTotals(t, xs, ys)
  {
    Positions.OneSignEntry(x, xs, t);
    Positions.OneSignEntry(y, ys, t);
    assert t in AsSource(x) <==> t in x;
    assert t in AsSource(y) <==> t in y;
    if t in x && t in y && x[t].qty == y[t].qty {
      GapPerShare(x[t].qty as real, x[t].avg, y[t].avg);
    } else if t !in x && t !in y {
      assert Positions.LotsOf(xs, t) == [] && Positions.LotsOf(ys, t) == [];
    }
  }

  ghost predicate SameTotals(t: string, xs: seq<Positions.Lot>, ys: seq<Positions.Lot>) {
    var q, q' := Positions.TotalQty(Positions.LotsOf(xs, t)), Positions.TotalQty(Positions.LotsOf(ys, t));
    q == q' && Abs(Positions.TotalCost(Positions.LotsOf(xs, t)) - Positions.TotalCost(Positions.LotsOf(ys, t)))
               <= Times(PRICE_TOLERANCE, Abs(q as real))
  }

  lemma GapPerShare(q: real, x: real, y: real)
    requires q != 0.0
    ensures Abs(x - y) <= PRICE_TOLERANCE <==> Abs(Times(q, x) - Times(q, y)) <= Times(PRICE_TOLERANCE, Abs(q))
  {
    var g, k := Abs(x - y), Abs(q);
    assert Times(q, x) - Times(q, y) == q * (x - y);
    assert Abs(q * (x - y)) == k * g by {
      assert q * (x - y) == k * g || q * (x - y) == -(k * g);
      assert k * g >= 0.0;
    }
    var slack := PRICE_TOLERANCE - g;
    assert Times(k, slack) == Times(PRICE_TOLERANCE, k) - k * g;
    if slack > 0.0 {
      TimesPositive(k, slack);
    } else if slack < 0.0 {
      TimesPositive(k, -slack);
      assert Times(k, -slack) == -Times(k, slack);
    }
  }
}
