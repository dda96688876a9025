/** The trailing-stop monitor: one check per price, with the water mark persisted between checks. */
module TrailingStop {
  import opened Options
  import opened Sums

  const STOP_LOSS_PCT := 0.05
  const MAX_HOLD_DAYS := 60

  datatype Side = Buy | Sell | Unknown(name: string)

  datatype Action = Hold | StopLoss | ProfitTarget | MaxHold

  datatype RiskCheck = RiskCheck(waterMark: real, stopLevel: real, pnlPct: real, action: Action)

  /** `_get_water_mark`: the stored mark, or the entry price when there is none. */
  function Mark(stored: Option<real>, entry: real): real {
    if stored.Some? then stored.value else entry
  }

  /** The price is further in the trade's favour than the mark. */
  predicate Better(side: Side, price: real, mark: real) {
    (side.Buy? && price > mark) || (side.Sell? && price < mark)
  }

  function Improved(side: Side, price: real, mark: real): real {
    if Better(side, price, mark) then price else mark
  }

  function StopLevel(side: Side, mark: real): real {
    match side
    case Buy => mark * (1.0 - STOP_LOSS_PCT)
    case Sell => mark * (1.0 + STOP_LOSS_PCT)
    case Unknown(_) => 0.0
  }

  function PnlPct(side: Side, entry: real, price: real): real
    requires entry != 0.0
  {
    match side
    case Buy => (price - entry) / entry
    case Sell => (entry - price) / entry
    case Unknown(_) => 0.0
  }

  /** The stop test, made after the mark has been moved. */
  predicate StopHit(side: Side, price: real, stored: Option<real>, entry: real) {
    var level := StopLevel(side, Improved(side, price, Mark(stored, entry)));
    (side.Buy? && price <= level) || (side.Sell? && price >= level)
  }

  predicate TargetHit(side: Side, price: real, entry: real, target: real)
    requires entry != 0.0
  {
    !side.Unknown? && PnlPct(side, entry, price) >= target
  }

  /** The action of one check: age first, then stop, then target. */
  function Decide(side: Side, entry: real, stored: Option<real>, price: real, target: real, ageDays: int): Action
    requires entry != 0.0
  {
    if side.Unknown? then Hold
    else if ageDays >= MAX_HOLD_DAYS then MaxHold
    else if StopHit(side, price, stored, entry) then StopLoss
    else if TargetHit(side, price, entry, target) then ProfitTarget
    else Hold
  }

  /** What a persisted check leaves in the trade's metadata. */
  function Persisted(side: Side, entry: real, stored: Option<real>, price: real): Option<real> {
    if Better(side, price, Mark(stored, entry)) then Some(price) else stored
  }

  /** The check has a better mark to write and the write fails. */
  predicate LosesWrite(side: Side, entry: real, stored: Option<real>, c: Check) {
    Better(side, c.price, Mark(stored, entry)) && !c.writeOk
  }

  /** One look at the market; `writeOk` is whether the database would take a new mark. */
  datatype Check = Check(price: real, writeOk: bool)

  /** The check raises instead of answering: it had a mark to write and its write failed. */
  predicate Raises(side: Side, entry: real, stored: Option<real>, c: Check, persist: bool) {
    persist && LosesWrite(side, entry, stored, c)
  }

  /** An open `paper_trades` row, as far as the monitor reads and writes it. The table's check constraint keeps its
      entry price positive. */
  class OpenTrade {
    const side: Side
    const entryPrice: real
    var storedMark: Option<real>

    constructor (side: Side, entryPrice: real, storedMark: Option<real>)
      ensures this.side == side && this.entryPrice == entryPrice && this.storedMark == storedMark
    {
      this.side, this.entryPrice, this.storedMark := side, entryPrice, storedMark;
    }

    /** `_persist_water_mark`; false is its exception. */
    method PersistWaterMark(mark: real, writeOk: bool) returns (ok: bool)
      modifies this`storedMark
      ensures ok == writeOk && storedMark == if writeOk then Some(mark) else old(storedMark)
    {
      if writeOk {
        storedMark := Some(mark);
      }
      ok := writeOk;
    }

    /** `evaluate_trade`; None is its exception. The mark is written before the return is computed. */
    method Evaluate(c: Check, target: real, ageDays: int, persist: bool) returns (r: Option<RiskCheck>)
      requires entryPrice > 0.0
      modifies this`storedMark
      ensures storedMark == if persist && c.writeOk then Persisted(side, entryPrice, old(storedMark), c.price) else old(storedMark)
      ensures r.None? <==> Raises(side, entryPrice, old(storedMark), c, persist)
      ensures r.Some? && !side.Unknown? ==>
                r.value.waterMark == Improved(side, c.price, Mark(old(storedMark), entryPrice))
                && r.value.stopLevel == StopLevel(side, r.value.waterMark)
                && r.value.pnlPct == PnlPct(side, entryPrice, c.price)
                && r.value.action == Decide(side, entryPrice, old(storedMark), c.price, target, ageDays)
      ensures side.Unknown? ==> r == Some(RiskCheck(Mark(old(storedMark), entryPrice), 0.0, 0.0, Hold))
    {
      var price, ok := c.price, true;
      var wm := if storedMark.Some? then storedMark.value else entryPrice;
      var stop, pnl: real;
      match side {
        case Buy =>
          if price > wm {
            wm := price;
            if persist { ok := PersistWaterMark(wm, c.writeOk); }
          }
          if !ok {
            return None;
          }
          stop := wm * (1.0 - STOP_LOSS_PCT);
          pnl := (price - entryPrice) / entryPrice;
        case Sell =>
          if price < wm {
            wm := price;
            if persist { ok := PersistWaterMark(wm, c.writeOk); }
          }
          if !ok {
            return None;
          }
          stop := wm * (1.0 + STOP_LOSS_PCT);
          pnl := (entryPrice - price) / entryPrice;
        case Unknown(_) =>
          return Some(RiskCheck(wm, 0.0, 0.0, Hold));
      }
      if ageDays >= MAX_HOLD_DAYS {
        return Some(RiskCheck(wm, stop, pnl, MaxHold));
      }
      if side.Buy? && price <= stop {
        return Some(RiskCheck(wm, stop, pnl, StopLoss));
      }
      if side.Sell? && price >= stop {
        return Some(RiskCheck(wm, stop, pnl, StopLoss));
      }
      if pnl >= target {
        return Some(RiskCheck(wm, stop, pnl, ProfitTarget));
      }
      return Some(RiskCheck(wm, stop, pnl, Hold));
    }
  }

  // ----- whole runs: the monitor checks a path of prices, from whatever mark the trade was opened with

  /** The stored mark after the checks, oldest first, from the mark `start`. */
  function StoredAfter(side: Side, entry: real, start: Option<real>, checks: seq<Check>): Option<real> {
    if |checks| == 0 then start
    else
      var n := |checks|;
      var before := StoredAfter(side, entry, start, checks[..n - 1]);
      if checks[n - 1].writeOk then Persisted(side, entry, before, checks[n - 1].price) else before
  }

  function MarkAfter(side: Side, entry: real, start: Option<real>, checks: seq<Check>): real {
    Mark(StoredAfter(side, entry, start, checks), entry)
  }

  /** x is the best of the opening mark and the prices whose write would go through. */
  ghost predicate IsBest(side: Side, first: real, checks: seq<Check>, x: real) {
    (x == first || exists i :: 0 <= i < |checks| && checks[i].writeOk && checks[i].price == x)
    && !Better(side, first, x) && forall i :: 0 <= i < |checks| && checks[i].writeOk ==> !Better(side, checks[i].price, x)
  }

  /** The persisted mark is the running maximum (minimum for shorts) of the mark the trade was opened with and all
      checked prices but those whose write was lost. */
  lemma {:induction false} MarkIsRunningBest(side: Side, entry: real, start: Option<real>, checks: seq<Check>)
    requires !side.Unknown?
    ensures IsBest(side, Mark(start, entry), checks, MarkAfter(side, entry, start, checks))
  {
    var n := |checks|;
    if n > 0 {
      var front := checks[..n - 1];
      MarkIsRunningBest(side, entry, start, front);
      var m, m' := MarkAfter(side, entry, start, front), MarkAfter(side, entry, start, checks);
      forall i | 0 <= i < n && checks[i].writeOk ensures !Better(side, checks[i].price, m') {
        if i < n - 1 {
          assert checks[i] == front[i];
        }
      }
      if m' == m && m != Mark(start, entry) {
        var i :| 0 <= i < |front| && front[i].writeOk && front[i].price == m;
        assert checks[i] == front[i];
      } else if m' != m {
        assert checks[n - 1].writeOk && checks[n - 1].price == m';
      }
    }
  }

  /** Checking more prices never loosens the stop. */
  lemma StopNeverLoosens(side: Side, entry: real, start: Option<real>, earlier: seq<Check>, later: seq<Check>)
    requires !side.Unknown? && earlier <= later
    ensures var s, t := StopLevel(side, MarkAfter(side, entry, start, earlier)), StopLevel(side, MarkAfter(side, entry, start, later));
            if side.Buy? then s <= t else s >= t
  {
    MarkIsRunningBest(side, entry, start, earlier);
    MarkIsRunningBest(side, entry, start, later);
    var m := MarkAfter(side, entry, start, earlier);
    if m != Mark(start, entry) {
      var i :| 0 <= i < |earlier| && earlier[i].writeOk && earlier[i].price == m;
      assert later[i] == earlier[i];
    }
  }

  /** The same path had every write gone through. */
  function AllWritten(checks: seq<Check>): (r: seq<Check>)
    ensures |r| == |checks| && forall i :: 0 <= i < |checks| ==> r[i] == Check(checks[i].price, true)
  {
    seq(|checks|, i requires 0 <= i < |checks| => Check(checks[i].price, true))
  }

  /** A lost write leaves the stop looser than the path's best price calls for, exactly while some checked price
      is still better than the stored mark. */
  lemma LostWriteLoosensExactly(side: Side, entry: real, start: Option<real>, checks: seq<Check>)
    requires !side.Unknown?
    ensures var m, best := MarkAfter(side, entry, start, checks), MarkAfter(side, entry, start, AllWritten(checks));
            !Better(side, m, best)
            && (Better(side, best, m) <==> exists i :: 0 <= i < |checks| && Better(side, checks[i].price, m))
  {
    var all := AllWritten(checks);
    MarkIsRunningBest(side, entry, start, checks);
    MarkIsRunningBest(side, entry, start, all);
    var m, best := MarkAfter(side, entry, start, checks), MarkAfter(side, entry, start, all);
    if m != Mark(start, entry) {
      var i :| 0 <= i < |checks| && checks[i].writeOk && checks[i].price == m;
      assert all[i].price == m;
    }
    if Better(side, best, m) {
      var i :| 0 <= i < |all| && all[i].price == best;
      assert Better(side, checks[i].price, m);
    }
    if i :| 0 <= i < |checks| && Better(side, checks[i].price, m) {
      assert !Better(side, all[i].price, best);
    }
  }

  /** Division removed: a return of at least t is a price at least (at most, for shorts) entry * (1 +- t). */
  lemma PnlThreshold(side: Side, entry: real, price: real, t: real)
    requires entry > 0.0 && !side.Unknown?
    ensures side.Buy? ==> (PnlPct(side, entry, price) >= t <==> price >= entry + Times(entry, t))
    ensures side.Sell? ==> (PnlPct(side, entry, price) >= t <==> price <= entry - Times(entry, t))
  {
    var pnl := PnlPct(side, entry, price);
    var move := if side.Buy? then price - entry else entry - price;
    DivideBack(move, entry);
    var gap := pnl - t;
    assert Times(entry, gap) == Times(entry, pnl) - Times(entry, t) == move - Times(entry, t);
    if gap > 0.0 {
      TimesPositive(entry, gap);
    } else if gap < 0.0 {
      TimesPositive(entry, -gap);
      assert Times(entry, -gap) == -Times(entry, gap);
    }
  }

  /** A check that holds, after any path: the price is within 5% of the opening mark and of every price whose write
      went through, and the return on entry is below the target. */
  lemma HoldStaysNearBest(side: Side, entry: real, start: Option<real>, checks: seq<Check>, price: real, target: real, ageDays: int)
    requires entry > 0.0 && price > 0.0 && !side.Unknown?
    requires Mark(start, entry) > 0.0 && forall i :: 0 <= i < |checks| ==> checks[i].price > 0.0
    requires Decide(side, entry, StoredAfter(side, entry, start, checks), price, target, ageDays) == Hold
    ensures ageDays < MAX_HOLD_DAYS && PnlPct(side, entry, price) < target
    ensures Near(side, price, Mark(start, entry))
    ensures forall i :: 0 <= i < |checks| && checks[i].writeOk ==> Near(side, price, checks[i].price)
  {
    MarkIsRunningBest(side, entry, start, checks);
  }

  predicate Near(side: Side, price: real, best: real) {
    if side.Buy? then price > 0.95 * best else price < 1.05 * best
  }

  /** The stored mark has caught up with the entry price. */
  predicate CaughtUp(side: Side, entry: real, mark: real) { !Better(side, entry, mark) }

  /** Every price at which a check would hold keeps the return above -5%. */
  ghost predicate FloorHolds(side: Side, entry: real, stored: Option<real>, target: real, ageDays: int)
    requires entry > 0.0
  {
    forall price :: price > 0.0 && Decide(side, entry, stored, price, target, ageDays) == Hold ==>
                      PnlPct(side, entry, price) > -STOP_LOSS_PCT
  }

  /** The -5% floor on holds is there exactly once the mark has caught up with the entry price. */
  lemma FloorExactlyWhenCaughtUp(side: Side, entry: real, stored: Option<real>, target: real, ageDays: int)
    requires entry > 0.0 && Mark(stored, entry) > 0.0 && !side.Unknown? && target > -STOP_LOSS_PCT && ageDays < MAX_HOLD_DAYS
    ensures FloorHolds(side, entry, stored, target, ageDays) <==> CaughtUp(side, entry, Mark(stored, entry))
  {
    var m := Mark(stored, entry);
    if CaughtUp(side, entry, m) {
      forall price | price > 0.0 && Decide(side, entry, stored, price, target, ageDays) == Hold
        ensures PnlPct(side, entry, price) > -STOP_LOSS_PCT
      {
        PnlThreshold(side, entry, price, -STOP_LOSS_PCT);
        PnlNotAt(entry, if side.Buy? then price - entry else entry - price, -STOP_LOSS_PCT);
      }
    } else {
      var p := if side.Buy? then 0.95 * entry else 1.05 * entry;
      assert Times(entry, -STOP_LOSS_PCT) == -(STOP_LOSS_PCT * entry);
      PnlThreshold(side, entry, p, target);
      AboveFloor(entry, target);
      assert Decide(side, entry, stored, p, target, ageDays) == Hold;
      FloorPrice(side, entry, p);
    }
  }

  lemma FloorPrice(side: Side, entry: real, p: real)
    requires entry > 0.0 && !side.Unknown? && p == if side.Buy? then 0.95 * entry else 1.05 * entry
    ensures PnlPct(side, entry, p) == -STOP_LOSS_PCT
  {
    CancelFactor(entry, -STOP_LOSS_PCT);
    assert Times(entry, -STOP_LOSS_PCT) == -(STOP_LOSS_PCT * entry);
  }

  /** Along any path from any opening mark: the floor is there exactly when that mark was no worse than the entry price,
      or some price whose write went through has been no worse. */
  lemma FloorAfterPath(side: Side, entry: real, start: Option<real>, checks: seq<Check>, target: real, ageDays: int)
    requires entry > 0.0 && !side.Unknown? && target > -STOP_LOSS_PCT && ageDays < MAX_HOLD_DAYS
    requires Mark(start, entry) > 0.0 && forall i :: 0 <= i < |checks| ==> checks[i].price > 0.0
    ensures FloorHolds(side, entry, StoredAfter(side, entry, start, checks), target, ageDays)
            <==> CaughtUp(side, entry, Mark(start, entry))
                 || exists i :: 0 <= i < |checks| && checks[i].writeOk && CaughtUp(side, entry, checks[i].price)
  {
    MarkIsRunningBest(side, entry, start, checks);
    var m := MarkAfter(side, entry, start, checks);
    FloorExactlyWhenCaughtUp(side, entry, StoredAfter(side, entry, start, checks), target, ageDays);
    if m != Mark(start, entry) && CaughtUp(side, entry, m) {
      var i :| 0 <= i < |checks| && checks[i].writeOk && checks[i].price == m;
      assert CaughtUp(side, entry, checks[i].price);
    }
    if i :| 0 <= i < |checks| && checks[i].writeOk && CaughtUp(side, entry, checks[i].price) {
      assert !Better(side, checks[i].price, m);
    }
  }

  /** Quoted at 90, filled at 100: a check at 86 holds, 14% down. */
  lemma FloorFailsBelowFill()
    ensures Decide(Buy, 100.0, Some(90.0), 86.0, 0.1325, 0) == Hold && PnlPct(Buy, 100.0, 86.0) == -0.14
  {
  }

  lemma PnlNotAt(entry: real, move: real, t: real)
    requires entry > 0.0
    ensures move / entry == t ==> move == Times(entry, t)
  {
    DivideBack(move, entry);
  }

  /** Every check along the path so far answered "hold" or raised. */
  ghost predicate HeldThroughout(side: Side, entry: real, start: Option<real>, checks: seq<Check>, target: real)
    requires entry > 0.0
  {
    forall i :: 0 <= i < |checks| ==> Passes(side, entry, StoredAfter(side, entry, start, checks[..i]), checks[i], target)
  }

  predicate Passes(side: Side, entry: real, stored: Option<real>, c: Check, target: real)
    requires entry > 0.0
  {
    LosesWrite(side, entry, stored, c) || (!StopHit(side, c.price, stored, entry) && !TargetHit(side, c.price, entry, target))
  }

  /** Some price would hit the stop and the target at once, so that their order decides. */
  ghost predicate OrderMatters(side: Side, entry: real, stored: Option<real>, target: real)
    requires entry > 0.0
  {
    exists price :: price > 0.0 && StopHit(side, price, stored, entry) && TargetHit(side, price, entry, target)
  }

  /** The stop level of this mark is already past the target price. */
  predicate PastTarget(side: Side, entry: real, mark: real, target: real) {
    if side.Buy? then 0.95 * mark >= entry + Times(entry, target) else 1.05 * mark <= entry - Times(entry, target)
  }

  /** After nothing but holds, stop and target can be due together exactly when they could at the opening mark:
      its stop level was past the target price from the start. */
  lemma OrderMattersAfterHoldsExactlyWhen(side: Side, entry: real, start: Option<real>, checks: seq<Check>, target: real)
    requires entry > 0.0 && !side.Unknown?
    requires Mark(start, entry) > 0.0 && forall i :: 0 <= i < |checks| ==> checks[i].price > 0.0
    requires HeldThroughout(side, entry, start, checks, target)
    ensures OrderMatters(side, entry, StoredAfter(side, entry, start, checks), target)
            <==> PastTarget(side, entry, Mark(start, entry), target)
  {
    MarkIsRunningBest(side, entry, start, checks);
    var m := MarkAfter(side, entry, start, checks);
    OrderMattersExactlyWhen(side, entry, StoredAfter(side, entry, start, checks), target);
    if m != Mark(start, entry) {
      var i :| 0 <= i < |checks| && checks[i].writeOk && checks[i].price == m;
      assert Passes(side, entry, StoredAfter(side, entry, start, checks[..i]), checks[i], target);
      PnlThreshold(side, entry, m, target);
    }
  }

  /** In particular never, when the trade was opened at a mark no better than its entry price and the target is sane. */
  lemma StopAndTargetExclusive(side: Side, entry: real, start: Option<real>, checks: seq<Check>, target: real)
    requires entry > 0.0 && !side.Unknown? && target > -STOP_LOSS_PCT && !Better(side, Mark(start, entry), entry)
    requires Mark(start, entry) > 0.0 && forall i :: 0 <= i < |checks| ==> checks[i].price > 0.0
    requires HeldThroughout(side, entry, start, checks, target)
    ensures !OrderMatters(side, entry, StoredAfter(side, entry, start, checks), target)
  {
    OrderMattersAfterHoldsExactlyWhen(side, entry, start, checks, target);
    AboveFloor(entry, target);
  }

  /** Quoted at 120, filled at 100: the first check, at 112, finds the stop and the target both due. */
  lemma BothDueAboveFill()
    ensures StopHit(Buy, 112.0, Some(120.0), 100.0) && TargetHit(Buy, 112.0, 100.0, 0.10)
    ensures Decide(Buy, 100.0, Some(120.0), 112.0, 0.10, 0) == StopLoss
  {
  }

  lemma AboveFloor(entry: real, target: real)
    requires entry > 0.0 && target > -STOP_LOSS_PCT
    ensures Times(entry, target) > -(STOP_LOSS_PCT * entry)
  {
    var gap := target + STOP_LOSS_PCT;
    TimesPositive(entry, gap);
    assert Times(entry, gap) == Times(entry, target) + STOP_LOSS_PCT * entry;
  }

  /** For an arbitrary stored mark the order matters exactly when the stop level has passed the target price. */
  lemma OrderMattersExactlyWhen(side: Side, entry: real, stored: Option<real>, target: real)
    requires entry > 0.0 && Mark(stored, entry) > 0.0 && !side.Unknown?
    ensures OrderMatters(side, entry, stored, target) <==> PastTarget(side, entry, Mark(stored, entry), target)
  {
    var mark := Mark(stored, entry);
    var p := StopLevel(side, mark);
    PnlThreshold(side, entry, p, target);
    forall price | price > 0.0 && StopHit(side, price, stored, entry) && TargetHit(side, price, entry, target)
      ensures PastTarget(side, entry, mark, target)
    {
      PnlThreshold(side, entry, price, target);
    }
    if PastTarget(side, entry, mark, target) {
      assert p > 0.0 && StopHit(side, p, stored, entry) && TargetHit(side, p, entry, target);
    }
  }

  /** What a check answers, in prices: from day sixty on that the age limit is reached; before it, a stop when the price is at
      5% below the best of the mark and itself or beyond (above, for shorts), else the target when the price has made it. */
  lemma AnswersInPrices(side: Side, entry: real, stored: Option<real>, price: real, target: real, ageDays: int)
    requires entry > 0.0
    ensures var action, mark := Decide(side, entry, stored, price, target, ageDays), if stored.Some? then stored.value else entry;
            match side
            case Buy =>
              var best := if price > mark then price else mark;
              action == (if ageDays >= 60 then MaxHold
                         else if price <= 0.95 * best then StopLoss
                         else if price >= entry + Times(entry, target) then ProfitTarget
                         else Hold)
            case Sell =>
              var best := if price < mark then price else mark;
              action == (if ageDays >= 60 then MaxHold
                         else if price >= 1.05 * best then StopLoss
                         else if price <= entry - Times(entry, target) then ProfitTarget
                         else Hold)
            case Unknown(_) => action == Hold
  {
    if !side.Unknown? {
      PnlThreshold(side, entry, price, target);
    }
  }

  // ----- the strategy that ignores the age limit

  /** One pass of sector rotation over a trade: the check, the trade's age, and whether its closing order and row go through. */
  datatype Pass = Pass(check: Check, ageDays: int, closeOk: bool)

  /** The pass closes the trade: only on a stop or a target, because a `max_hold` answer is skipped. */
  predicate ClosesTrade(side: Side, entry: real, stored: Option<real>, p: Pass, target: real)
    requires entry > 0.0
  {
    var action := Decide(side, entry, stored, p.check.price, target, p.ageDays);
    !Raises(side, entry, stored, p.check, true) && (action == StopLoss || action == ProfitTarget) && p.closeOk
  }

  /** How many passes the trade stays open for; all of them if none closes it. */
  function OpenFor(side: Side, entry: real, stored: Option<real>, passes: seq<Pass>, target: real): (n: nat)
    requires entry > 0.0
    ensures n <= |passes|
    decreases |passes|
  {
    if passes == [] || ClosesTrade(side, entry, stored, passes[0], target) then 0
    else
      var c := passes[0].check;
      1 + OpenFor(side, entry, if c.writeOk then Persisted(side, entry, stored, c.price) else stored, passes[1..], target)
  }

  /** `_risk_check_open_trades` for one trade, pass after pass; a pass that raises is over. */
  method WatchTrade(trade: OpenTrade, passes: seq<Pass>, target: real) returns (n: nat)
    requires trade.entryPrice > 0.0
    modifies trade
    ensures n == OpenFor(trade.side, trade.entryPrice, old(trade.storedMark), passes, target)
  {
    n := 0;
    assert passes[0..] == passes;
    while n < |passes|
      invariant n <= |passes|
      invariant OpenFor(trade.side, trade.entryPrice, old(trade.storedMark), passes, target)
             == n + OpenFor(trade.side, trade.entryPrice, trade.storedMark, passes[n..], target)
    {
      var p := passes[n];
      assert passes[n..][0] == p && passes[n..][1..] == passes[n + 1..];
      var r := trade.Evaluate(p.check, target, p.ageDays, true);
      if r.Some? && r.value.action != Hold && r.value.action != MaxHold && p.closeOk {
        return;
      }
      n := n + 1;
    }
  }

  function Checks(passes: seq<Pass>): (checks: seq<Check>)
    ensures |checks| == |passes| && forall i :: 0 <= i < |passes| ==> checks[i] == passes[i].check
  {
    seq(|passes|, i requires 0 <= i < |passes| => passes[i].check)
  }

  /** With the mark the checks before it have left, pass k can close the trade: its check answers "stop" or "target" without
      raising, and its closing order and row go through. */
  ghost predicate Closing(side: Side, entry: real, start: Option<real>, passes: seq<Pass>, k: nat, target: real)
    requires entry > 0.0 && k < |passes|
  {
    var stored, p := StoredAfter(side, entry, start, Checks(passes)[..k]), passes[k];
    p.closeOk && (Better(side, p.check.price, Mark(stored, entry)) ==> p.check.writeOk)
    && Decide(side, entry, stored, p.check.price, target, p.ageDays) in {StopLoss, ProfitTarget}
  }

  lemma {:induction false} StoredAfterFirst(side: Side, entry: real, start: Option<real>, checks: seq<Check>)
    requires checks != []
    ensures var c := checks[0];
            StoredAfter(side, entry, start, checks)
            == StoredAfter(side, entry, if c.writeOk then Persisted(side, entry, start, c.price) else start, checks[1..])
  {
    hide Persisted;
    if |checks| > 1 {
      StoredAfterFirst(side, entry, start, checks[..|checks| - 1]);
      assert checks[..|checks| - 1][1..] == checks[1..][..|checks| - 2];
    } else {
      assert checks[..0] == [] && checks[1..] == [];
    }
  }

  lemma ClosingShift(side: Side, entry: real, start: Option<real>, passes: seq<Pass>, k: nat, target: real)
    requires entry > 0.0 && 0 < k < |passes|
    ensures var c := passes[0].check;
            Closing(side, entry, start, passes, k, target)
            <==> Closing(side, entry, if c.writeOk then Persisted(side, entry, start, c.price) else start, passes[1..], k - 1, target)
  {
    hide Decide;
    hide Better;
    hide Persisted;
    assert Checks(passes)[..k][1..] == Checks(passes[1..])[..k - 1];
    StoredAfterFirst(side, entry, start, Checks(passes)[..k]);
  }

  /** The trade is open until the first pass that can close it. */
  lemma {:induction false} OpenUntilFirstClosing(side: Side, entry: real, start: Option<real>, passes: seq<Pass>, target: real)
    requires entry > 0.0
    ensures var n := OpenFor(side, entry, start, passes, target);
            (n < |passes| ==> Closing(side, entry, start, passes, n, target))
            && forall k: nat :: k < n ==> !Closing(side, entry, start, passes, k, target)
    decreases |passes|
  {
    hide Decide;
    hide Better;
    hide Persisted;
    if passes != [] {
      ClosingFirst(side, entry, start, passes, target);
      hide Closing;
      hide ClosesTrade;
      var c := passes[0].check;
      var next := if c.writeOk then Persisted(side, entry, start, c.price) else start;
      OpenUntilFirstClosing(side, entry, next, passes[1..], target);
      forall k: nat | 0 < k < |passes|
        ensures Closing(side, entry, start, passes, k, target) <==> Closing(side, entry, next, passes[1..], k - 1, target)
      {
        ClosingShift(side, entry, start, passes, k, target);
      }
    }
  }

  lemma ClosingFirst(side: Side, entry: real, start: Option<real>, passes: seq<Pass>, target: real)
    requires entry > 0.0 && passes != []
    ensures Closing(side, entry, start, passes, 0, target) <==> ClosesTrade(side, entry, start, passes[0], target)
  {
    assert Checks(passes)[..0] == [];
  }

  /** A pass can find its stop hit exactly while the trade is younger than sixty days. */
  lemma StopHeededExactlyWhileYoung(side: Side, entry: real, stored: Option<real>, target: real, ageDays: int)
    requires entry > 0.0 && Mark(stored, entry) > 0.0 && !side.Unknown?
    ensures (exists price :: price > 0.0 && ClosesTrade(side, entry, stored, Pass(Check(price, true), ageDays, true), target))
            <==> ageDays < MAX_HOLD_DAYS
  {
    if ageDays < MAX_HOLD_DAYS {
      var price := StopLevel(side, Mark(stored, entry));
      assert StopHit(side, price, stored, entry);
      assert ClosesTrade(side, entry, stored, Pass(Check(price, true), ageDays, true), target);
    }
  }

  predicate AllOld(passes: seq<Pass>) { forall i :: 0 <= i < |passes| ==> passes[i].ageDays >= MAX_HOLD_DAYS }

  /** So from day sixty on nothing a pass sees matters: the trade stays open over all passes exactly when it did over the
      young ones, and if it was closed, one of those closed it. Its stop is gone, however far the price falls. */
  lemma {:induction false} OldPassesCloseNothing(side: Side, entry: real, stored: Option<real>, passes: seq<Pass>, target: real, young: nat)
    requires entry > 0.0 && young <= |passes| && AllOld(passes[young..])
    ensures var n := OpenFor(side, entry, stored, passes, target);
            if OpenFor(side, entry, stored, passes[..young], target) == young then n == |passes|
            else n == OpenFor(side, entry, stored, passes[..young], target)
    decreases |passes|
  {
    hide ClosesTrade;
    hide Persisted;
    hide AllOld;
    if young == 0 {
      assert passes[0..] == passes;
      OldPassesHold(side, entry, stored, passes, target);
      assert passes[..0] == [];
    } else {
      var c := passes[0].check;
      var next := if c.writeOk then Persisted(side, entry, stored, c.price) else stored;
      assert passes[1..][young - 1..] == passes[young..];
      OldPassesCloseNothing(side, entry, next, passes[1..], target, young - 1);
      assert passes[..young][1..] == passes[1..][..young - 1] && passes[..young][0] == passes[0];
    }
  }

  lemma {:induction false} OldPassesHold(side: Side, entry: real, stored: Option<real>, passes: seq<Pass>, target: real)
    requires entry > 0.0 && AllOld(passes)
    ensures OpenFor(side, entry, stored, passes, target) == |passes|
    decreases |passes|
  {
    hide Persisted;
    if passes != [] {
      var c := passes[0].check;
      OldPassesHold(side, entry, if c.writeOk then Persisted(side, entry, stored, c.price) else stored, passes[1..], target);
    }
  }
}
