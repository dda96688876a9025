/** What each trading step does, said of rows, positions and statuses themselves. */
module TradingSteps {
  import opened Killswitch
  import opened HaltProtocol

  /** Only a running system with the strategy's own row active trades. */
  predicate Armed(s: State, strategy: string) {
    SYSTEM in s.strategies && s.strategies[SYSTEM] != Halted && strategy in s.strategies && s.strategies[strategy] == Active
  }

  /** The state with `moved` more of the ticker on the account. */
  ghost predicate OnlyMoved(position: map<Slot, int>, position': map<Slot, int>, account: string, ticker: string, moved: int) {
    forall slot :: NetAt(position', slot) == NetAt(position, slot) + if slot.account == account && slot.ticker == ticker then moved else 0
  }

  /** An entry acts exactly when its strategy is armed, its gates pass and the broker accepts: a long one adds its quantity to
      the strategy's own account and a short one takes it off, and the row goes in with the order's own data. */
  lemma EntryActsExactlyWhen(s: State, strategy: string, ticker: string, side: Side, qty: nat, gatesOk: bool, r: Response)
    ensures var s' := Next(s, OpenTrade(strategy, ticker, side, qty, gatesOk, r));
            if Armed(s, strategy) && gatesOk && r.Response? then
              OnlyMoved(s.position, s'.position, strategy, ticker, if side == Long then qty else -(qty as int))
              && s' == s.(position := s'.position,
                          trades := s.trades + if EntryOutcome(r) == Booked then [Trade(strategy, ticker, side, qty, true)] else [])
            else s' == s
  {
    hide EntryPrice;
    hide Recordable;
    assert s.trades + [] == s.trades;
  }

  /** An exit acts exactly when its row is open, its strategy armed, its gates pass and its order is not refused: the reverse
      order goes to the strategy's own account or to the default one, and the row closes unless its booking was lost. */
  lemma ExitActsExactlyWhen(s: State, id: nat, onOwn: bool, gatesOk: bool, o: OrderOutcome)
    ensures var s' := Next(s, ExitTrade(id, onOwn, gatesOk, o));
            if id < |s.trades| && s.trades[id].open && Armed(s, s.trades[id].strategy) && gatesOk && o != OrderRefused then
              var t := s.trades[id];
              var reverse := if t.side == Long then -(t.qty as int) else t.qty;
              OnlyMoved(s.position, s'.position, t.strategy, t.ticker, if onOwn then reverse else 0)
              && (forall x :: LegacyAt(s'.legacy, x) == LegacyAt(s.legacy, x) + if !onOwn && x == t.ticker then reverse else 0)
              && s' == s.(position := s'.position, legacy := s'.legacy,
                          trades := if o == Booked then s.trades[id := t.(open := false)] else s.trades)
            else s' == s
  {
  }

  /** A status update sets the named row, if there is one, and nothing else; a system-wide breaker halts the system row too. */
  lemma StatusStepSets(s: State, id: string, to: Status, systemWide: bool)
    ensures var s', t := Next(s, StrategyStatus(id, to)), Next(s, BreakerTrip(id, to, systemWide));
            s' == s.(strategies := s'.strategies) && t == s.(strategies := t.strategies)
            && s'.strategies.Keys == t.strategies.Keys == s.strategies.Keys
            && forall x :: x in s.strategies ==>
                 s'.strategies[x] == (if x == id then to else s.strategies[x])
                 && t.strategies[x] == if systemWide && x == SYSTEM then Halted else s'.strategies[x]
  {
  }
}
