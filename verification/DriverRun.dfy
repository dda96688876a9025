/** The driver's loop over sets: every set gets its own request state, so a stop ends its set and no more. */
module DriverRun {
  import opened CardScrape

  /** A card as its set's loop meets it: on record in the checkpoint, or visited with this page limit and these replies. */
  datatype Card = OnRecord | ToVisit(configuredPages: nat, replies: seq<Reply>)

  /** What a set costs and whether the third block in a row stopped it. */
  datatype SetCost = SetCost(requests: nat, blocks: nat, stopped: bool)

  function VisitOf(c: Card, blocks: nat): Outcome
    requires c.ToVisit?
  {
    Scrape(MaxPages(c.configuredPages), 1, blocks, c.replies)
  }

  /** The first n cards of a set: nothing is visited any more once a card has raised the stop flag. */
  function CostOf(cards: seq<Card>, n: nat): SetCost
    requires n <= |cards|
  {
    if n == 0 then SetCost(0, 0, false)
    else
      var before, c := CostOf(cards, n - 1), cards[n - 1];
      if c.OnRecord? || before.stopped then before
      else
        var o := VisitOf(c, before.blocks);
        SetCost(before.requests + o.requests, o.blocks, o.stopped)
  }

  /** All the requests of the first n sets. */
  function RequestsUpTo(sets: seq<seq<Card>>, n: nat): nat
    requires n <= |sets|
  {
    if n == 0 then 0 else RequestsUpTo(sets, n - 1) + CostOf(sets[n - 1], |sets[n - 1]|).requests
  }

  /** How many of the first n sets make a request. */
  function AskingUpTo(sets: seq<seq<Card>>, n: nat): nat
    requires n <= |sets|
  {
    if n == 0 then 0
    else AskingUpTo(sets, n - 1) + if CostOf(sets[n - 1], |sets[n - 1]|).requests > 0 then 1 else 0
  }

  function Min(x: nat, y: nat): nat { if x < y then x else y }

  /** The driver's counters. */
  class Driver {
    var requests: nat
    var warmups: nat

    constructor ()
      ensures requests == 0 && warmups == 0
    {
      requests, warmups := 0, 0;
    }

    /** The request state of `scrapeSet`: fresh but for the driver's delay multiplier and its unset warm-up flag. */
    method ScrapeSet(cards: seq<Card>)
      modifies this
      ensures requests == old(requests) + CostOf(cards, |cards|).requests
      ensures warmups == old(warmups) + if CostOf(cards, |cards|).requests > 0 then 1 else 0
    {
      var reqState := new ReqState();
      for i := 0 to |cards|
        invariant fresh(reqState) && reqState.count == CostOf(cards, i).requests
        invariant reqState.consecutiveBlocks == CostOf(cards, i).blocks && reqState.shouldStop == CostOf(cards, i).stopped
        invariant reqState.warmupDone == (reqState.count > 0) && reqState.warmups == if reqState.count > 0 then 1 else 0
        invariant requests == old(requests) && warmups == old(warmups)
      {
        if cards[i].OnRecord? {
          continue;
        }
        if reqState.shouldStop {
          StoppedStays(cards, i, |cards|);
          break;
        }
        var results := reqState.ScrapeCard(cards[i].configuredPages, cards[i].replies);
      }
      requests, warmups := requests + reqState.count, warmups + reqState.warmups;
    }

    /** The loop of `main` over the sets; the operator's quit is seen before set `quitAt`. */
    method Run(sets: seq<seq<Card>>, quitAt: nat)
      modifies this
      ensures requests == old(requests) + RequestsUpTo(sets, Min(quitAt, |sets|))
      ensures warmups == old(warmups) + AskingUpTo(sets, Min(quitAt, |sets|))
    {
      for i := 0 to |sets|
        invariant i <= quitAt && requests == old(requests) + RequestsUpTo(sets, i) && warmups == old(warmups) + AskingUpTo(sets, i)
      {
        if i == quitAt {
          return;
        }
        ScrapeSet(sets[i]);
      }
    }
  }

  lemma {:induction false} StoppedStays(cards: seq<Card>, m: nat, n: nat)
    requires m <= n <= |cards| && CostOf(cards, m).stopped
    ensures CostOf(cards, n) == CostOf(cards, m)
  {
    if m < n {
      StoppedStays(cards, m, n - 1);
    }
  }

  // ----- which sets ask at all

  /** A visit makes a request unless the operator skips the card before its first page. */
  predicate Asks(c: Card) { c.ToVisit? && (c.replies == [] || !c.replies[0].SkipAsked?) }

  lemma VisitAsks(c: Card, blocks: nat)
    requires c.ToVisit?
    ensures Asks(c) <==> VisitOf(c, blocks).requests > 0
    ensures !Asks(c) ==> VisitOf(c, blocks).blocks == blocks && !VisitOf(c, blocks).stopped
  {
  }

  /** A set makes a request exactly when some card of it asks; until then it has no blocks and no stop. */
  lemma {:induction false} SetAsksExactlyWhen(cards: seq<Card>, n: nat)
    requires n <= |cards|
    ensures CostOf(cards, n).requests > 0 <==> exists i :: 0 <= i < n && Asks(cards[i])
    ensures CostOf(cards, n).requests == 0 ==> CostOf(cards, n) == SetCost(0, 0, false)
  {
    hide VisitOf;
    if n > 0 {
      SetAsksExactlyWhen(cards, n - 1);
      if cards[n - 1].ToVisit? {
        VisitAsks(cards[n - 1], CostOf(cards, n - 1).blocks);
      }
    }
  }

  /** A card that answers one block and then fails. */
  function BlockedOnce(): Card { ToVisit(0, [Blocked, FetchError]) }

  /** Blocks carry over from card to card: a set whose cards each meet one block before their fetch fails is stopped at its
      third card, with five requests, and never gets to its fourth. */
  lemma BlocksCarryOver(rest: Card)
    ensures var cards := [BlockedOnce(), BlockedOnce(), BlockedOnce(), rest];
            CostOf(cards, 2) == SetCost(4, 2, false) && CostOf(cards, 4) == SetCost(5, 3, true)
  {
    var cards, replies := [BlockedOnce(), BlockedOnce(), BlockedOnce(), rest], [Blocked, FetchError];
    assert replies[1..] == [FetchError];
    assert Scrape(3, 1, 0, replies) == Outcome([], 2, 2, 1, false);
    assert Scrape(3, 1, 1, replies) == Outcome([], 2, 2, 2, false);
    assert Scrape(3, 1, 2, replies) == Outcome([], 1, 1, 3, true);
    assert CostOf(cards, 1) == SetCost(2, 1, false) by {
      assert CostOf(cards, 0) == SetCost(0, 0, false);
    }
    assert CostOf(cards, 3) == SetCost(5, 3, true);
  }

  // ----- a site that blocks everything

  /** Every card that is visited meets nothing but blocks. */
  predicate BlocksEverything(cards: seq<Card>) {
    forall i :: 0 <= i < |cards| && cards[i].ToVisit? ==>
      |cards[i].replies| >= MAX_BLOCKS && forall k :: 0 <= k < |cards[i].replies| ==> cards[i].replies[k].Blocked?
  }

  lemma BlockedVisit(limit: nat, replies: seq<Reply>)
    requires limit >= 1 && |replies| >= MAX_BLOCKS && forall k :: 0 <= k < |replies| ==> replies[k].Blocked?
    ensures Scrape(limit, 1, 0, replies).requests == MAX_BLOCKS && Scrape(limit, 1, 0, replies).stopped
  {
    var second := replies[1..];
    var third := second[1..];
    assert Scrape(limit, 1, 2, third) == Outcome([], 1, 1, 3, true);
    assert Scrape(limit, 1, 1, second) == After([], 1, Scrape(limit, 1, 2, third));
  }

  lemma {:induction false} BlockedSet(cards: seq<Card>, n: nat)
    requires n <= |cards| && BlocksEverything(cards)
    ensures var asks := exists i :: 0 <= i < n && Asks(cards[i]);
            CostOf(cards, n).requests == (if asks then MAX_BLOCKS else 0) && (CostOf(cards, n).stopped <==> asks)
  {
    if n > 0 {
      BlockedSet(cards, n - 1);
      SetAsksExactlyWhen(cards, n - 1);
      if cards[n - 1].ToVisit? && !CostOf(cards, n - 1).stopped {
        BlockedVisit(MaxPages(cards[n - 1].configuredPages), cards[n - 1].replies);
      }
    }
  }

  /** "Three blocks halt the scraper" holds of one set: against a site that blocks everything the driver makes three
      requests, and a cold-start pause, for every set with a card to visit. */
  lemma {:induction false} BlockedRunExactly(sets: seq<seq<Card>>, n: nat)
    requires n <= |sets| && forall j :: 0 <= j < n ==> BlocksEverything(sets[j])
    ensures RequestsUpTo(sets, n) == MAX_BLOCKS * AskingUpTo(sets, n)
  {
    if n > 0 {
      BlockedRunExactly(sets, n - 1);
      BlockedSet(sets[n - 1], |sets[n - 1]|);
    }
  }

  /** After any set, stopped or not, the run makes another request exactly when a later set has a card that asks. */
  lemma {:induction false} RunGoesOnExactlyWhen(sets: seq<seq<Card>>, i: nat, n: nat)
    requires i <= n <= |sets|
    ensures RequestsUpTo(sets, n) >= RequestsUpTo(sets, i)
    ensures RequestsUpTo(sets, n) > RequestsUpTo(sets, i)
            <==> exists j, k :: i <= j < n && 0 <= k < |sets[j]| && Asks(sets[j][k])
  {
    hide Asks;
    if i < n {
      RunGoesOnExactlyWhen(sets, i, n - 1);
      SetAsksExactlyWhen(sets[n - 1], |sets[n - 1]|);
    }
  }

  ghost predicate SetAsks(cards: seq<Card>) { exists i :: 0 <= i < |cards| && Asks(cards[i]) }

  /** The documented pause "once per process" is one per set that asks: once in all exactly when one set does. */
  lemma {:induction false} AskingExactlyOnce(sets: seq<seq<Card>>, n: nat)
    requires n <= |sets|
    ensures AskingUpTo(sets, n) == 0 <==> forall j :: 0 <= j < n ==> !SetAsks(sets[j])
    ensures AskingUpTo(sets, n) <= 1 <==> forall j, k :: 0 <= j < k < n ==> !(SetAsks(sets[j]) && SetAsks(sets[k]))
  {
    if n > 0 {
      AskingExactlyOnce(sets, n - 1);
      SetAsksExactlyWhen(sets[n - 1], |sets[n - 1]|);
    }
  }
}
