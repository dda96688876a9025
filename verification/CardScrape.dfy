/** The page loop of `scrapeCard`: pagination, retry after a block, stop after three blocks in a row. */
module CardScrape {

  datatype Row = Row(itemId: string, body: string)

  /** What the environment answers at each turn of the loop: the operator asks to skip, the fetch throws,
      the page is rate limited, or it parses to these rows. After the last reply every fetch throws. */
  datatype Reply = SkipAsked | FetchError | Blocked | Page(rows: seq<Row>)

  /** Results, turns of the loop used, requests made, and the block state handed to the next card. */
  datatype Outcome = Outcome(results: seq<Row>, used: nat, requests: nat, blocks: nat, stopped: bool)

  const DEFAULT_MAX_PAGES := 3
  const MAX_BLOCKS := 3

  /** `config.max_pages_per_card || 3`. */
  function MaxPages(configured: nat): nat { if configured == 0 then DEFAULT_MAX_PAGES else configured }

  /** The loop from `page` on, with `blocks` consecutive blocks so far. */
  function Scrape(limit: nat, page: nat, blocks: nat, replies: seq<Reply>): Outcome
    decreases |replies|
  {
    if page > limit then Outcome([], 0, 0, blocks, false)
    else if replies == [] then Outcome([], 1, 1, blocks, false)
    else
      match replies[0]
      case SkipAsked => Outcome([], 1, 0, blocks, false)
      case FetchError => Outcome([], 1, 1, blocks, false)
      case Blocked =>
        if blocks + 1 >= MAX_BLOCKS then Outcome([], 1, 1, blocks + 1, true)
        else After([], 1, Scrape(limit, page, blocks + 1, replies[1..]))
      case Page(rows) =>
        if rows == [] then Outcome([], 1, 1, 0, false)
        else After(rows, 1, Scrape(limit, page + 1, 0, replies[1..]))
  }

  function After(rows: seq<Row>, turns: nat, rest: Outcome): Outcome {
    Outcome(rows + rest.results, rest.used + turns, rest.requests + turns, rest.blocks, rest.stopped)
  }

  /** One turn of the loop, as a step of the whole outcome. */
  lemma TurnOfLoop(limit: nat, page: nat, blocks: nat, replies: seq<Reply>, results: seq<Row>, turns: nat)
    requires page <= limit
    ensures var whole := After(results, turns, Scrape(limit, page, blocks, replies));
            if replies == [] || replies[0].FetchError? then whole == Outcome(results, turns + 1, turns + 1, blocks, false)
            else if replies[0].SkipAsked? then whole == Outcome(results, turns + 1, turns, blocks, false)
            else if replies[0].Blocked? then
              if blocks + 1 >= MAX_BLOCKS then whole == Outcome(results, turns + 1, turns + 1, blocks + 1, true)
              else whole == After(results, turns + 1, Scrape(limit, page, blocks + 1, replies[1..]))
            else if replies[0].rows == [] then whole == Outcome(results, turns + 1, turns + 1, 0, false)
            else whole == After(results + replies[0].rows, turns + 1, Scrape(limit, page + 1, 0, replies[1..]))
  {
    assert results + [] == results;
    if replies != [] && replies[0].Page? && replies[0].rows != [] {
      var rest := Scrape(limit, page + 1, 0, replies[1..]);
      assert results + (replies[0].rows + rest.results) == (results + replies[0].rows) + rest.results;
    } else if replies != [] && replies[0].Blocked? && blocks + 1 < MAX_BLOCKS {
      var rest := Scrape(limit, page, blocks + 1, replies[1..]);
      assert [] + rest.results == rest.results;
    }
  }

  /** `reqState`, shared by all cards of a set; `warmups` counts its cold-start pauses. */
  class ReqState {
    var count: nat
    var consecutiveBlocks: nat
    var shouldStop: bool
    var warmupDone: bool
    var warmups: nat

    constructor ()
      ensures count == 0 && consecutiveBlocks == 0 && !shouldStop && !warmupDone && warmups == 0
    {
      count, consecutiveBlocks, shouldStop, warmupDone, warmups := 0, 0, false, false, 0;
    }

    /** `scrapeCard`. The loop goes back a page after a block, so it terminates only by the pair
        (pages left, blocks left), not by its page counter, and not by the replies running out. */
    method ScrapeCard(configuredPages: nat, replies: seq<Reply>) returns (results: seq<Row>)
      modifies this
      ensures var o := Scrape(MaxPages(configuredPages), 1, old(consecutiveBlocks), replies);
              results == o.results && count == old(count) + o.requests && consecutiveBlocks == o.blocks
              && shouldStop == (old(shouldStop) || o.stopped)
              && warmupDone == (old(warmupDone) || o.requests > 0)
              && warmups == old(warmups) + if !old(warmupDone) && o.requests > 0 then 1 else 0
    {
      hide Scrape;
      hide After;
      var limit := MaxPages(configuredPages);
      ghost var whole := Scrape(limit, 1, consecutiveBlocks, replies);
      results := [];
      var page, pos := 1, 0;
      assert replies[0..] == replies;
      NothingYet(whole);
      while page <= limit
        invariant 1 <= page <= limit + 1 && pos <= |replies| && count == old(count) + pos
        invariant whole == After(results, pos, Scrape(limit, page, consecutiveBlocks, replies[pos..]))
        invariant shouldStop == old(shouldStop) && warmupDone == (old(warmupDone) || pos > 0)
        invariant warmups == old(warmups) + if !old(warmupDone) && pos > 0 then 1 else 0
        decreases limit + 1 - page, if consecutiveBlocks < MAX_BLOCKS then MAX_BLOCKS - consecutiveBlocks else 0
      {
        var reply := if pos < |replies| then replies[pos] else FetchError;
        TurnOfLoop(limit, page, consecutiveBlocks, replies[pos..], results, pos);
        assert pos < |replies| ==> replies[pos..][1..] == replies[pos + 1..];
        if reply.SkipAsked? {
          return;
        }
        if !warmupDone {
          warmupDone, warmups := true, warmups + 1;
        }
        count := count + 1;
        if reply.FetchError? {
          return;
        }
        if reply.Blocked? {
          consecutiveBlocks := consecutiveBlocks + 1;
          if consecutiveBlocks >= MAX_BLOCKS {
            shouldStop := true;
            return;
          }
        } else {
          consecutiveBlocks := 0;
          if reply.rows == [] {
            return;
          }
          results := results + reply.rows;
          page := page + 1;
        }
        pos := pos + 1;
      }
      PastLimit(limit, page, consecutiveBlocks, replies[pos..], results, pos);
    }
  }

  lemma NothingYet(o: Outcome)
    ensures After([], 0, o) == o
  {
    assert [] + o.results == o.results;
  }

  lemma PastLimit(limit: nat, page: nat, blocks: nat, replies: seq<Reply>, results: seq<Row>, turns: nat)
    requires page > limit
    ensures After(results, turns, Scrape(limit, page, blocks, replies)) == Outcome(results, turns, turns, blocks, false)
  {
    assert results + [] == results;
  }

  /** Three requests per page that may still be fetched, less the blocks already suffered. */
  function Budget(pagesLeft: int, blocks: nat): int {
    if pagesLeft <= 0 then 0 else 3 * pagesLeft - if blocks < MAX_BLOCKS then blocks else 2
  }

  /** Whatever the site answers, a card makes no more requests than its budget: at most 3 * maxPages. */
  lemma {:induction false} RequestBound(limit: nat, page: nat, blocks: nat, replies: seq<Reply>)
    requires page <= limit + 1
    ensures Scrape(limit, page, blocks, replies).requests <= Budget(limit + 1 - page, blocks)
    decreases |replies|
  {
    var o := Scrape(limit, page, blocks, replies);
    if page > limit || replies == [] {
      assert o.requests <= 1;
    } else if replies[0].Blocked? && blocks + 1 < MAX_BLOCKS {
      RequestBound(limit, page, blocks + 1, replies[1..]);
      assert o.requests == 1 + Scrape(limit, page, blocks + 1, replies[1..]).requests;
    } else if replies[0].Page? && replies[0].rows != [] {
      RequestBound(limit, page + 1, 0, replies[1..]);
      assert o.requests == 1 + Scrape(limit, page + 1, 0, replies[1..]).requests;
    } else {
      assert o.requests <= 1;
    }
  }

  ghost predicate AllBlocked(replies: seq<Reply>, from: nat, to: nat)
    requires to <= |replies|
  {
    forall i :: from <= i < to ==> replies[i].Blocked?
  }

  /** The last of the used replies are three blocks in a row, or fewer that continue a run of carried-in blocks. */
  ghost predicate EndsBlocked(replies: seq<Reply>, used: nat, blocks: nat) {
    used <= |replies|
    && ((used >= MAX_BLOCKS && AllBlocked(replies, used - MAX_BLOCKS, used))
        || (used + blocks >= MAX_BLOCKS && AllBlocked(replies, 0, used)))
  }

  /** The scraper stops exactly when its last replies were blocks without a success between:
      three of them, or fewer if they continue a run of blocks carried in from earlier cards. */
  lemma {:induction false} StopsExactlyOnThreeBlocks(limit: nat, page: nat, blocks: nat, replies: seq<Reply>)
    requires blocks < MAX_BLOCKS && page <= limit
    ensures var o := Scrape(limit, page, blocks, replies); o.stopped <==> EndsBlocked(replies, o.used, blocks)
    decreases |replies|
  {
    hide EndsBlocked;
    var o := Scrape(limit, page, blocks, replies);
    OneReply(replies, blocks);
    if replies != [] {
      match replies[0]
      case Blocked =>
        if blocks + 1 < MAX_BLOCKS {
          StopsExactlyOnThreeBlocks(limit, page, blocks + 1, replies[1..]);
          FirstReply(replies, o.used, blocks);
        }
      case Page(rows) =>
        if rows != [] && page < limit {
          StopsExactlyOnThreeBlocks(limit, page + 1, 0, replies[1..]);
          FirstReply(replies, o.used, blocks);
        } else if rows != [] {
          assert Scrape(limit, page + 1, 0, replies[1..]).used == 0;
        }
      case _ =>
    }
  }

  /** The first reply's part in a run of blocks. */
  lemma FirstReply(replies: seq<Reply>, used: nat, blocks: nat)
    requires |replies| > 0 && used > 1 && blocks < MAX_BLOCKS
    ensures EndsBlocked(replies, used, blocks) <==> EndsBlocked(replies[1..], used - 1, if replies[0].Blocked? then blocks + 1 else 0)
  {
    if used <= |replies| {
      BlocksShift(replies, 0, used - 1);
      assert AllBlocked(replies, 0, used) <==> replies[0].Blocked? && AllBlocked(replies, 1, used);
      if used > MAX_BLOCKS {
        BlocksShift(replies, used - 1 - MAX_BLOCKS, used - 1);
        assert AllBlocked(replies[1..], 0, used - 1) ==> AllBlocked(replies[1..], used - 1 - MAX_BLOCKS, used - 1);
      }
    }
  }

  lemma BlocksShift(replies: seq<Reply>, from: nat, to: nat)
    requires |replies| > 0 && to < |replies|
    ensures AllBlocked(replies[1..], from, to) <==> AllBlocked(replies, from + 1, to + 1)
  {
    if AllBlocked(replies[1..], from, to) {
      forall i | from + 1 <= i < to + 1 ensures replies[i].Blocked? {
        assert replies[i] == replies[1..][i - 1];
      }
    }
  }

  lemma OneReply(replies: seq<Reply>, blocks: nat)
    requires blocks < MAX_BLOCKS
    ensures replies == [] ==> !EndsBlocked(replies, 1, blocks)
    ensures replies != [] ==> (EndsBlocked(replies, 1, blocks) <==> replies[0].Blocked? && blocks + 1 == MAX_BLOCKS)
  {
    if replies != [] {
      assert AllBlocked(replies, 0, 1) <==> replies[0].Blocked?;
    }
  }

  /** The replies with every block taken out. */
  function WithoutBlocks(replies: seq<Reply>): seq<Reply> {
    if replies == [] then []
    else (if replies[0].Blocked? then [] else [replies[0]]) + WithoutBlocks(replies[1..])
  }

  lemma FirstUnblocked(replies: seq<Reply>)
    ensures replies == [] ==> WithoutBlocks(replies) == []
    ensures replies != [] && replies[0].Blocked? ==> WithoutBlocks(replies) == WithoutBlocks(replies[1..])
    ensures replies != [] && !replies[0].Blocked? ==>
              WithoutBlocks(replies) != [] && WithoutBlocks(replies)[0] == replies[0]
              && WithoutBlocks(replies)[1..] == WithoutBlocks(replies[1..])
  {
  }

  lemma SamePrefix(rows: seq<Row>, x: seq<Row>, y: seq<Row>)
    requires x <= y
    ensures rows + x <= rows + y && (rows + x == rows + y <==> x == y)
  {
    assert y == x + y[|x|..];
    assert rows + y == (rows + x) + y[|x|..];
  }

  /** Retries are transparent: unless the third block in a row stops it, a card's results are those it would have had
      with no block at all; and a stopped card returns a prefix of them. */
  lemma {:induction false} RetriesAreTransparent(limit: nat, page: nat, blocks: nat, replies: seq<Reply>)
    ensures var o, clean := Scrape(limit, page, blocks, replies), Scrape(limit, page, 0, WithoutBlocks(replies));
            !clean.stopped && (if o.stopped then o.results <= clean.results else o.results == clean.results)
    decreases |replies|
  {
    FirstUnblocked(replies);
    hide WithoutBlocks;
    if page <= limit && replies != [] {
      match replies[0]
      case Blocked =>
        RetriesAreTransparent(limit, page, blocks + 1, replies[1..]);
        NothingBefore(Scrape(limit, page, blocks + 1, replies[1..]).results);
      case Page(rows) =>
        if rows != [] {
          RetriesAreTransparent(limit, page + 1, 0, replies[1..]);
          SamePrefix(rows, Scrape(limit, page + 1, 0, replies[1..]).results, Scrape(limit, page + 1, 0, WithoutBlocks(replies[1..])).results);
        }
      case _ =>
    }
  }

  lemma NothingBefore(rows: seq<Row>)
    ensures [] + rows == rows
  {
  }

  /** Two visits to a card that differ only in (recovered) blocks deliver the same rows. */
  lemma BlocksDoNotChangeRows(limit: nat, page: nat, blocks: nat, replies: seq<Reply>, blocks': nat, replies': seq<Reply>)
    requires WithoutBlocks(replies) == WithoutBlocks(replies')
    requires !Scrape(limit, page, blocks, replies).stopped && !Scrape(limit, page, blocks', replies').stopped
    ensures Scrape(limit, page, blocks, replies).results == Scrape(limit, page, blocks', replies').results
  {
    RetriesAreTransparent(limit, page, blocks, replies);
    RetriesAreTransparent(limit, page, blocks', replies');
  }

  // ----- a visit, said of the replies it uses

  predicate IsListing(r: Reply) { r.Page? && r.rows != [] }

  /** The rows listed by the first n replies. */
  function RowsIn(replies: seq<Reply>, n: nat): seq<Row>
    requires n <= |replies|
  {
    if n == 0 then [] else RowsIn(replies, n - 1) + if replies[n - 1].Page? then replies[n - 1].rows else []
  }

  /** How many of the first n replies list rows. */
  function PagesIn(replies: seq<Reply>, n: nat): nat
    requires n <= |replies|
  {
    if n == 0 then 0 else PagesIn(replies, n - 1) + if IsListing(replies[n - 1]) then 1 else 0
  }

  /** The blocks in a row after the first n replies, `carried` before them. */
  function BlocksAfter(replies: seq<Reply>, n: nat, carried: nat): nat
    requires n <= |replies|
  {
    if n == 0 then carried
    else
      match replies[n - 1]
      case Blocked => BlocksAfter(replies, n - 1, carried) + 1
      case Page(_) => 0
      case _ => BlocksAfter(replies, n - 1, carried)
  }

  lemma {:induction false} InTail(replies: seq<Reply>, n: nat, carried: nat)
    requires 0 < n <= |replies|
    ensures var first, rest := replies[0], replies[1..];
            RowsIn(replies, n) == (if first.Page? then first.rows else []) + RowsIn(rest, n - 1)
            && PagesIn(replies, n) == (if IsListing(first) then 1 else 0) + PagesIn(rest, n - 1)
            && BlocksAfter(replies, n, carried)
               == BlocksAfter(rest, n - 1, if first.Blocked? then carried + 1 else if first.Page? then 0 else carried)
  {
    if n > 1 {
      InTail(replies, n - 1, carried);
    }
  }

  /** The replies a visit uses; the last turn may find no reply left, which is a failed fetch. */
  function Heard(replies: seq<Reply>, o: Outcome): (n: nat)
    ensures n <= |replies|
  {
    if o.used <= |replies| then o.used else |replies|
  }

  /** The visit ends with the last reply it used: the operator's skip, a failed fetch, an empty page, the third block in a
      row, or the listing that fills the page limit; and no earlier reply ends it. */
  ghost predicate EndsVisit(limit: nat, page: nat, blocks: nat, replies: seq<Reply>, n: nat)
    requires 0 < n <= |replies| && page <= limit
  {
    var last := replies[n - 1];
    last.SkipAsked? || last.FetchError? || last == Page([])
    || (last.Blocked? && BlocksAfter(replies, n, blocks) >= 3)
    || (IsListing(last) && PagesIn(replies, n) == limit + 1 - page)
  }

  /** What a visit does, reply by reply. */
  ghost predicate VisitMeans(limit: nat, page: nat, blocks: nat, replies: seq<Reply>, o: Outcome)
    requires page <= limit
  {
    var n := Heard(replies, o);
    0 < o.used <= |replies| + 1
    && o.results == RowsIn(replies, n) && o.blocks == BlocksAfter(replies, n, blocks)
    && o.requests == (if o.used <= |replies| && replies[n - 1].SkipAsked? then o.used - 1 else o.used)
    && (o.used <= |replies| ==> EndsVisit(limit, page, blocks, replies, n))
    && (forall k :: 0 < k < o.used && k <= |replies| ==> !EndsVisit(limit, page, blocks, replies, k))
    && (o.stopped <==> o.used <= |replies| && replies[n - 1].Blocked?)
  }

  lemma EndsInTail(limit: nat, page: nat, blocks: nat, replies: seq<Reply>, n: nat)
    requires 1 < n <= |replies| && page <= limit && !EndsVisit(limit, page, blocks, replies, 1)
    ensures replies[0].Blocked? || (IsListing(replies[0]) && page < limit)
    ensures EndsVisit(limit, page, blocks, replies, n)
            <==> EndsVisit(limit, if replies[0].Blocked? then page else page + 1, if replies[0].Blocked? then blocks + 1 else 0, replies[1..], n - 1)
  {
    assert PagesIn(replies, 0) == 0;
    InTail(replies, n, blocks);
  }

  /** Every visit: the rows are those listed by the replies it used; its requests are those replies but a skip, one more when
      it ran out of them; it stops with the third block in a row, and ends at the first reply that can end it. */
  lemma {:induction false} VisitExactly(limit: nat, page: nat, blocks: nat, replies: seq<Reply>)
    requires page <= limit && blocks < MAX_BLOCKS
    ensures VisitMeans(limit, page, blocks, replies, Scrape(limit, page, blocks, replies))
    decreases |replies|
  {
    if replies != [] {
      if EndsVisit(limit, page, blocks, replies, 1) {
        OneReplyVisit(limit, page, blocks, replies);
      } else {
        EndsAtFirst(limit, page, blocks, replies);
        var page', blocks' := if replies[0].Blocked? then page else page + 1, if replies[0].Blocked? then blocks + 1 else 0;
        VisitExactly(limit, page', blocks', replies[1..]);
        VisitStep(limit, page, blocks, replies);
      }
    }
  }

  lemma EndsAtFirst(limit: nat, page: nat, blocks: nat, replies: seq<Reply>)
    requires page <= limit && blocks < MAX_BLOCKS && replies != []
    ensures EndsVisit(limit, page, blocks, replies, 1)
            <==> !(replies[0].Blocked? && blocks + 1 < MAX_BLOCKS) && !(IsListing(replies[0]) && page < limit)
    ensures PagesIn(replies, 1) == (if IsListing(replies[0]) then 1 else 0)
    ensures RowsIn(replies, 1) == if replies[0].Page? then replies[0].rows else []
    ensures BlocksAfter(replies, 1, blocks) == if replies[0].Blocked? then blocks + 1 else if replies[0].Page? then 0 else blocks
  {
    assert PagesIn(replies, 0) == 0 && BlocksAfter(replies, 0, blocks) == blocks;
    assert RowsIn(replies, 0) == [];
  }

  lemma OneReplyVisit(limit: nat, page: nat, blocks: nat, replies: seq<Reply>)
    requires page <= limit && blocks < MAX_BLOCKS && replies != [] && EndsVisit(limit, page, blocks, replies, 1)
    ensures VisitMeans(limit, page, blocks, replies, Scrape(limit, page, blocks, replies))
  {
    EndsAtFirst(limit, page, blocks, replies);
    hide EndsVisit;
    hide RowsIn;
    hide PagesIn;
    hide BlocksAfter;
    if IsListing(replies[0]) {
      assert replies[0].rows + [] == replies[0].rows;
    }
  }

  lemma VisitStep(limit: nat, page: nat, blocks: nat, replies: seq<Reply>)
    requires page <= limit && blocks < MAX_BLOCKS && replies != [] && !EndsVisit(limit, page, blocks, replies, 1)
    requires replies[0].Blocked? || (IsListing(replies[0]) && page < limit)
    requires replies[0].Blocked? ==> blocks + 1 < MAX_BLOCKS
    requires var (page', blocks') := if replies[0].Blocked? then (page, blocks + 1) else (page + 1, 0);
             VisitMeans(limit, page', blocks', replies[1..], Scrape(limit, page', blocks', replies[1..]))
    ensures VisitMeans(limit, page, blocks, replies, Scrape(limit, page, blocks, replies))
  {
    hide EndsVisit;
    var o := Scrape(limit, page, blocks, replies);
    var n := Heard(replies, o);
    InTail(replies, n, blocks);
    forall k | 1 < k <= |replies|
      ensures EndsVisit(limit, page, blocks, replies, k)
              <==> EndsVisit(limit, if replies[0].Blocked? then page else page + 1, if replies[0].Blocked? then blocks + 1 else 0, replies[1..], k - 1)
    {
      EndsInTail(limit, page, blocks, replies, k);
    }
  }

  /** The page limit, three when none is configured. */
  lemma PagesToRead(configured: nat)
    ensures MaxPages(0) == 3 && (configured > 0 ==> MaxPages(configured) == configured)
  {
  }
}
