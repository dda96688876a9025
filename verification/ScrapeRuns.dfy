/** The page loop inside the set loop: what a site lists, what a visit to a card brings home of it,
    and what blocks, cuts, crashes and resumes make of the table. */
module ScrapeRuns {
  import opened Options
  import opened CardScrape
  import opened SetScrape
  import opened SetResume

  // ----- one visit against what the site lists

  function PageOf(pages: seq<seq<Row>>, page: nat): seq<Row> {
    if 1 <= page <= |pages| then pages[page - 1] else []
  }

  /** All the rows the site lists for a card from `page` on, within the page limit and up to the first empty page. */
  function Listing(limit: nat, page: nat, pages: seq<seq<Row>>): seq<Row>
    decreases limit + 1 - page
  {
    if page > limit || PageOf(pages, page) == [] then []
    else PageOf(pages, page) + Listing(limit, page + 1, pages)
  }

  /** Every page that is served is the site's page. */
  predicate Honest(limit: nat, page: nat, blocks: nat, pages: seq<seq<Row>>, replies: seq<Reply>)
    decreases |replies|
  {
    page > limit || replies == []
    || match replies[0]
       case SkipAsked => true
       case FetchError => true
       case Blocked => blocks + 1 >= MAX_BLOCKS || Honest(limit, page, blocks + 1, pages, replies[1..])
       case Page(rows) => rows == PageOf(pages, page) && (rows == [] || Honest(limit, page + 1, 0, pages, replies[1..]))
  }

  /** The page at which the visit is cut short: by a skip or the operator's quit, by a fetch error, or by the third block. */
  function CutAt(limit: nat, page: nat, blocks: nat, replies: seq<Reply>): (cut: Option<nat>)
    ensures cut.Some? ==> page <= cut.value <= limit
    decreases |replies|
  {
    if page > limit then None
    else if replies == [] then Some(page)
    else
      match replies[0]
      case SkipAsked => Some(page)
      case FetchError => Some(page)
      case Blocked => if blocks + 1 >= MAX_BLOCKS then Some(page) else CutAt(limit, page, blocks + 1, replies[1..])
      case Page(rows) => if rows == [] then None else CutAt(limit, page + 1, 0, replies[1..])
  }

  /** The last page the visit can bring rows from. */
  function LastPage(limit: nat, page: nat, blocks: nat, replies: seq<Reply>): nat
    requires page >= 1
  {
    var cut := CutAt(limit, page, blocks, replies);
    if cut.Some? then cut.value - 1 else limit
  }

  /** A visit delivers what the site lists before the cut: a first part of the listing, and all of it exactly when it is
      not cut short, or is cut where nothing was left to list. */
  lemma {:induction false} VisitDeliversExactly(limit: nat, page: nat, blocks: nat, pages: seq<seq<Row>>, replies: seq<Reply>)
    requires page >= 1 && Honest(limit, page, blocks, pages, replies)
    ensures var results, cut := Scrape(limit, page, blocks, replies).results, CutAt(limit, page, blocks, replies);
            results == Listing(LastPage(limit, page, blocks, replies), page, pages)
            && results <= Listing(limit, page, pages)
            && (results == Listing(limit, page, pages) <==> cut.None? || PageOf(pages, cut.value) == [])
    decreases |replies|
  {
    hide PageOf;
    if page <= limit && replies != [] {
      match replies[0]
      case Blocked =>
        if blocks + 1 < MAX_BLOCKS {
          VisitDeliversExactly(limit, page, blocks + 1, pages, replies[1..]);
        }
      case Page(rows) =>
        if rows != [] {
          VisitDeliversExactly(limit, page + 1, 0, pages, replies[1..]);
          SamePrefix(rows, Scrape(limit, page + 1, 0, replies[1..]).results, Listing(limit, page + 1, pages));
        }
      case _ =>
    }
  }

  /** The site shows a row with this id on page p of the card, and no page from `from` to p is empty. */
  ghost predicate Shows(pages: seq<seq<Row>>, from: nat, p: nat, id: string) {
    from <= p && (forall q :: from <= q <= p ==> PageOf(pages, q) != []) && id in Ids(PageOf(pages, p))
  }

  /** A listing carries exactly the ids on its pages up to the limit and the first empty page. */
  lemma {:induction false} IdsOfListing(limit: nat, page: nat, pages: seq<seq<Row>>, id: string)
    ensures id in Ids(Listing(limit, page, pages)) <==> exists p: nat :: p <= limit && Shows(pages, page, p, id)
    decreases limit + 1 - page
  {
    hide PageOf;
    hide Ids;
    NoIds();
    if page <= limit && PageOf(pages, page) != [] {
      IdsOfListing(limit, page + 1, pages, id);
      IdsAppend(PageOf(pages, page), Listing(limit, page + 1, pages));
      forall p: nat ensures Shows(pages, page, p, id) <==> Shows(pages, page + 1, p, id) || (p == page && id in Ids(PageOf(pages, page))) {
      }
      if id in Ids(PageOf(pages, page)) {
        assert Shows(pages, page, page, id);
      }
      var next := page + 1;
      if p: nat :| p <= limit && Shows(pages, next, p, id) {
        assert Shows(pages, page, p, id);
      }
    } else {
      assert Listing(limit, page, pages) == [];
      assert forall p: nat :: p <= limit ==> !Shows(pages, page, p, id);
    }
  }

  lemma NoIds()
    ensures Ids([]) == {}
  {
  }

  // ----- runs over a site

  /** Some visit to a card with these pages, whatever blocks it carries in and meets, brings these rows;
      `last` is the last page before its cut, and the page limit when it is not cut short. */
  ghost predicate Visited(limit: nat, pages: seq<seq<Row>>, rows: seq<Row>, last: nat) {
    exists blocks: nat, replies: seq<Reply> :: VisitBrings(limit, pages, rows, last, blocks, replies)
  }

  ghost predicate VisitBrings(limit: nat, pages: seq<seq<Row>>, rows: seq<Row>, last: nat, blocks: nat, replies: seq<Reply>) {
    Honest(limit, 1, blocks, pages, replies) && rows == Scrape(limit, 1, blocks, replies).results
    && last == LastPage(limit, 1, blocks, replies)
  }

  /** Every card the run visits is served the site's pages, up to the card's last page before its cut. */
  ghost predicate RunOver(limit: nat, site: seq<seq<seq<Row>>>, a: Attempt, lasts: seq<nat>) {
    |a.delivered| == |site| == |lasts| && forall i :: 0 <= i < |site| ==> Visited(limit, site[i], a.delivered[i], lasts[i])
  }

  /** No visit is cut short. */
  function Uncut(limit: nat, n: nat): seq<nat> { seq(n, i => limit) }

  /** What the site lists card by card, each up to a last page. */
  function Parts(site: seq<seq<seq<Row>>>, lasts: seq<nat>): (rows: seq<seq<Row>>)
    requires |site| == |lasts|
    ensures |rows| == |site| && forall i :: 0 <= i < |site| ==> rows[i] == Listing(lasts[i], 1, site[i])
  {
    seq(|site|, i requires 0 <= i < |site| => Listing(lasts[i], 1, site[i]))
  }

  /** A run delivers the site's listings up to its cuts. */
  lemma RunBringsParts(limit: nat, site: seq<seq<seq<Row>>>, a: Attempt, lasts: seq<nat>)
    requires RunOver(limit, site, a, lasts)
    ensures a.delivered == Parts(site, lasts)
  {
    forall i | 0 <= i < |site| ensures a.delivered[i] == Parts(site, lasts)[i] {
      assert Visited(limit, site[i], a.delivered[i], lasts[i]);
      var blocks: nat, replies: seq<Reply> :| VisitBrings(limit, site[i], a.delivered[i], lasts[i], blocks, replies);
      VisitDeliversExactly(limit, 1, blocks, site[i], replies);
    }
  }

  /** However many recovered blocks each visit meets and however often the process dies, if no visit is cut short and no
      insert raises, a run that finishes leaves the table of everything the site lists, first come first kept. */
  lemma BlocksAndCrashesDoNotMatter(keys: seq<string>, limit: nat, site: seq<seq<seq<Row>>>, rejected: set<Row>, t0: Table,
                                    attempts: seq<Attempt>, last: Attempt)
    requires |keys| == |site| && RunOver(limit, site, last, Uncut(limit, |site|)) && last.rejected == rejected && last.failing == {}
    requires forall i :: 0 <= i < |attempts| ==>
                           |attempts[i].delivered| == |keys| && RunOver(limit, site, attempts[i], Uncut(limit, |site|))
                           && attempts[i].rejected == rejected && attempts[i].failing == {}
    requires ScrapeSet(keys, last, AfterAttempts(keys, attempts, Store(t0, None))).1 == Finished
    ensures ScrapeSet(keys, last, AfterAttempts(keys, attempts, Store(t0, None))).0.table
         == Ideal(keys, Parts(site, Uncut(limit, |site|)), rejected, t0)
  {
    hide RunOver;
    var all := Uncut(limit, |site|);
    RunBringsParts(limit, site, last, all);
    forall i | 0 <= i < |attempts| ensures attempts[i].delivered == Parts(site, all) {
      RunBringsParts(limit, site, attempts[i], all);
    }
    ResumeEqualsUninterrupted(keys, Parts(site, all), rejected, t0, attempts, last);
  }

  /** A first run that finishes settles for good which ids are held: an id is in the table after it and any later runs
      exactly when it was there before, or some visit brought it, its first row is not rejected and its insert went through.
      What the visits' cuts left out is never fetched, and after the operator's quit that is every remaining card. */
  lemma FirstFinishDecides(keys: seq<string>, a: Attempt, t0: Table, later: seq<Attempt>, id: string)
    requires |keys| == |a.delivered| && (forall k :: 0 <= k < |a.saves| ==> a.saves[k] == Saved)
    requires ScrapeSet(keys, a, Store(t0, None)).1 == Finished
    requires forall i :: 0 <= i < |later| ==> |later[i].delivered| == |keys| && NeverTorn(later[i])
    ensures id in AfterAttempts(keys, later, ScrapeSet(keys, a, Store(t0, None)).0).table
            <==> id in t0 || Stores({}, Flat(keys, a.delivered, |keys|), a.rejected, a.failing, id)
  {
    FinishIsFinal(keys, a, Store(t0, None), later);
    HoldsExactlyWhen(keys, a, Store(t0, None), id);
    UnrecordedIsRest(keys, a.delivered, 0, 0);
    assert KeySet(keys, 0) == {};
    assert Flat(keys, a.delivered, 0) == [];
    var rest := Unrecorded(keys, a.delivered, {}, 0);
    assert [] + rest == rest;
  }

  /** On a site: after the first finishing run and whatever runs follow, an id is held exactly when it was there before, or
      the first row that carries it in the listings up to the cuts is not rejected and its insert went through. */
  lemma SiteHeldExactlyWhen(keys: seq<string>, limit: nat, site: seq<seq<seq<Row>>>, lasts: seq<nat>, a: Attempt, t0: Table,
                            later: seq<Attempt>, id: string)
    requires |keys| == |site| && RunOver(limit, site, a, lasts) && (forall k :: 0 <= k < |a.saves| ==> a.saves[k] == Saved)
    requires ScrapeSet(keys, a, Store(t0, None)).1 == Finished
    requires forall i :: 0 <= i < |later| ==> |later[i].delivered| == |keys| && NeverTorn(later[i])
    ensures id in AfterAttempts(keys, later, ScrapeSet(keys, a, Store(t0, None)).0).table
            <==> id in t0 || Stores({}, Flat(keys, Parts(site, lasts), |keys|), a.rejected, a.failing, id)
  {
    RunBringsParts(limit, site, a, lasts);
    FirstFinishDecides(keys, a, t0, later, id);
  }

  /** Card i, the first with its key, shows the id on page p. */
  ghost predicate ShownAt(keys: seq<string>, site: seq<seq<seq<Row>>>, i: nat, p: nat, id: string)
    requires |keys| == |site|
  {
    i < |keys| && keys[i] !in keys[..i] && Shows(site[i], 1, p, id)
  }

  lemma {:induction false} IdsOfParts(keys: seq<string>, site: seq<seq<seq<Row>>>, lasts: seq<nat>, n: nat, id: string)
    requires |keys| == |site| == |lasts| && n <= |keys|
    ensures id in Ids(Flat(keys, Parts(site, lasts), n))
            <==> exists i: nat, p: nat :: i < n && p <= lasts[i] && ShownAt(keys, site, i, p, id)
  {
    hide Ids;
    hide Shows;
    hide Parts;
    NoIds();
    if n > 0 {
      IdsOfParts(keys, site, lasts, n - 1, id);
      var front, last := Flat(keys, Parts(site, lasts), n - 1), Parts(site, lasts)[n - 1];
      IdsOfListing(lasts[n - 1], 1, site[n - 1], id);
      if keys[n - 1] in keys[..n - 1] {
        assert front + [] == front;
      } else {
        IdsAppend(front, last);
        var card, m := site[n - 1], lasts[n - 1];
        if p: nat :| p <= m && Shows(card, 1, p, id) {
          assert ShownAt(keys, site, n - 1, p, id);
        }
      }
    }
  }

  /** With nothing rejected and every insert going through, the site is held completely after the first finishing run, and
      ever after, exactly when every id it shows was there before or is shown by some card before that card's cut:
      no new id lies only at or beyond the cuts. */
  lemma SiteCompleteExactlyWhen(keys: seq<string>, limit: nat, site: seq<seq<seq<Row>>>, lasts: seq<nat>, a: Attempt, t0: Table,
                                later: seq<Attempt>)
    requires |keys| == |site| && RunOver(limit, site, a, lasts) && (forall k :: 0 <= k < |a.saves| ==> a.saves[k] == Saved)
    requires ScrapeSet(keys, a, Store(t0, None)).1 == Finished && a.rejected == {} && a.failing == {}
    requires forall i :: 0 <= i < |later| ==> |later[i].delivered| == |keys| && NeverTorn(later[i])
    ensures var t := AfterAttempts(keys, later, ScrapeSet(keys, a, Store(t0, None)).0).table;
            (forall id, i: nat, p: nat :: p <= limit && ShownAt(keys, site, i, p, id) ==> id in t)
            <==> forall id, i: nat, p: nat :: p <= limit && ShownAt(keys, site, i, p, id) ==>
                   id in t0 || exists j: nat, q: nat :: j < |keys| && q <= lasts[j] && ShownAt(keys, site, j, q, id)
  {
    assert |a.delivered| == |keys| == |lasts|;
    hide ShownAt;
    hide RunOver;
    var t := AfterAttempts(keys, later, ScrapeSet(keys, a, Store(t0, None)).0).table;
    forall id
      ensures id in t <==> id in t0 || exists j: nat, q: nat :: j < |keys| && q <= lasts[j] && ShownAt(keys, site, j, q, id)
    {
      HeldWhenShown(keys, limit, site, lasts, a, t0, later, id);
    }
  }

  lemma HeldWhenShown(keys: seq<string>, limit: nat, site: seq<seq<seq<Row>>>, lasts: seq<nat>, a: Attempt, t0: Table,
                      later: seq<Attempt>, id: string)
    requires |keys| == |site| && RunOver(limit, site, a, lasts) && (forall k :: 0 <= k < |a.saves| ==> a.saves[k] == Saved)
    requires ScrapeSet(keys, a, Store(t0, None)).1 == Finished && a.rejected == {} && a.failing == {}
    requires forall i :: 0 <= i < |later| ==> |later[i].delivered| == |keys| && NeverTorn(later[i])
    ensures |lasts| == |keys|
    ensures id in AfterAttempts(keys, later, ScrapeSet(keys, a, Store(t0, None)).0).table
            <==> id in t0 || exists j: nat, q: nat :: j < |keys| && q <= lasts[j] && ShownAt(keys, site, j, q, id)
  {
    hide ScrapeSet;
    hide AfterAttempts;
    hide ShownAt;
    SiteHeldExactlyWhen(keys, limit, site, lasts, a, t0, later, id);
    IdsAreFirsts(Flat(keys, Parts(site, lasts), |keys|), id);
    IdsOfParts(keys, site, lasts, |keys|, id);
  }

  // ----- any runs

  /** A run stores only what its visits bring home of the site: some card shows the id on a page before its cut. */
  lemma StoredIsBrought(keys: seq<string>, limit: nat, site: seq<seq<seq<Row>>>, lasts: seq<nat>, attempts: seq<Attempt>, s: Store,
                        j: nat, id: string)
    requires |keys| == |site| && forall i :: 0 <= i < |attempts| ==> |attempts[i].delivered| == |keys|
    requires StoredBy(keys, attempts, s, j, id) && RunOver(limit, site, attempts[j], lasts)
    ensures exists i: nat, p: nat :: i < |keys| && p <= lasts[i] && Shows(site[i], 1, p, id)
  {
    hide Shows;
    var before, a := AfterAttempts(keys, attempts[..j], s), attempts[j];
    var m := Loaded(before, a);
    IdsAreFirsts(Reached(keys, a, m.done, false, a.life, 0), id);
    ReachedIsBrought(keys, a, m.done, false, a.life, 0, id);
    var i :| 0 <= i < |keys| && id in Ids(a.delivered[i]);
    RunBringsParts(limit, site, a, lasts);
    IdsOfListing(lasts[i], 1, site[i], id);
  }

  /** Every page of the site that shows the id lies beyond its card's last page. */
  ghost predicate OnlyBeyond(site: seq<seq<seq<Row>>>, lasts: seq<nat>, id: string) {
    |lasts| == |site| && forall i: nat, p: nat :: i < |site| && Shows(site[i], 1, p, id) ==> p > lasts[i]
  }

  /** Over any runs at all, crashed, stopped or finished, with saves torn and inserts failing: an id the site shows only at
      or beyond every cut is never held unless it was there at the start. */
  lemma BeyondEveryCut(keys: seq<string>, limit: nat, site: seq<seq<seq<Row>>>, cuts: seq<seq<nat>>, attempts: seq<Attempt>, s: Store,
                       id: string)
    requires |keys| == |site| && |cuts| == |attempts| && id !in s.table
    requires forall j :: 0 <= j < |attempts| ==>
                           |attempts[j].delivered| == |keys| && RunOver(limit, site, attempts[j], cuts[j])
                           && OnlyBeyond(site, cuts[j], id)
    ensures id !in AfterAttempts(keys, attempts, s).table
  {
    hide Shows;
    hide StoredBy;
    HeldExactlyWhenStored(keys, attempts, s, id);
    if j: nat :| StoredBy(keys, attempts, s, j, id) {
      StoringRun(keys, attempts, s, j, id);
      StoredIsBrought(keys, limit, site, cuts[j], attempts, s, j, id);
    }
  }

  lemma StoringRun(keys: seq<string>, attempts: seq<Attempt>, s: Store, j: nat, id: string)
    requires forall i :: 0 <= i < |attempts| ==> |attempts[i].delivered| == |keys|
    requires StoredBy(keys, attempts, s, j, id)
    ensures j < |attempts|
  {
  }

  lemma {:induction false} ReachedIsBrought(keys: seq<string>, a: Attempt, done: set<string>, stop: bool, life: nat, i: nat, id: string)
    requires i <= |keys| == |a.delivered| && id in Ids(Reached(keys, a, done, stop, life, i))
    ensures exists k :: i <= k < |keys| && id in Ids(a.delivered[k])
    decreases |keys| - i
  {
    if keys[i] in done {
      ReachedIsBrought(keys, a, done, stop, life, i + 1, id);
    } else if life <= |a.delivered[i]| {
      IdsAppend(a.delivered[i][..life], a.delivered[i][life..]);
      assert a.delivered[i][..life] + a.delivered[i][life..] == a.delivered[i];
    } else {
      var rest := Reached(keys, a, done + {keys[i]}, i in a.stops, life - |a.delivered[i]| - 1, i + 1);
      IdsAppend(a.delivered[i], rest);
      if id !in Ids(a.delivered[i]) {
        ReachedIsBrought(keys, a, done + {keys[i]}, i in a.stops, life - |a.delivered[i]| - 1, i + 1, id);
      }
    }
  }
}
