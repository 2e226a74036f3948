/**
 * Cursor paging. The event journal is paged by key (newest first, one row of lookahead); the sensor catalogue by slicing
 * the id-ordered list. Tables are in id order, and a limit is at least one.
 */
module Paging {
  import opened Lists
  import opened Text
  import E = EventSync
  import R = RiskSync

  /** The columns of an event that the listing reads. */
  datatype Row = Row(id: string, kind: string, facility: Option<string>, sensor: string, occurred: int)

  datatype Query = Query(facility: string, sensor: string, kind: string, from: Option<int>, until: Option<int>)

  datatype Page = Page(items: seq<Row>, next: Option<string>, total: nat)

  type Limit = n: nat | n > 0 witness 1

  /** Empty text is no filter; `scope` None is unrestricted, otherwise rows without a facility are out. */
  predicate Matches(r: Row, scope: Option<set<string>>, q: Query) {
    && (scope.Some? ==> r.facility.Some? && r.facility.value in scope.value)
    && (q.facility != "" ==> r.facility == Some(q.facility))
    && (q.sensor != "" ==> r.sensor == q.sensor)
    && (q.kind != "" ==> r.kind == q.kind)
    && (q.from.Some? ==> r.occurred >= q.from.value)
    && (q.until.Some? ==> r.occurred <= q.until.value)
  }

  function Matching(scope: Option<set<string>>, q: Query): Row -> bool {
    (r: Row) => Matches(r, scope, q)
  }

  predicate Behind(id: string, cursor: Option<string>) {
    cursor.None? || cursor.value == "" || Before(id, cursor.value)
  }

  function BehindCursor(cursor: Option<string>): Row -> bool {
    (r: Row) => Behind(r.id, cursor)
  }

  function Newest(rows: seq<Row>): seq<Row> {
    seq(|rows|, k requires 0 <= k < |rows| => rows[|rows| - 1 - k])
  }

  function Upto(rows: seq<Row>, n: nat): seq<Row> {
    if n < |rows| then rows[..n] else rows
  }

  function ListEvents(table: seq<Row>, scope: Option<set<string>>, q: Query, cursor: Option<string>, limit: Limit): Page {
    if scope == Some({}) then Page([], None, 0)
    else
      var matching := Filter(table, Matching(scope, q));
      var rows := Upto(Newest(Filter(matching, BehindCursor(cursor))), limit + 1);
      var items := Upto(rows, limit);
      Page(items, if |rows| > limit then Some(items[|items| - 1].id) else None, |matching|)
  }

  ghost predicate Ascends(rows: seq<Row>) {
    forall i, k | 0 <= i < k < |rows| :: Before(rows[i].id, rows[k].id)
  }

  ghost predicate IsTable(rows: seq<Row>) {
    Ascends(rows) && forall r | r in rows :: r.id != ""
  }

  lemma {:induction false} FilterAscends(rows: seq<Row>, p: Row -> bool)
    requires Ascends(rows)
    ensures Ascends(Filter(rows, p))
  {
    if rows != [] {
      var n := |rows| - 1;
      FilterAscends(rows[..n], p);
      FilterMembers(rows[..n], p);
      var front := Filter(rows[..n], p);
      forall i | 0 <= i < |front| ensures Before(front[i].id, rows[n].id) {
        assert front[i] in front;
        var j :| 0 <= j < n && rows[j] == front[i];
      }
    }
  }

  /** Behind the id of a row lie exactly the rows before it. */
  lemma RowsBehind(rows: seq<Row>, k: nat)
    requires Ascends(rows) && k < |rows| && rows[k].id != ""
    ensures Filter(rows, BehindCursor(Some(rows[k].id))) == rows[..k]
  {
    forall i | k <= i < |rows| ensures !Before(rows[i].id, rows[k].id) {
      BeforeIsIrreflexive(rows[k].id);
      if i > k {
        BeforeIsAsymmetric(rows[k].id, rows[i].id);
      }
    }
    FilterPrefix(rows, k, BehindCursor(Some(rows[k].id)));
  }

  lemma MatchesBehind(table: seq<Row>, later: seq<Row>, scope: Option<set<string>>, q: Query, k: nat)
    requires IsTable(later) && table <= later && k < |Filter(table, Matching(scope, q))|
    ensures var wanted := Filter(table, Matching(scope, q));
            Filter(Filter(later, Matching(scope, q)), BehindCursor(Some(wanted[k].id))) == wanted[..k]
  {
    var wanted, added := Filter(table, Matching(scope, q)), later[|table|..];
    assert later == table + added;
    CountAppend(table, added, Matching(scope, q));
    var all := Filter(later, Matching(scope, q));
    FilterAscends(later, Matching(scope, q));
    FilterMembers(later, Matching(scope, q));
    assert all[k] == wanted[k] && all[k] in all;
    RowsBehind(all, k);
    assert all[..k] == wanted[..k];
  }

  /** The `limit` newest of the first k rows, and the id of the last of them if more follow. */
  function Stretch(wanted: seq<Row>, k: nat, limit: Limit): (seq<Row>, Option<string>)
    requires k <= |wanted|
  {
    (Upto(Newest(wanted[..k]), limit), if k > limit then Some(wanted[k - limit].id) else None)
  }

  ghost predicate IsStretch(wanted: seq<Row>, k: nat, limit: Limit, page: Page)
    requires k <= |wanted|
  {
    (page.items, page.next) == Stretch(wanted, k, limit)
  }

  lemma Lookahead(rows: seq<Row>, limit: Limit)
    ensures Upto(Upto(rows, limit + 1), limit) == Upto(rows, limit)
    ensures |Upto(rows, limit + 1)| > limit <==> |rows| > limit
    ensures |rows| > limit ==> |Upto(rows, limit)| == limit && Upto(rows, limit)[limit - 1] == rows[limit - 1]
  {
  }

  lemma NewestAt(rows: seq<Row>, k: nat)
    requires k < |rows|
    ensures |Newest(rows)| == |rows| && Newest(rows)[k] == rows[|rows| - 1 - k]
  {
  }

  /** The lookahead row decides about the cursor, and the cursor names the last row that is shown. */
  lemma ListIsStretch(table: seq<Row>, scope: Option<set<string>>, q: Query, cursor: Option<string>, limit: Limit, wanted: seq<Row>, k: nat)
    requires scope != Some({}) && k <= |wanted|
    requires Filter(Filter(table, Matching(scope, q)), BehindCursor(cursor)) == wanted[..k]
    ensures IsStretch(wanted, k, limit, ListEvents(table, scope, q, cursor, limit))
  {
    var shown := Newest(wanted[..k]);
    assert |shown| == k;
    Lookahead(shown, limit);
    var page := ListEvents(table, scope, q, cursor, limit);
    assert page.items == Upto(shown, limit);
    if k > limit {
      NewestAt(wanted[..k], limit - 1);
      assert page.items[|page.items| - 1] == wanted[k - limit];
    }
  }

  /** A page asked for behind row k of the first matches is the next stretch of them, whatever was appended since. */
  lemma PageBehind(table: seq<Row>, later: seq<Row>, scope: Option<set<string>>, q: Query, k: nat, limit: Limit, wanted: seq<Row>)
    requires IsTable(later) && table <= later && scope != Some({}) && wanted == Filter(table, Matching(scope, q)) && k < |wanted|
    ensures IsStretch(wanted, k, limit, ListEvents(later, scope, q, Some(wanted[k].id), limit))
  {
    MatchesBehind(table, later, scope, q, k);
    ListIsStretch(later, scope, q, Some(wanted[k].id), limit, wanted, k);
  }

  lemma FirstPage(table: seq<Row>, scope: Option<set<string>>, q: Query, limit: Limit, wanted: seq<Row>)
    requires scope != Some({}) && wanted == Filter(table, Matching(scope, q))
    ensures IsStretch(wanted, |wanted|, limit, ListEvents(table, scope, q, None, limit))
  {
    CountAll(wanted, BehindCursor(None));
    assert wanted[..|wanted|] == wanted;
    ListIsStretch(table, scope, q, None, limit, wanted, |wanted|);
  }

  // A crawl: page after page, while rows with larger ids may be appended between the requests.

  /** The page a client asks for next; nothing after a page without a cursor. */
  function PageAfter(previous: Page, table: seq<Row>, scope: Option<set<string>>, q: Query, limit: Limit): Page {
    if previous.next.None? then Page([], None, 0) else ListEvents(table, scope, q, previous.next, limit)
  }

  lemma StretchNext(wanted: seq<Row>, k: nat, limit: Limit, page: Page)
    requires k <= |wanted| && IsStretch(wanted, k, limit, page)
    ensures page.next == if k > limit then Some(wanted[k - limit].id) else None
  {
  }

  lemma NextStretch(table: seq<Row>, later: seq<Row>, scope: Option<set<string>>, q: Query, limit: Limit, previous: Page, k: nat, wanted: seq<Row>)
    requires IsTable(later) && table <= later && scope != Some({}) && wanted == Filter(table, Matching(scope, q))
    requires k <= |wanted| && IsStretch(wanted, k, limit, previous)
    ensures IsStretch(wanted, Less(k, limit), limit, PageAfter(previous, later, scope, q, limit))
  {
    if k > limit {
      StretchNext(wanted, k, limit, previous);
      MoreToCome(table, later, scope, q, limit, previous, k, wanted);
    } else {
      StretchNext(wanted, k, limit, previous);
      NoPage(wanted, limit);
    }
  }

  lemma MoreToCome(table: seq<Row>, later: seq<Row>, scope: Option<set<string>>, q: Query, limit: Limit, previous: Page, k: nat, wanted: seq<Row>)
    requires IsTable(later) && table <= later && scope != Some({}) && wanted == Filter(table, Matching(scope, q))
    requires limit < k <= |wanted| && previous.next == Some(wanted[k - limit].id)
    ensures IsStretch(wanted, k - limit, limit, PageAfter(previous, later, scope, q, limit))
  {
    PageBehind(table, later, scope, q, k - limit, limit, wanted);
  }

  lemma NoPage(wanted: seq<Row>, limit: Limit)
    ensures IsStretch(wanted, 0, limit, Page([], None, 0))
  {
    assert wanted[..0] == [];
  }

  function Less(k: nat, limit: Limit): nat {
    if k > limit then k - limit else 0
  }

  /** How many of `total` rows are left after n pages. */
  function Rest(total: nat, limit: Limit, n: nat): (rest: nat)
    ensures rest <= total
  {
    if n == 0 then total else Less(Rest(total, limit, n - 1), limit)
  }

  lemma {:induction false} RestIs(total: nat, limit: Limit, n: nat)
    ensures Rest(total, limit, n) == if n * limit < total then total - n * limit else 0
  {
    if n > 0 {
      RestIs(total, limit, n - 1);
      assert n * limit == (n - 1) * limit + limit;
    }
  }

  lemma NothingLeft(total: nat, limit: Limit, n: nat)
    ensures Rest(total, limit, n) > limit <==> (n + 1) * limit < total
    ensures (n + 1) * limit >= total ==> Rest(total, limit, n + 1) == 0
  {
    RestIs(total, limit, n);
    assert (n + 1) * limit == n * limit + limit;
  }

  /** `growth(n)` is the table when page n is asked for. */
  ghost predicate Grows(growth: nat -> seq<Row>) {
    forall n: nat :: IsTable(growth(n)) && growth(0) <= growth(n)
  }

  /** The pages a client gets, from the first one on. */
  ghost predicate Crawl(page: nat -> Page, growth: nat -> seq<Row>, scope: Option<set<string>>, q: Query, limit: Limit) {
    && page(0) == ListEvents(growth(0), scope, q, None, limit)
    && forall n: nat :: Follows(page, growth, scope, q, limit, n)
  }

  ghost predicate Follows(page: nat -> Page, growth: nat -> seq<Row>, scope: Option<set<string>>, q: Query, limit: Limit, n: nat) {
    n > 0 ==> page(n) == PageAfter(page(n - 1), growth(n), scope, q, limit)
  }

  function ItemsBefore(page: nat -> Page, n: nat): seq<Row> {
    if n == 0 then [] else ItemsBefore(page, n - 1) + page(n - 1).items
  }

  /** Every event that matches when the crawl starts, newest first. */
  function Wanted(table: seq<Row>, scope: Option<set<string>>, q: Query): seq<Row> {
    if scope == Some({}) then [] else Newest(Filter(table, Matching(scope, q)))
  }

  lemma CrawlStep(page: nat -> Page, growth: nat -> seq<Row>, scope: Option<set<string>>, q: Query, limit: Limit, n: nat, wanted: seq<Row>, k: nat)
    requires Grows(growth) && Crawl(page, growth, scope, q, limit) && scope != Some({}) && n > 0
    requires wanted == Filter(growth(0), Matching(scope, q)) && k <= |wanted| && IsStretch(wanted, k, limit, page(n - 1))
    ensures IsStretch(wanted, Less(k, limit), limit, page(n))
  {
    assert IsTable(growth(n)) && growth(0) <= growth(n);
    assert Follows(page, growth, scope, q, limit, n);
    NextStretch(growth(0), growth(n), scope, q, limit, page(n - 1), k, wanted);
  }

  /** Page n is the stretch of the first matches that follows n full pages. */
  lemma {:induction false} PageIsStretch(page: nat -> Page, growth: nat -> seq<Row>, scope: Option<set<string>>, q: Query, limit: Limit, n: nat, wanted: seq<Row>)
    requires Grows(growth) && Crawl(page, growth, scope, q, limit) && scope != Some({})
    requires wanted == Filter(growth(0), Matching(scope, q))
    ensures IsStretch(wanted, Rest(|wanted|, limit, n), limit, page(n))
  {
    if n == 0 {
      FirstPage(growth(0), scope, q, limit, wanted);
    } else {
      PageIsStretch(page, growth, scope, q, limit, n - 1, wanted);
      CrawlStep(page, growth, scope, q, limit, n, wanted, Rest(|wanted|, limit, n - 1));
    }
  }

  ghost predicate AreStretches(page: nat -> Page, wanted: seq<Row>, limit: Limit) {
    forall n: nat :: StretchAt(page, wanted, limit, n)
  }

  ghost predicate StretchAt(page: nat -> Page, wanted: seq<Row>, limit: Limit, n: nat) {
    IsStretch(wanted, Rest(|wanted|, limit, n), limit, page(n))
  }

  lemma StretchFollows(wanted: seq<Row>, limit: Limit, rest: nat)
    requires rest <= |wanted|
    ensures Newest(wanted)[..|wanted| - rest] + Stretch(wanted, rest, limit).0 == Newest(wanted)[..|wanted| - Less(rest, limit)]
  {
  }

  lemma {:induction false} ItemsAreTheNewest(page: nat -> Page, wanted: seq<Row>, limit: Limit, n: nat)
    requires AreStretches(page, wanted, limit)
    ensures ItemsBefore(page, n) == Newest(wanted)[..|wanted| - Rest(|wanted|, limit, n)]
  {
    if n == 0 {
      assert Newest(wanted)[..0] == [];
    } else {
      var rest := Rest(|wanted|, limit, n - 1);
      ItemsAreTheNewest(page, wanted, limit, n - 1);
      assert ItemsBefore(page, n) == ItemsBefore(page, n - 1) + page(n - 1).items;
      NextItems(page, wanted, limit, n - 1, rest);
      RestNext(|wanted|, limit, n);
    }
  }

  lemma RestNext(total: nat, limit: Limit, n: nat)
    requires n > 0
    ensures Rest(total, limit, n) == Less(Rest(total, limit, n - 1), limit)
  {
  }

  lemma NextItems(page: nat -> Page, wanted: seq<Row>, limit: Limit, n: nat, rest: nat)
    requires AreStretches(page, wanted, limit) && rest == Rest(|wanted|, limit, n)
    ensures Newest(wanted)[..|wanted| - rest] + page(n).items == Newest(wanted)[..|wanted| - Less(rest, limit)]
  {
    assert StretchAt(page, wanted, limit, n);
    StretchFollows(wanted, limit, rest);
  }

  lemma StretchesEnd(page: nat -> Page, wanted: seq<Row>, limit: Limit, n: nat)
    requires AreStretches(page, wanted, limit)
    ensures page(n).next.Some? <==> (n + 1) * limit < |wanted|
    ensures (n + 1) * limit >= |wanted| ==> ItemsBefore(page, n + 1) == Newest(wanted)
  {
    ItemsAreTheNewest(page, wanted, limit, n + 1);
    NothingLeft(|wanted|, limit, n);
    assert StretchAt(page, wanted, limit, n);
    assert Newest(wanted)[..|wanted|] == Newest(wanted);
  }

  /**
   * The crawl goes on exactly while matches of the start are left: it ends with the page that completes them, and by then
   * has listed every one of them once, newest first, whatever was appended meanwhile.
   */
  lemma CrawlListsEverythingOnce(page: nat -> Page, growth: nat -> seq<Row>, scope: Option<set<string>>, q: Query, limit: Limit, n: nat)
    requires Grows(growth) && Crawl(page, growth, scope, q, limit)
    ensures page(n).next.Some? <==> (n + 1) * limit < |Wanted(growth(0), scope, q)|
    ensures (n + 1) * limit >= |Wanted(growth(0), scope, q)| ==> ItemsBefore(page, n + 1) == Wanted(growth(0), scope, q)
  {
    if scope == Some({}) {
      EmptyScope(page, growth, scope, q, limit, n);
    } else {
      var wanted := Filter(growth(0), Matching(scope, q));
      forall m: nat ensures StretchAt(page, wanted, limit, m) {
        PageIsStretch(page, growth, scope, q, limit, m, wanted);
      }
      StretchesEnd(page, wanted, limit, n);
    }
  }

  lemma {:induction false} EmptyScope(page: nat -> Page, growth: nat -> seq<Row>, scope: Option<set<string>>, q: Query, limit: Limit, n: nat)
    requires Crawl(page, growth, scope, q, limit) && scope == Some({})
    ensures page(n) == Page([], None, 0) && ItemsBefore(page, n + 1) == []
  {
    if n > 0 {
      EmptyScope(page, growth, scope, q, limit, n - 1);
      assert Follows(page, growth, scope, q, limit, n);
    }
  }

  // The event journal is such a growing table.

  function RowOf(e: E.Event): Row {
    Row(e.id, e.kind, e.facility, e.sensor, e.occurred)
  }

  function RowsOf(events: seq<E.Event>): (rows: seq<Row>)
    ensures |rows| == |events|
  {
    seq(|events|, k requires 0 <= k < |events| => RowOf(events[k]))
  }

  /** Readings below 10^12 keep the journal in id order. */
  lemma JournalIsTable(j: E.Journal)
    requires E.InOrder(j)
    ensures IsTable(RowsOf(j.events))
  {
    E.InOrderAscends(j);
    forall r | r in RowsOf(j.events) ensures r.id != "" {
      var k :| 0 <= k < |j.events| && RowsOf(j.events)[k] == r;
      assert E.Numbered(j.events[k], j.cursor);
      assert |E.I.EventId(j.events[k].reading)| >= 4;
    }
  }

  /** A sync only appends to the listing. */
  lemma SyncAppends(j: E.Journal, channels: seq<E.Channel>, now: int)
    requires E.InOrder(j)
    ensures RowsOf(j.events) <= RowsOf(E.Synced(j, channels, now).events)
    ensures IsTable(RowsOf(E.Synced(j, channels, now).events))
  {
    E.SyncKeepsInOrder(j, channels, now);
    JournalIsTable(E.Synced(j, channels, now));
  }

  lemma SameRows(before: seq<E.Event>, after: seq<E.Event>)
    requires R.SameButLinks(before, after)
    ensures RowsOf(after) == RowsOf(before)
  {
    forall k | 0 <= k < |before| ensures RowOf(after[k]) == RowOf(before[k]) {
      assert R.LinkAdded(before[k], after[k]);
      assert RowOf(after[k].(risk := None)) == RowOf(before[k].(risk := None));
    }
  }

  lemma StepAppends(w: R.World, step: R.Step)
    requires R.WorldOk(w)
    ensures RowsOf(w.journal.events) <= RowsOf(R.Do(w, step).journal.events)
  {
    match step {
      case SyncEvents(now) => SyncAppends(w.journal, w.channels, now);
      case SyncRisks(batch, predict, now) =>
        SyncAppends(w.journal, w.channels, now);
        R.SyncRisksKeepsWorld(w, batch, predict, now);
        SameRows(E.Synced(w.journal, w.channels, now).events, R.AfterSync(w, batch, predict, now).journal.events);
      case Insert(_) =>
      case Catalogue(_) =>
    }
  }

  /** On every run of the service the listing is a table, and further steps only append to it, links or not. */
  lemma {:induction false} RunAppends(channels: seq<E.Channel>, steps: seq<R.Step>, more: seq<R.Step>)
    requires R.Legal(R.Start(channels), steps + more)
    ensures RowsOf(R.Run(R.Start(channels), steps).journal.events) <= RowsOf(R.Run(R.Start(channels), steps + more).journal.events)
    ensures IsTable(RowsOf(R.Run(R.Start(channels), steps + more).journal.events))
    decreases |more|
  {
    R.RunKeepsWorld(channels, steps + more);
    JournalIsTable(R.Run(R.Start(channels), steps + more).journal);
    if more == [] {
      assert steps + more == steps;
    } else {
      var front, last := more[..|more| - 1], more[|more| - 1];
      R.LastOfMore(steps, more);
      R.RunSnoc(R.Start(channels), steps + front, last);
      RunAppends(channels, steps, front);
      R.RunKeepsWorld(channels, steps + front);
      StepAppends(R.Run(R.Start(channels), steps + front), last);
    }
  }

  /** `history(n)` is the run of the service until page n is asked for. */
  ghost predicate Unfolds(channels: seq<E.Channel>, history: nat -> seq<R.Step>) {
    forall n: nat :: history(0) <= history(n) && R.Legal(R.Start(channels), history(n))
  }

  function ListingAfter(channels: seq<E.Channel>, history: nat -> seq<R.Step>): nat -> seq<Row> {
    (n: nat) => RowsOf(R.Run(R.Start(channels), history(n)).journal.events)
  }

  lemma ServiceGrows(channels: seq<E.Channel>, history: nat -> seq<R.Step>)
    requires Unfolds(channels, history)
    ensures Grows(ListingAfter(channels, history))
  {
    var growth := ListingAfter(channels, history);
    forall n: nat ensures IsTable(growth(n)) && growth(0) <= growth(n) {
      var more := history(n)[|history(0)|..];
      assert history(n) == history(0) + more;
      RunAppends(channels, history(0), more);
    }
  }

  /** A client that follows the cursor while readings arrive and both syncs go on sees every event that matched at its start. */
  lemma ServiceCrawlListsEverythingOnce(page: nat -> Page, channels: seq<E.Channel>, history: nat -> seq<R.Step>,
                                        scope: Option<set<string>>, q: Query, limit: Limit, n: nat)
    requires Unfolds(channels, history) && Crawl(page, ListingAfter(channels, history), scope, q, limit)
    ensures var wanted := Wanted(RowsOf(R.Run(R.Start(channels), history(0)).journal.events), scope, q);
            && (page(n).next.Some? <==> (n + 1) * limit < |wanted|)
            && ((n + 1) * limit >= |wanted| ==> ItemsBefore(page, n + 1) == wanted)
  {
    ServiceGrows(channels, history);
    CrawlListsEverythingOnce(page, ListingAfter(channels, history), scope, q, limit, n);
  }

  // The sensor catalogue: the whole filtered list in id order, sliced behind the cursor's position.

  datatype Slice = Slice(ids: seq<string>, next: Option<string>)

  ghost predicate Listing(ids: seq<string>) {
    Ascending(ids) && forall x | x in ids :: x != ""
  }

  /** The position after the cursor; the end of the list when the cursor is not in it. */
  method FindStart(ids: seq<string>, cursor: Option<string>) returns (start: nat)
    ensures cursor.None? || cursor.value == "" ==> start == 0
    ensures cursor.Some? && cursor.value != "" && cursor.value in ids ==> 0 < start <= |ids| && ids[start - 1] == cursor.value && cursor.value !in ids[..start - 1]
    ensures cursor.Some? && cursor.value != "" && cursor.value !in ids ==> start == |ids|
  {
    start := 0;
    if cursor.Some? && cursor.value != "" {
      for i := 0 to |ids|
        invariant cursor.value !in ids[..i]
      {
        if ids[i] == cursor.value {
          return i + 1;
        }
      }
      start := |ids|;
    }
  }

  function SliceAt(ids: seq<string>, start: nat, limit: Limit): Slice
    requires start <= |ids|
  {
    var rest := ids[start..];
    var page := if limit < |rest| then rest[..limit] else rest;
    Slice(page, if |page| == limit && start + limit < |ids| then Some(page[|page| - 1]) else None)
  }

  function AheadOf(cursor: Option<string>): string -> bool {
    (x: string) => cursor.None? || cursor.value == "" || Before(cursor.value, x)
  }

  /** The same page asked for by key: the first ids after the cursor, with one more to look ahead. */
  function KeysetAt(ids: seq<string>, cursor: Option<string>, limit: Limit): Slice {
    var ahead := Filter(ids, AheadOf(cursor));
    var page := if limit < |ahead| then ahead[..limit] else ahead;
    Slice(page, if |ahead| > limit then Some(page[|page| - 1]) else None)
  }

  lemma AheadOfPosition(ids: seq<string>, start: nat)
    requires Ascending(ids) && 0 < start <= |ids|
    ensures ids[start - 1] != "" ==> Filter(ids, AheadOf(Some(ids[start - 1]))) == ids[start..]
  {
    if ids[start - 1] != "" {
      forall i | 0 <= i < start ensures !Before(ids[start - 1], ids[i]) {
        BeforeIsIrreflexive(ids[start - 1]);
        if i < start - 1 {
          BeforeIsAsymmetric(ids[i], ids[start - 1]);
        }
      }
      FilterSuffix(ids, start, AheadOf(Some(ids[start - 1])));
    }
  }

  /** `list_sensors` on the ids of the filtered catalogue. */
  method ListSensors(ids: seq<string>, cursor: Option<string>, limit: Limit) returns (page: Slice)
    requires Listing(ids)
    ensures cursor.None? || cursor.value == "" || cursor.value in ids ==> page == KeysetAt(ids, cursor, limit)
    ensures cursor.Some? && cursor.value != "" && cursor.value !in ids ==> page == Slice([], None)
  {
    var start := FindStart(ids, cursor);
    page := SliceAt(ids, start, limit);
    if cursor.None? || cursor.value == "" {
      CountAll(ids, AheadOf(cursor));
      assert ids[0..] == ids;
    } else if cursor.value in ids {
      AheadOfPosition(ids, start);
    }
  }

  /** For a cursor that has left the list the two ways of paging agree exactly when nothing lies ahead of it. */
  lemma LostCursorAgreesIff(ids: seq<string>, cursor: string, limit: Limit)
    requires Listing(ids) && cursor != "" && cursor !in ids
    ensures KeysetAt(ids, Some(cursor), limit) == Slice([], None) <==> forall x | x in ids :: !Before(cursor, x)
  {
    FilterMembers(ids, AheadOf(Some(cursor)));
    var ahead := Filter(ids, AheadOf(Some(cursor)));
    if ahead != [] {
      assert ahead[0] in ahead;
    }
  }

  // What a query selects, and the total.

  const ANY: Query := Query("", "", "", None, None)

  /** Without a scope and filters everything matches. */
  lemma EverythingMatches(r: Row)
    ensures Matches(r, None, ANY)
  {
  }

  /** Every filter selects by its own column, the bounds included, and a scope excludes rows without a facility. */
  lemma FiltersSelect(r: Row, scope: set<string>, text: string, moment: int)
    ensures Matches(r, Some(scope), ANY) <==> exists f | f in scope :: r.facility == Some(f)
    ensures text != "" ==> (Matches(r, None, ANY.(facility := text)) <==> r.facility == Some(text))
    ensures text != "" ==> (Matches(r, None, ANY.(sensor := text)) <==> r.sensor == text)
    ensures text != "" ==> (Matches(r, None, ANY.(kind := text)) <==> r.kind == text)
    ensures Matches(r, None, ANY.(from := Some(moment))) <==> moment <= r.occurred
    ensures Matches(r, None, ANY.(until := Some(moment))) <==> r.occurred <= moment
  {
  }

  /** A query selects what each of its filters selects. */
  lemma FiltersCombine(r: Row, scope: Option<set<string>>, q: Query)
    ensures Matches(r, scope, q) <==>
              && Matches(r, scope, ANY)
              && Matches(r, None, ANY.(facility := q.facility)) && Matches(r, None, ANY.(sensor := q.sensor)) && Matches(r, None, ANY.(kind := q.kind))
              && Matches(r, None, ANY.(from := q.from)) && Matches(r, None, ANY.(until := q.until))
  {
  }

  /** The total is the number of matching rows of the whole table, wherever the cursor is and whatever the limit. */
  lemma TotalCountsTheMatches(table: seq<Row>, scope: Option<set<string>>, q: Query, cursor: Option<string>, limit: Limit)
    ensures ListEvents(table, scope, q, cursor, limit).total == Count(table, Matching(scope, q))
  {
    FilterMembers(table, Matching(scope, q));
    if scope == Some({}) {
      CountNone(table, Matching(scope, q));
    }
  }
}
