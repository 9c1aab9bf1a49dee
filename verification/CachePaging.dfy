/**
 Keyset paging over the riders (backend/app/services/cache_reconciliation.py,
 lines 319-384): pages of previews and of ledger audits, and what a client sees
 that follows `next_after_id`.
 */
module CachePaging {
  import opened Wrappers
  import LegacyLedger
  import C = CacheReconciliation

  const MAX_PAGE_SIZE := 25

  datatype RiderStatus = PENDIENTE | ACTIVO | INACTIVO | OCUPADO | SUSPENDIDO

  datatype Row = Row(id: nat, status: RiderStatus)

  datatype PageError = BadLimit | RiderVanished

  datatype Ids = Ids(ids: seq<nat>, more: bool)

  /** The table as the ordered query scans it. */
  ghost predicate Ordered(table: seq<Row>) {
    forall i, j :: 0 <= i < j < |table| ==> table[i].id < table[j].id
  }

  predicate Wanted(row: Row, after: Option<nat>, filter: Option<RiderStatus>) {
    && (after.Some? ==> row.id > after.value)
    && (filter.Some? ==> row.status == filter.value)
  }

  /** Every identifier the query would return without its limit. */
  function Selected(table: seq<Row>, after: Option<nat>, filter: Option<RiderStatus>): seq<nat> {
    if table == [] then []
    else
      var row := table[|table| - 1];
      Selected(table[..|table| - 1], after, filter) + if Wanted(row, after, filter) then [row.id] else []
  }

  function First(ids: seq<nat>, n: nat): seq<nat> {
    if |ids| <= n then ids else ids[..n]
  }

  function PageIds(table: seq<Row>, limit: int, after: Option<nat>, filter: Option<RiderStatus>): Result<Ids,
                   PageError> {
    if !(1 <= limit <= MAX_PAGE_SIZE) then Failure(BadLimit)
    else
      var rows := First(Selected(table, after, filter), limit + 1);
      Success(Ids(First(rows, limit), |rows| > limit))
  }

  function NextAfter(page: Ids): Option<nat> {
    if page.more && page.ids != [] then Some(page.ids[|page.ids| - 1]) else None
  }

  // ----- the query -----

  ghost predicate Ascending(ids: seq<nat>) {
    forall i, j :: 0 <= i < j < |ids| ==> ids[i] < ids[j]
  }

  lemma {:induction false} SelectedMembers(table: seq<Row>, after: Option<nat>, filter: Option<RiderStatus>, id: nat)
    ensures id in Selected(table, after, filter) <==>
            exists i :: 0 <= i < |table| && table[i].id == id && Wanted(table[i], after, filter)
  {
    if table != [] {
      var n := |table| - 1;
      SelectedMembers(table[..n], after, filter, id);
      assert forall i :: 0 <= i < n ==> table[..n][i] == table[i];
    }
  }

  lemma {:induction false} SelectedAscending(table: seq<Row>, after: Option<nat>, filter: Option<RiderStatus>)
    requires Ordered(table)
    ensures Ascending(Selected(table, after, filter))
  {
    if table != [] {
      var n := |table| - 1;
      SelectedAscending(table[..n], after, filter);
      var before := Selected(table[..n], after, filter);
      forall i | 0 <= i < |before| ensures before[i] < table[n].id {
        SelectedMembers(table[..n], after, filter, before[i]);
      }
    }
  }

  lemma {:induction false} NothingBeyond(table: seq<Row>, bound: nat, filter: Option<RiderStatus>)
    requires forall i :: 0 <= i < |table| ==> table[i].id <= bound
    ensures Selected(table, Some(bound), filter) == []
  {
    if table != [] {
      NothingBeyond(table[..|table| - 1], bound, filter);
    }
  }

  /** Asking again after one of the identifiers gives exactly the ones behind it. */
  lemma {:induction false} RestAfter(table: seq<Row>, after: Option<nat>, filter: Option<RiderStatus>, k: nat)
    requires Ordered(table) && k < |Selected(table, after, filter)|
    ensures Selected(table, Some(Selected(table, after, filter)[k]), filter) == Selected(table, after, filter)[k + 1..]
  {
    var n := |table| - 1;
    var row := table[n];
    var before := Selected(table[..n], after, filter);
    var all := Selected(table, after, filter);
    var cursor := all[k];
    if k < |before| {
      RestAfter(table[..n], after, filter, k);
      SelectedMembers(table[..n], after, filter, cursor);
      SelectedMembers(table, after, filter, cursor);
      assert cursor < row.id;
      assert Wanted(row, Some(cursor), filter) == Wanted(row, after, filter) by {
        SelectedMembers(table[..n], after, filter, cursor);
      }
      assert all[k + 1..] == before[k + 1..] + if Wanted(row, after, filter) then [row.id] else [];
    } else {
      assert cursor == row.id;
      NothingBeyond(table, cursor, filter);
    }
  }

  // ----- following the cursor over a fixed table -----

  function Visited(pages: seq<Ids>): seq<nat> {
    if pages == [] then [] else pages[0].ids + Visited(pages[1..])
  }

  lemma {:induction false} NextPage(table: seq<Row>, limit: int, after: Option<nat>, filter: Option<RiderStatus>)
    requires Ordered(table) && 1 <= limit <= MAX_PAGE_SIZE
    ensures var all := Selected(table, after, filter);
            var page := PageIds(table, limit, after, filter).value;
            if |all| <= limit then !page.more && page.ids == all && NextAfter(page) == None
            else page.more && page.ids == all[..limit] && NextAfter(page) == Some(all[limit - 1])
                 && Selected(table, NextAfter(page), filter) == all[limit..]
  {
    var all := Selected(table, after, filter);
    if |all| > limit {
      RestAfter(table, after, filter, limit - 1);
      assert First(First(all, limit + 1), limit) == all[..limit];
    }
  }

  /** The pages a client gets that follows the cursor to the end. */
  function Follow(table: seq<Row>, limit: int, after: Option<nat>, filter: Option<RiderStatus>): seq<Ids>
    requires Ordered(table) && 1 <= limit <= MAX_PAGE_SIZE
    decreases |Selected(table, after, filter)|
  {
    NextPage(table, limit, after, filter);
    var page := PageIds(table, limit, after, filter).value;
    if page.more then [page] + Follow(table, limit, NextAfter(page), filter) else [page]
  }

  lemma {:induction false} VisitedFirst(page: Ids, rest: seq<Ids>)
    ensures Visited([page] + rest) == page.ids + Visited(rest)
  {
  }

  /** Every page but the last is full and says that there are more. */
  ghost predicate WellPaged(pages: seq<Ids>, limit: int) {
    && |pages| > 0 && !pages[|pages| - 1].more && |pages[|pages| - 1].ids| <= limit
    && forall i :: 0 <= i < |pages| - 1 ==> pages[i].more && |pages[i].ids| == limit
  }

  lemma {:induction false} WellPagedFirst(page: Ids, rest: seq<Ids>, limit: int)
    requires WellPaged(rest, limit) && page.more && |page.ids| == limit
    ensures WellPaged([page] + rest, limit)
  {
  }

  /** A list of identifiers cut into pages. */
  function Cut(all: seq<nat>, limit: nat): seq<Ids>
    requires limit >= 1
    decreases |all|
  {
    if |all| <= limit then [Ids(all, false)] else [Ids(all[..limit], true)] + Cut(all[limit..], limit)
  }

  lemma {:induction false} CutIsWellPaged(all: seq<nat>, limit: nat)
    requires limit >= 1
    ensures WellPaged(Cut(all, limit), limit)
    decreases |all|
  {
    if |all| > limit {
      CutIsWellPaged(all[limit..], limit);
      WellPagedFirst(Ids(all[..limit], true), Cut(all[limit..], limit), limit);
    }
  }

  lemma {:induction false} CutVisits(all: seq<nat>, limit: nat)
    requires limit >= 1
    ensures Visited(Cut(all, limit)) == all
    decreases |all|
  {
    if |all| > limit {
      CutVisits(all[limit..], limit);
      VisitedFirst(Ids(all[..limit], true), Cut(all[limit..], limit));
      assert all == all[..limit] + all[limit..];
    } else {
      VisitedFirst(Ids(all, false), []);
      assert [Ids(all, false)] + [] == [Ids(all, false)] && all + [] == all;
    }
  }

  /** Paging by cursor, each page queried anew, is cutting the whole selection into pages. */
  lemma {:induction false} FollowIsCut(table: seq<Row>, limit: nat, after: Option<nat>, filter: Option<RiderStatus>)
    requires Ordered(table) && 1 <= limit <= MAX_PAGE_SIZE
    ensures Follow(table, limit, after, filter) == Cut(Selected(table, after, filter), limit)
    decreases |Selected(table, after, filter)|
  {
    var page := PageIds(table, limit, after, filter).value;
    NextPage(table, limit, after, filter);
    if page.more {
      FollowIsCut(table, limit, NextAfter(page), filter);
    }
  }

  /** The row of a rider behind the cursor with the status asked for, if one is. */
  predicate Asked(row: Row, after: Option<nat>, filter: Option<RiderStatus>, id: nat) {
    row.id == id && (after == None || after.value < id) && (filter == None || filter.value == row.status)
  }

  lemma {:induction false} SelectedIffAsked(table: seq<Row>, after: Option<nat>, filter: Option<RiderStatus>, id: nat)
    ensures id in Selected(table, after, filter) <==> exists row :: row in table && Asked(row, after, filter, id)
  {
    SelectedMembers(table, after, filter, id);
    if row :| row in table && Asked(row, after, filter, id) {
      var i :| 0 <= i < |table| && table[i] == row;
      assert Wanted(table[i], after, filter);
    }
    if i :| 0 <= i < |table| && table[i].id == id && Wanted(table[i], after, filter) {
      assert Asked(table[i], after, filter, id);
    }
  }

  /** Following the cursor ends, and its pages hold every rider that matches, once and
      in order of identifiers; all pages but the last are full. */
  lemma {:induction false} FollowVisitsAll(table: seq<Row>, limit: int, after: Option<nat>,
                                           filter: Option<RiderStatus>, id: nat)
    requires Ordered(table) && 1 <= limit <= MAX_PAGE_SIZE
    ensures Ascending(Visited(Follow(table, limit, after, filter)))
    ensures id in Visited(Follow(table, limit, after, filter)) <==>
            exists row :: row in table && Asked(row, after, filter, id)
    ensures WellPaged(Follow(table, limit, after, filter), limit)
  {
    var all := Selected(table, after, filter);
    FollowIsCut(table, limit, after, filter);
    CutVisits(all, limit);
    CutIsWellPaged(all, limit);
    SelectedAscending(table, after, filter);
    SelectedIffAsked(table, after, filter, id);
  }

  // ----- following the cursor while the table changes -----

  /** One request per table: the identifiers seen, and whether the last page said it was the last. */
  datatype Walk = Walk(seen: seq<nat>, cursor: Option<nat>, finished: bool)

  function WalkOver(tables: seq<seq<Row>>, limit: int, filter: Option<RiderStatus>): Walk
    requires 1 <= limit <= MAX_PAGE_SIZE
  {
    if tables == [] then Walk([], None, false)
    else
      var w := WalkOver(tables[..|tables| - 1], limit, filter);
      if w.finished then w
      else
        var page := PageIds(tables[|tables| - 1], limit, w.cursor, filter).value;
        Walk(w.seen + page.ids, NextAfter(page), !page.more)
  }

  ghost predicate Present(table: seq<Row>, filter: Option<RiderStatus>, id: nat) {
    exists row :: row in table && Asked(row, None, filter, id)
  }

  ghost predicate Stays(tables: seq<seq<Row>>, filter: Option<RiderStatus>, id: nat) {
    forall t :: 0 <= t < |tables| ==> Present(tables[t], filter, id)
  }

  ghost predicate Progress(w: Walk) {
    && Ascending(w.seen)
    && (!w.finished && w.seen != [] ==> w.cursor == Some(w.seen[|w.seen| - 1]))
    && (!w.finished && w.seen == [] ==> w.cursor == None)
  }

  lemma {:induction false} PageExtends(table: seq<Row>, limit: int, w: Walk, filter: Option<RiderStatus>)
    requires Ordered(table) && 1 <= limit <= MAX_PAGE_SIZE && Progress(w) && !w.finished
    ensures var page := PageIds(table, limit, w.cursor, filter).value;
            Progress(Walk(w.seen + page.ids, NextAfter(page), !page.more))
  {
    var page := PageIds(table, limit, w.cursor, filter).value;
    var all := Selected(table, w.cursor, filter);
    SelectedAscending(table, w.cursor, filter);
    NextPage(table, limit, w.cursor, filter);
    forall i, j | 0 <= i < |w.seen| && 0 <= j < |page.ids| ensures w.seen[i] < page.ids[j] {
      assert page.ids[j] == all[j];
      SelectedMembers(table, w.cursor, filter, all[j]);
    }
  }

  /** While riders come, go and change status between the requests, no rider is seen
      twice, and once the last page is reached every rider that matched all along
      has been seen. */
  lemma {:induction false} WalkMissesNobody(tables: seq<seq<Row>>, limit: int, filter: Option<RiderStatus>, id: nat)
    requires 1 <= limit <= MAX_PAGE_SIZE && forall t :: 0 <= t < |tables| ==> Ordered(tables[t])
    ensures var w := WalkOver(tables, limit, filter);
            && Progress(w)
            && (Stays(tables, filter, id) ==> id in w.seen || (!w.finished && (w.cursor.Some? ==> w.cursor.value < id)))
  {
    if tables != [] {
      var n := |tables| - 1;
      var w := WalkOver(tables[..n], limit, filter);
      WalkMissesNobody(tables[..n], limit, filter, id);
      if !w.finished {
        PageExtends(tables[n], limit, w, filter);
      }
      if Stays(tables, filter, id) {
        assert forall t :: 0 <= t < n ==> tables[..n][t] == tables[t];
        assert Present(tables[n], filter, id);
        if !w.finished && id !in w.seen {
          PageCatches(tables[n], limit, w.cursor, filter, id);
        }
      }
    }
  }

  ghost predicate Shown(tables: seq<seq<Row>>, filter: Option<RiderStatus>, id: nat) {
    exists t :: 0 <= t < |tables| && Present(tables[t], filter, id)
  }

  lemma {:induction false} PageShowsAll(tables: seq<seq<Row>>, filter: Option<RiderStatus>, w: Walk, ids: seq<nat>)
    requires tables != [] && forall id :: id in ids ==> Present(tables[|tables| - 1], filter, id)
    requires forall id :: id in w.seen ==> Shown(tables[..|tables| - 1], filter, id)
    ensures forall id :: id in w.seen + ids ==> Shown(tables, filter, id)
  {
    var n := |tables| - 1;
    forall id | id in w.seen + ids ensures Shown(tables, filter, id) {
      if id in w.seen {
        var t :| 0 <= t < n && Present(tables[..n][t], filter, id);
        assert Present(tables[t], filter, id);
      }
    }
  }

  lemma {:induction false} OneMore(n: nat, limit: nat)
    ensures (n + 1) * limit == n * limit + limit
  {
  }

  /** Every request that is not the last brings a full page. */
  lemma {:induction false} WalkIsFull(tables: seq<seq<Row>>, limit: nat, filter: Option<RiderStatus>)
    requires 1 <= limit <= MAX_PAGE_SIZE && forall t :: 0 <= t < |tables| ==> Ordered(tables[t])
    ensures var w := WalkOver(tables, limit, filter); !w.finished ==> |w.seen| == |tables| * limit
  {
    if tables != [] {
      var n := |tables| - 1;
      var w := WalkOver(tables[..n], limit, filter);
      WalkIsFull(tables[..n], limit, filter);
      if !w.finished {
        OneMore(n, limit);
        NextPage(tables[n], limit, w.cursor, filter);
      }
    }
  }

  /** Nothing is seen that did not match in the table of some request. */
  lemma {:induction false} WalkShows(tables: seq<seq<Row>>, limit: int, filter: Option<RiderStatus>)
    requires 1 <= limit <= MAX_PAGE_SIZE && forall t :: 0 <= t < |tables| ==> Ordered(tables[t])
    ensures forall id :: id in WalkOver(tables, limit, filter).seen ==> Shown(tables, filter, id)
  {
    if tables != [] {
      var n := |tables| - 1;
      var w := WalkOver(tables[..n], limit, filter);
      WalkShows(tables[..n], limit, filter);
      if w.finished {
        PageShowsAll(tables, filter, w, []);
      } else {
        var ids := PageIds(tables[n], limit, w.cursor, filter).value.ids;
        forall id | id in ids ensures Present(tables[n], filter, id) {
          PageShows(tables[n], limit, w.cursor, filter, id);
        }
        PageShowsAll(tables, filter, w, ids);
      }
    }
  }

  lemma {:induction false} PageShows(table: seq<Row>, limit: int, after: Option<nat>, filter: Option<RiderStatus>, id: nat)
    requires Ordered(table) && 1 <= limit <= MAX_PAGE_SIZE && id in PageIds(table, limit, after, filter).value.ids
    ensures Present(table, filter, id)
  {
    NextPage(table, limit, after, filter);
    SelectedIffAsked(table, after, filter, id);
    var row :| row in table && Asked(row, after, filter, id);
    assert Asked(row, None, filter, id);
  }

  lemma {:induction false} PageCatches(table: seq<Row>, limit: int, after: Option<nat>,
                                       filter: Option<RiderStatus>, id: nat)
    requires Ordered(table) && 1 <= limit <= MAX_PAGE_SIZE && (after.Some? ==> after.value < id)
    requires Present(table, filter, id)
    ensures var page := PageIds(table, limit, after, filter).value;
            id in page.ids || (page.more && NextAfter(page).Some? && NextAfter(page).value < id)
  {
    var all := Selected(table, after, filter);
    SelectedAscending(table, after, filter);
    NextPage(table, limit, after, filter);
    var row :| row in table && Asked(row, None, filter, id);
    assert Asked(row, after, filter, id);
    SelectedIffAsked(table, after, filter, id);
    var k :| 0 <= k < |all| && all[k] == id;
    if |all| > limit && k < limit {
      assert all[..limit][k] == id;
    }
  }

  // ----- the pages -----

  datatype PreviewPage = PreviewPage(
    pageCount: nat, okCount: nat, discrepancyCount: nat, reviewCount: nat, noEvidenceCount: nat,
    more: bool, nextAfter: Option<nat>, details: seq<C.Preview>)

  datatype AuditState = ReviewRequired | NoEvidenceState | VerifiedPage

  datatype AuditPage = AuditPage(
    state: AuditState, pageCount: nat, verifiedCount: nat, reviewCount: nat, noEvidenceCount: int,
    more: bool, nextAfter: Option<nat>, details: seq<LegacyLedger.Integrity>)

  /** One result per identifier; the page fails when one of them is gone. */
  function Collect<T>(ids: seq<nat>, lookup: (nat, nat) -> Option<T>): Result<seq<T>, PageError> {
    if ids == [] then Success([])
    else
      var n := |ids| - 1;
      var before, item := Collect(ids[..n], lookup), lookup(ids[n], n);
      if before.Failure? then before
      else if item.None? then Failure(RiderVanished)
      else Success(before.value + [item.value])
  }

  /** The previews of one page, each at its own reading of the clock. */
  function Details(riders: map<nat, C.Rider>, ids: seq<nat>, clocks: nat -> int): Result<seq<C.Preview>, PageError> {
    Collect(ids, (id, i) => if id in riders then Some(C.PreviewOf(id, riders[id], clocks(i))) else None)
  }

  function CountStatus(details: seq<C.Preview>, status: C.Status): nat {
    if details == [] then 0
    else CountStatus(details[..|details| - 1], status) + if details[|details| - 1].status == status then 1 else 0
  }

  function CountVerdict(details: seq<LegacyLedger.Integrity>, verdict: LegacyLedger.Verdict): nat {
    if details == [] then 0
    else CountVerdict(details[..|details| - 1], verdict) + if details[|details| - 1].verdict == verdict then 1 else 0
  }

  function PageOf(riders: map<nat, C.Rider>, table: seq<Row>, clocks: nat -> int, limit: int, after: Option<nat>,
                  filter: Option<RiderStatus>): Result<PreviewPage, PageError>
  {
    match PageIds(table, limit, after, filter)
    case Failure(e) => Failure(e)
    case Success(page) =>
      match Details(riders, page.ids, clocks)
      case Failure(e) => Failure(e)
      case Success(details) =>
        Success(PageFrom(details, page))
  }

  function PageFrom(details: seq<C.Preview>, page: Ids): PreviewPage {
    PreviewPage(|details|, CountStatus(details, C.Agrees) + CountStatus(details, C.WithinTolerance),
                CountStatus(details, C.Discrepancy), CountStatus(details, C.NeedsReviewState),
                CountStatus(details, C.NoLedgerEvidence), page.more, NextAfter(page), details)
  }

  function Integrities(details: seq<C.Preview>): seq<LegacyLedger.Integrity> {
    seq(|details|, i requires 0 <= i < |details| => details[i].integrity)
  }

  function AuditOf(items: seq<LegacyLedger.Integrity>, page: Ids): AuditPage {
    var verified := CountVerdict(items, LegacyLedger.Verified);
    var review := CountVerdict(items, LegacyLedger.RequiresReview);
    var rest := |items| - verified - review;
    AuditPage(if review != 0 then ReviewRequired else if rest != 0 || items == [] then NoEvidenceState else VerifiedPage,
              |items|, verified, review, rest, page.more, NextAfter(page), items)
  }

  function AuditPageOf(riders: map<nat, C.Rider>, table: seq<Row>, clocks: nat -> int, limit: int, after: Option<nat>,
                       filter: Option<RiderStatus>): Result<AuditPage, PageError>
  {
    match PageIds(table, limit, after, filter)
    case Failure(e) => Failure(e)
    case Success(page) =>
      match Details(riders, page.ids, clocks)
      case Failure(e) => Failure(e)
      case Success(details) => Success(AuditOf(Integrities(details), page))
  }

  function WithStatus(details: seq<C.Preview>, statuses: set<C.Status>): set<nat> {
    set i: nat | i < |details| && details[i].status in statuses
  }

  lemma {:induction false} WithStatusExtends(details: seq<C.Preview>, statuses: set<C.Status>)
    requires details != []
    ensures var n := |details| - 1;
            |WithStatus(details, statuses)| == |WithStatus(details[..n], statuses)| + if details[n].status in statuses then 1 else 0
  {
    var n := |details| - 1;
    var before := WithStatus(details[..n], statuses);
    assert WithStatus(details, statuses) == if details[n].status in statuses then before + {n} else before;
  }

  lemma {:induction false} CountsAreSizes(details: seq<C.Preview>)
    ensures CountStatus(details, C.Agrees) + CountStatus(details, C.WithinTolerance)
            == |WithStatus(details, {C.Agrees, C.WithinTolerance})|
    ensures CountStatus(details, C.Discrepancy) == |WithStatus(details, {C.Discrepancy})|
    ensures CountStatus(details, C.NeedsReviewState) == |WithStatus(details, {C.NeedsReviewState})|
    ensures CountStatus(details, C.NoLedgerEvidence) == |WithStatus(details, {C.NoLedgerEvidence})|
  {
    if details == [] {
      assert WithStatus(details, {C.Agrees, C.WithinTolerance}) == WithStatus(details, {C.Discrepancy})
          == WithStatus(details, {C.NeedsReviewState}) == WithStatus(details, {C.NoLedgerEvidence}) == {};
    } else {
      CountsAreSizes(details[..|details| - 1]);
      WithStatusExtends(details, {C.Agrees, C.WithinTolerance});
      WithStatusExtends(details, {C.Discrepancy});
      WithStatusExtends(details, {C.NeedsReviewState});
      WithStatusExtends(details, {C.NoLedgerEvidence});
    }
  }

  /** The previews of these riders, each at its own reading of the clock. */
  ghost predicate PreviewsOf(details: seq<C.Preview>, riders: map<nat, C.Rider>, ids: seq<nat>, clocks: nat -> int) {
    && |details| == |ids|
    && forall i :: 0 <= i < |ids| ==> ids[i] in riders && details[i] == C.PreviewOf(ids[i], riders[ids[i]], clocks(i))
  }

  lemma {:induction false} DetailsMeaning(riders: map<nat, C.Rider>, ids: seq<nat>, clocks: nat -> int)
    ensures var r := Details(riders, ids, clocks);
            && (r.Success? <==> forall i :: 0 <= i < |ids| ==> ids[i] in riders)
            && (r.Failure? ==> r.error == RiderVanished)
            && (r.Success? ==> PreviewsOf(r.value, riders, ids, clocks))
  {
    CollectPerId(ids, (id, i) => if id in riders then Some(C.PreviewOf(id, riders[id], clocks(i))) else None);
    CollectFails(ids, (id, i) => if id in riders then Some(C.PreviewOf(id, riders[id], clocks(i))) else None);
  }

  /** Every preview is counted under its own status. */
  ghost predicate Counted(p: PreviewPage) {
    && p.pageCount == |p.details|
    && p.okCount == |WithStatus(p.details, {C.Agrees, C.WithinTolerance})|
    && p.discrepancyCount == |WithStatus(p.details, {C.Discrepancy})|
    && p.reviewCount == |WithStatus(p.details, {C.NeedsReviewState})|
    && p.noEvidenceCount == |WithStatus(p.details, {C.NoLedgerEvidence})|
  }

  lemma {:induction false} PageIsCounted(details: seq<C.Preview>, page: Ids)
    ensures Counted(PageFrom(details, page))
  {
    CountsAreSizes(details);
  }

  /** A page is refused for a bad size or a rider that is gone. */
  lemma {:induction false} PageRefused(riders: map<nat, C.Rider>, table: seq<Row>, clocks: nat -> int, limit: nat,
                                       after: Option<nat>, filter: Option<RiderStatus>)
    ensures var r, ids := PageOf(riders, table, clocks, limit, after, filter), First(Selected(table, after, filter), limit);
            && (r == Failure(BadLimit) <==> !(1 <= limit <= 25))
            && (r == Failure(RiderVanished) <==> 1 <= limit <= 25 && exists i :: 0 <= i < |ids| && ids[i] !in riders)
  {
    if 1 <= limit <= 25 {
      var page := PageIds(table, limit, after, filter).value;
      assert page.ids == First(Selected(table, after, filter), limit);
      DetailsMeaning(riders, page.ids, clocks);
    }
  }

  /** Else it holds the previews of its riders, each counted under its own status, and the
      cursor if there are more. */
  lemma {:induction false} PageMeaning(riders: map<nat, C.Rider>, table: seq<Row>, clocks: nat -> int, limit: nat,
                                       after: Option<nat>, filter: Option<RiderStatus>)
    requires PageOf(riders, table, clocks, limit, after, filter).Success?
    ensures var p, ids := PageOf(riders, table, clocks, limit, after, filter).value, First(Selected(table, after, filter), limit);
            && PreviewsOf(p.details, riders, ids, clocks) && Counted(p)
            && (p.more <==> |Selected(table, after, filter)| > limit)
            && p.nextAfter == if p.more then Some(ids[|ids| - 1]) else None
  {
    var page := PageIds(table, limit, after, filter).value;
    assert page.ids == First(Selected(table, after, filter), limit);
    DetailsMeaning(riders, page.ids, clocks);
    PageIsCounted(Details(riders, page.ids, clocks).value, page);
  }

  lemma {:induction false} CollectFails<T>(ids: seq<nat>, lookup: (nat, nat) -> Option<T>)
    ensures Collect(ids, lookup).Failure? ==> Collect(ids, lookup).error == RiderVanished
  {
    if ids != [] {
      CollectFails(ids[..|ids| - 1], lookup);
    }
  }

  lemma {:induction false} EveryStatusCounted(details: seq<C.Preview>)
    ensures CountStatus(details, C.Agrees) + CountStatus(details, C.WithinTolerance) + CountStatus(details, C.Discrepancy)
            + CountStatus(details, C.NeedsReviewState) + CountStatus(details, C.NoLedgerEvidence) == |details|
  {
    if details != [] {
      EveryStatusCounted(details[..|details| - 1]);
    }
  }

  lemma {:induction false} CollectPerId<T>(ids: seq<nat>, lookup: (nat, nat) -> Option<T>)
    ensures Collect(ids, lookup).Success? <==> forall i :: 0 <= i < |ids| ==> lookup(ids[i], i).Some?
    ensures Collect(ids, lookup).Success? ==>
              && |Collect(ids, lookup).value| == |ids|
              && forall i :: 0 <= i < |ids| ==> lookup(ids[i], i) == Some(Collect(ids, lookup).value[i])
  {
    if ids != [] {
      var n := |ids| - 1;
      CollectPerId(ids[..n], lookup);
      assert forall i :: 0 <= i < n ==> ids[..n][i] == ids[i];
      if forall i :: 0 <= i < |ids| ==> lookup(ids[i], i).Some? {
        assert forall i :: 0 <= i < n ==> lookup(ids[..n][i], i).Some?;
      }
    }
  }

  /** So its four counts add up to its size. */
  lemma {:induction false} PageCountsAddUp(riders: map<nat, C.Rider>, table: seq<Row>, clocks: nat -> int, limit: int,
                                           after: Option<nat>, filter: Option<RiderStatus>)
    requires PageOf(riders, table, clocks, limit, after, filter).Success?
    ensures var p := PageOf(riders, table, clocks, limit, after, filter).value;
            p.okCount + p.discrepancyCount + p.reviewCount + p.noEvidenceCount == p.pageCount
  {
    EveryStatusCounted(PageOf(riders, table, clocks, limit, after, filter).value.details);
  }

  lemma {:induction false} VerdictCounts(items: seq<LegacyLedger.Integrity>)
    ensures CountVerdict(items, LegacyLedger.Verified) + CountVerdict(items, LegacyLedger.RequiresReview)
            + CountVerdict(items, LegacyLedger.NoEvidence) == |items|
  {
    if items != [] {
      VerdictCounts(items[..|items| - 1]);
    }
  }

  function WithVerdict(items: seq<LegacyLedger.Integrity>, verdict: LegacyLedger.Verdict): set<nat> {
    set i: nat | i < |items| && items[i].verdict == verdict
  }

  lemma {:induction false} WithVerdictExtends(items: seq<LegacyLedger.Integrity>, item: LegacyLedger.Integrity,
                                              verdict: LegacyLedger.Verdict)
    ensures |WithVerdict(items + [item], verdict)| == |WithVerdict(items, verdict)| + if item.verdict == verdict then 1 else 0
  {
    var before := WithVerdict(items, verdict);
    if item.verdict == verdict {
      assert WithVerdict(items + [item], verdict) == before + {|items|};
    } else {
      assert WithVerdict(items + [item], verdict) == before;
    }
  }

  lemma {:induction false} VerdictsAreSizes(items: seq<LegacyLedger.Integrity>, verdict: LegacyLedger.Verdict)
    ensures CountVerdict(items, verdict) == |WithVerdict(items, verdict)|
  {
    if items == [] {
      assert WithVerdict(items, verdict) == {};
    } else {
      var n := |items| - 1;
      VerdictsAreSizes(items[..n], verdict);
      assert items == items[..n] + [items[n]];
      WithVerdictExtends(items[..n], items[n], verdict);
    }
  }

  lemma {:induction false} NoneOrSome(items: seq<LegacyLedger.Integrity>, verdict: LegacyLedger.Verdict)
    ensures CountVerdict(items, verdict) == 0 <==> forall i :: 0 <= i < |items| ==> items[i].verdict != verdict
  {
    VerdictsAreSizes(items, verdict);
    assert WithVerdict(items, verdict) == {} <==> forall i: nat :: i < |items| ==> items[i].verdict != verdict by {
      forall i: nat | i < |items| && items[i].verdict == verdict ensures i in WithVerdict(items, verdict) {
      }
    }
  }

  lemma {:induction false} AuditCounts(items: seq<LegacyLedger.Integrity>, page: Ids)
    ensures var a := AuditOf(items, page);
            && a.verifiedCount == |WithVerdict(items, LegacyLedger.Verified)|
            && a.reviewCount == |WithVerdict(items, LegacyLedger.RequiresReview)|
            && a.noEvidenceCount == |WithVerdict(items, LegacyLedger.NoEvidence)|
            && (a.state == ReviewRequired <==> exists i :: 0 <= i < |items| && items[i].verdict == LegacyLedger.RequiresReview)
            && (a.state == VerifiedPage <==>
                  items != [] && forall i :: 0 <= i < |items| ==> items[i].verdict == LegacyLedger.Verified)
  {
    VerdictCounts(items);
    VerdictsAreSizes(items, LegacyLedger.Verified);
    VerdictsAreSizes(items, LegacyLedger.RequiresReview);
    VerdictsAreSizes(items, LegacyLedger.NoEvidence);
    NoneOrSome(items, LegacyLedger.RequiresReview);
    NoneOrSome(items, LegacyLedger.NoEvidence);
  }

  /** An audit page is reported as verified exactly when it is not empty and every
      ledger on it is, and as to be reviewed exactly when one of them is. */
  lemma {:induction false} AuditStateMeaning(riders: map<nat, C.Rider>, table: seq<Row>, clocks: nat -> int, limit: int,
                                             after: Option<nat>, filter: Option<RiderStatus>)
    requires AuditPageOf(riders, table, clocks, limit, after, filter).Success?
    ensures var a := AuditPageOf(riders, table, clocks, limit, after, filter).value;
            && a.verifiedCount == |WithVerdict(a.details, LegacyLedger.Verified)|
            && a.reviewCount == |WithVerdict(a.details, LegacyLedger.RequiresReview)|
            && a.noEvidenceCount == |WithVerdict(a.details, LegacyLedger.NoEvidence)|
            && a.pageCount == |a.details| == |First(Selected(table, after, filter), limit)|
            && (a.more <==> |Selected(table, after, filter)| > limit)
            && a.nextAfter == (if a.more then Some(Selected(table, after, filter)[limit - 1]) else None)
            && (forall i :: 0 <= i < |a.details| ==>
                  var id := First(Selected(table, after, filter), limit)[i];
                  id in riders && a.details[i] == C.PreviewOf(id, riders[id], clocks(i)).integrity)
            && (a.state == ReviewRequired <==>
                  exists i :: 0 <= i < |a.details| && a.details[i].verdict == LegacyLedger.RequiresReview)
            && (a.state == VerifiedPage <==>
                  a.details != [] && forall i :: 0 <= i < |a.details| ==> a.details[i].verdict == LegacyLedger.Verified)
  {
    var page := PageIds(table, limit, after, filter).value;
    var items := Integrities(Details(riders, page.ids, clocks).value);
    assert page.ids == First(Selected(table, after, filter), limit);
    CollectPerId(page.ids, (id, i) => if id in riders then Some(C.PreviewOf(id, riders[id], clocks(i))) else None);
    AuditCounts(items, page);
  }
}
