/**
 Collecting a window of dates page by page: the start of the window, its end and the number of pages to
 skip move together with a journal the consumer of the pages writes to.
 */
module Pagination {
  import opened Wrappers

  datatype Product = Product(id: nat, date: int)

  predicate Sorted(products: seq<Product>) {
    forall i, j :: 0 <= i < j < |products| ==> products[i].date <= products[j].date
  }

  // ---------- what the server answers ----------

  /** The products the filter `ge start and le end` selects, in the order of the catalogue. */
  function Matching(catalogue: seq<Product>, start: int, end: int): seq<Product> {
    if catalogue == [] then []
    else
      (if start <= catalogue[0].date <= end then [catalogue[0]] else []) + Matching(catalogue[1..], start, end)
  }

  lemma {:induction false} MatchingIsExact(catalogue: seq<Product>, start: int, end: int)
    ensures forall p :: p in Matching(catalogue, start, end) <==> p in catalogue && start <= p.date <= end
  {
    if catalogue != [] {
      MatchingIsExact(catalogue[1..], start, end);
      assert catalogue == [catalogue[0]] + catalogue[1..];
    }
  }

  lemma {:induction false} MatchingSorted(catalogue: seq<Product>, start: int, end: int)
    requires Sorted(catalogue)
    ensures Sorted(Matching(catalogue, start, end))
  {
    if catalogue != [] {
      MatchingSorted(catalogue[1..], start, end);
      MatchingIsExact(catalogue[1..], start, end);
    }
  }

  function Min(a: int, b: int): int {
    if a <= b then a else b
  }

  /** `$top` and `$skip`: page number `skip`. */
  function Page<T>(items: seq<T>, size: nat, skip: nat): seq<T> {
    var from := Min(skip * size, |items|);
    items[from..Min(from + size, |items|)]
  }

  /** How many items are on the pages before one. */
  function Offset(skip: nat, size: nat): nat {
    if skip == 0 then 0 else Offset(skip - 1, size) + size
  }

  lemma {:induction false} OffsetIs(skip: nat, size: nat)
    ensures Offset(skip, size) == skip * size
  {
    if skip > 0 {
      OffsetIs(skip - 1, size);
    }
  }

  // ---------- what was seen ----------

  predicate Seen(pages: seq<seq<Product>>, product: Product) {
    exists page :: page in pages && product in page
  }

  lemma SeenMore(pages: seq<seq<Product>>, page: seq<Product>)
    ensures forall p :: Seen(pages + [page], p) <==> Seen(pages, p) || p in page
  {
    forall p
      ensures Seen(pages + [page], p) <==> Seen(pages, p) || p in page
    {
      if Seen(pages, p) {
        var known :| known in pages && p in known;
        assert known in pages + [page];
      } else if p in page {
        assert page in pages + [page];
      }
    }
  }

  /** Every product of the catalogue dated from `from` on and before `to` was on a page. */
  ghost predicate Covered(catalogue: seq<Product>, pages: seq<seq<Product>>, from: int, to: int) {
    forall p :: p in catalogue && from <= p.date < to ==> Seen(pages, p)
  }

  /** The first `count` products of the window were on a page. */
  predicate SeenUpTo(items: seq<Product>, count: nat, pages: seq<seq<Product>>) {
    count <= |items| && forall k :: 0 <= k < count ==> Seen(pages, items[k])
  }

  /** Whether every product was in the catalogue, and in the asked window. */
  predicate InWindow(catalogue: seq<Product>, pages: seq<seq<Product>>, start: int, end: int) {
    forall page :: page in pages ==> forall p :: p in page ==> p in catalogue && start <= p.date <= end
  }

  /** The next page of the window continues what was seen; it is the last one when it is not full. */
  lemma PageContinues(items: seq<Product>, size: nat, skip: nat, pages: seq<seq<Product>>)
    requires size > 0 && SeenUpTo(items, Offset(skip, size), pages)
    ensures var page := Page(items, size, skip);
            var from := Offset(skip, size);
            && |page| <= size
            && SeenUpTo(items, from + |page|, pages + [page])
            && (|page| < size ==> from + |page| == |items|)
            && (|page| == size ==> page[size - 1] == items[from + size - 1])
  {
    var page := Page(items, size, skip);
    OffsetIs(skip, size);
    SeenMore(pages, page);
    var from := Offset(skip, size);
    forall k | 0 <= k < from + |page|
      ensures Seen(pages + [page], items[k])
    {
      if k >= from {
        assert page[k - from] == items[k];
      }
    }
  }

  lemma CoveredMore(catalogue: seq<Product>, pages: seq<seq<Product>>, page: seq<Product>, from: int, to: int)
    requires Covered(catalogue, pages, from, to)
    ensures Covered(catalogue, pages + [page], from, to)
  {
    SeenMore(pages, page);
  }

  lemma WindowPage(
      catalogue: seq<Product>, pages: seq<seq<Product>>, start: int, end: int, from: int, to: int, size: nat, skip: nat)
    requires InWindow(catalogue, pages, from, to) && from <= start && end <= to
    ensures var page := Page(Matching(catalogue, start, end), size, skip);
            InWindow(catalogue, pages + [page], from, to) && forall p :: p in page ==> p.date <= end
  {
    MatchingIsExact(catalogue, start, end);
  }

  /** A page that is not full is the last one of its window: the window can be left for the next. */
  lemma LastPageCoversWindow(catalogue: seq<Product>, pages: seq<seq<Product>>, from: int, start: int, end: int)
    requires Covered(catalogue, pages, from, start)
    requires var items := Matching(catalogue, start, end); SeenUpTo(items, |items|, pages)
    ensures Covered(catalogue, pages, from, end)
  {
    var items := Matching(catalogue, start, end);
    MatchingIsExact(catalogue, start, end);
    forall p | p in catalogue && from <= p.date < end
      ensures Seen(pages, p)
    {
      if p.date >= start {
        var k :| 0 <= k < |items| && items[k] == p;
      }
    }
  }

  /** The window can start later at any date up to that of the last product seen: what is before was seen too. */
  lemma MovedStartLosesNothing(
      catalogue: seq<Product>, pages: seq<seq<Product>>, from: int, start: int, end: int, count: nat, to: int)
    requires Sorted(catalogue) && Covered(catalogue, pages, from, start)
    requires var items := Matching(catalogue, start, end);
             0 < count <= |items| && SeenUpTo(items, count, pages) && start < to <= items[count - 1].date
    ensures Covered(catalogue, pages, from, to) && to <= end
  {
    var items := Matching(catalogue, start, end);
    MatchingIsExact(catalogue, start, end);
    MatchingSorted(catalogue, start, end);
    assert items[count - 1] in items;
    forall p | p in catalogue && from <= p.date < to
      ensures Seen(pages, p)
    {
      if p.date >= start {
        assert p.date <= end;
        var k :| 0 <= k < |items| && items[k] == p;
        assert k < count - 1;
      }
    }
  }

  // ---------- the strategy ----------

  class Journal {
    var lastDate: int

    constructor (lastDate: int)
      ensures this.lastDate == lastDate
    {
      this.lastDate := lastDate;
    }
  }

  datatype Answer = Answered | RequestError | StatusError

  /** What surrounds the collect, turn by turn. */
  datatype Surroundings = Surroundings(
    stop: nat -> bool,
    answer: nat -> Answer,
    /** documents produced but not stored yet once the page was consumed */
    pending: nat -> nat,
    /** the last date of the journal once the page was consumed, from the start of the window and the page */
    journalled: (nat, int, seq<Product>) -> int,
    /** what the server has under the names of a list */
    named: seq<string> -> seq<Product>)

  /**
   The journal never runs ahead of the pages: after a full page its last date is at most the start of the
   window or the date of the last product of the page.
   */
  ghost predicate JournalFollows(around: Surroundings, size: nat) {
    forall turn: nat, start: int, page: seq<Product> ::
      |page| == size && size > 0 ==>
        around.journalled(turn, start, page) <= start
        || around.journalled(turn, start, page) <= page[|page| - 1].date
  }

  /** The same after any page, full or not. */
  ghost predicate JournalHonest(around: Surroundings) {
    forall turn: nat, start: int, page: seq<Product> ::
      around.journalled(turn, start, page) <= start
      || (page != [] && around.journalled(turn, start, page) <= page[|page| - 1].date)
  }

  datatype End = Completed | StopRequested | Raised

  function Concat(slices: seq<seq<string>>): seq<string> {
    if slices == [] then [] else slices[0] + Concat(slices[1..])
  }

  lemma {:induction false} ConcatAppend(slices: seq<seq<string>>, last: seq<string>)
    ensures Concat(slices + [last]) == Concat(slices) + last
  {
    if slices == [] {
      assert slices + [last] == [last];
    } else {
      assert (slices + [last])[1..] == slices[1..] + [last];
      ConcatAppend(slices[1..], last);
    }
  }

  /** The next slice of the names continues what was asked. */
  lemma NextSlice(names: seq<string>, per: nat, skip: nat, slices: seq<seq<string>>)
    requires per > 0 && skip * per < |names| && Concat(slices) == names[..skip * per]
    ensures Concat(slices + [Page(names, per, skip)]) == names[..Min((skip + 1) * per, |names|)]
    ensures 0 < |Page(names, per, skip)| <= per
  {
    ConcatAppend(slices, Page(names, per, skip));
    assert (skip + 1) * per == skip * per + per;
    var next := Min((skip + 1) * per, |names|);
    assert names[..next] == names[..skip * per] + names[skip * per..next];
  }

  /** What is yielded for the slices asked: in order, what the server has under the names of those that were answered. */
  function Yielded(around: Surroundings, slices: seq<seq<string>>): seq<seq<Product>> {
    if slices == [] then []
    else
      var i := |slices| - 1;
      Yielded(around, slices[..i]) + if around.answer(i).Answered? then [around.named(slices[i])] else []
  }

  /** When every slice is answered, there is one page for each. */
  lemma {:induction false} AllYielded(around: Surroundings, slices: seq<seq<string>>)
    requires forall i :: 0 <= i < |slices| ==> around.answer(i).Answered?
    ensures |Yielded(around, slices)| == |slices|
    ensures forall i :: 0 <= i < |slices| ==> Yielded(around, slices)[i] == around.named(slices[i])
  {
    if slices != [] {
      AllYielded(around, slices[..|slices| - 1]);
    }
  }

  /** The slices asked are those of the list, one after the other, no stop came before one, nor a bad status but last. */
  predicate Asked(around: Surroundings, names: seq<string>, per: nat, slices: seq<seq<string>>)
    decreases |slices|
  {
    slices != [] ==>
      var i := |slices| - 1;
      && slices[i] == Page(names, per, i) && 0 < |slices[i]| <= per && !around.stop(i)
      && (i > 0 ==> !around.answer(i - 1).StatusError?)
      && Asked(around, names, per, slices[..i])
  }

  lemma SliceMore(around: Surroundings, names: seq<string>, per: nat, slices: seq<seq<string>>)
    requires Asked(around, names, per, slices) && 0 < |Page(names, per, |slices|)| <= per && !around.stop(|slices|)
    requires slices != [] ==> !around.answer(|slices| - 1).StatusError?
    ensures var more := slices + [Page(names, per, |slices|)];
            && Asked(around, names, per, more)
            && Yielded(around, more) == Yielded(around, slices)
               + if around.answer(|slices|).Answered? then [around.named(Page(names, per, |slices|))] else []
  {
    var more := slices + [Page(names, per, |slices|)];
    assert more[..|slices|] == slices;
  }

  /** What was asked, slice by slice. */
  lemma {:induction false} SliceAt(around: Surroundings, names: seq<string>, per: nat, slices: seq<seq<string>>, i: nat)
    requires Asked(around, names, per, slices) && i < |slices|
    ensures slices[i] == Page(names, per, i) && 0 < |slices[i]| <= per && !around.stop(i)
    ensures i < |slices| - 1 ==> !around.answer(i).StatusError?
    decreases |slices|
  {
    if i < |slices| - 1 {
      SliceAt(around, names, per, slices[..|slices| - 1], i);
    }
  }

  /** The dates of a collect, the width of its windows and the size of its pages. */
  datatype Scope = Scope(startDate: int, endDate: int, window: nat, size: nat)

  /** One page asked and consumed: its window, its number in it, what it held, and the journal once it was consumed. */
  datatype Visit = Visit(start: int, end: int, skip: nat, page: seq<Product>, lastDate: int)

  /** A page is that of its window, which is `window` wide at most; the journal is moved back only if nothing is pending. */
  predicate ProperVisit(catalogue: seq<Product>, around: Surroundings, scope: Scope, turn: nat, visit: Visit) {
    && scope.startDate <= visit.start < scope.endDate && visit.start <= visit.end <= scope.endDate
    && visit.end - visit.start <= scope.window
    && visit.page == Page(Matching(catalogue, visit.start, visit.end), scope.size, visit.skip)
    && visit.lastDate == (if around.pending(turn) == 0 then visit.start
                          else around.journalled(turn, visit.start, visit.page))
    && !around.stop(turn) && around.answer(turn).Answered?
  }

  /** After a page that is not full the next window; after a full one the next page, or the window from the journal on. */
  predicate Leads(scope: Scope, visit: Visit, start: int, end: int, skip: nat) {
    if |visit.page| < scope.size then
      start == visit.end && end == Min(visit.end + scope.window, scope.endDate) && skip == 0
    else if visit.lastDate <= visit.start then start == visit.start && end == visit.end && skip == visit.skip + 1
    else start == visit.lastDate && end == visit.end && skip == 0
  }

  /** Where the visits so far lead: to the first window when there is none. */
  predicate LeadsTo(scope: Scope, visits: seq<Visit>, start: int, end: int, skip: nat) {
    if visits == [] then
      start == scope.startDate && end == Min(scope.startDate + scope.window, scope.endDate) && skip == 0
    else Leads(scope, visits[|visits| - 1], start, end, skip)
  }

  /** Every page asked is the one the pages before it lead to. */
  predicate Visited(catalogue: seq<Product>, around: Surroundings, scope: Scope, visits: seq<Visit>)
    decreases |visits|
  {
    visits != [] ==>
      var i := |visits| - 1;
      && ProperVisit(catalogue, around, scope, i, visits[i])
      && LeadsTo(scope, visits[..i], visits[i].start, visits[i].end, visits[i].skip)
      && Visited(catalogue, around, scope, visits[..i])
  }

  lemma VisitMore(catalogue: seq<Product>, around: Surroundings, scope: Scope, visits: seq<Visit>, visit: Visit)
    requires Visited(catalogue, around, scope, visits) && ProperVisit(catalogue, around, scope, |visits|, visit)
    requires LeadsTo(scope, visits, visit.start, visit.end, visit.skip)
    ensures Visited(catalogue, around, scope, visits + [visit])
    ensures PagesOf(visits + [visit]) == PagesOf(visits) + [visit.page]
    ensures LastDate(visits + [visit], 0) == visit.lastDate
    ensures forall start, end, skip ::
              Leads(scope, visit, start, end, skip) ==> LeadsTo(scope, visits + [visit], start, end, skip)
  {
    assert (visits + [visit])[..|visits|] == visits;
  }

  /** What was asked, page by page. */
  lemma {:induction false} VisitAt(
    catalogue: seq<Product>, around: Surroundings, scope: Scope, visits: seq<Visit>, i: nat)
    requires Visited(catalogue, around, scope, visits) && i < |visits|
    ensures ProperVisit(catalogue, around, scope, i, visits[i])
    ensures LeadsTo(scope, visits[..i], visits[i].start, visits[i].end, visits[i].skip)
    decreases |visits|
  {
    var before := visits[..|visits| - 1];
    if i < |before| {
      VisitAt(catalogue, around, scope, before, i);
      assert before[..i] == visits[..i];
    }
  }

  function PagesOf(visits: seq<Visit>): seq<seq<Product>> {
    seq(|visits|, i requires 0 <= i < |visits| => visits[i].page)
  }

  /** The last date of the journal after the visits. */
  function LastDate(visits: seq<Visit>, before: int): int {
    if visits == [] then before else visits[|visits| - 1].lastDate
  }

  class QueryStrategy {
    const startDate: int
    const endDate: int
    const window: nat
    const size: nat
    const names: seq<string>
    const namesPerQuery: nat
    const journal: Journal

    var iterStart: int
    var iterEnd: int
    var skip: nat

    constructor (
        journal: Journal, startDate: int, endDate: int, startOffset: nat, isReplay: bool, window: nat, size: nat,
        names: seq<string>, namesPerQuery: nat)
      ensures this.journal == journal && this.endDate == endDate && this.window == window && this.size == size
      ensures this.names == names && this.namesPerQuery == namesPerQuery
      ensures this.startDate == if isReplay then startDate else startDate - startOffset
      ensures Fresh()
    {
      var start := startDate;
      if startOffset != 0 && !isReplay {
        start := start - startOffset;
      }
      this.journal := journal;
      this.startDate := start;
      this.endDate := endDate;
      this.window := window;
      this.size := size;
      this.names := names;
      this.namesPerQuery := namesPerQuery;
      iterStart := start;
      iterEnd := Min(start + window, endDate);
      skip := 0;
    }

    function Dates(): Scope {
      Scope(startDate, endDate, window, size)
    }

    ghost predicate Fresh()
      reads this
    {
      iterStart == startDate && iterEnd == Min(startDate + window, endDate) && skip == 0
    }

    /** The window asked next lies between the dates of the collect. */
    ghost predicate WindowOrdered()
      reads this
    {
      startDate <= iterStart && (iterStart < endDate ==> iterStart <= iterEnd <= endDate)
    }

    /** All that is dated before the start of the window was seen, and all the pages skipped in it. */
    ghost predicate Progress(catalogue: seq<Product>, pages: seq<seq<Product>>)
      reads this
    {
      && WindowOrdered()
      && Covered(catalogue, pages, startDate, iterStart)
      && (iterStart < endDate ==> SeenUpTo(Matching(catalogue, iterStart, iterEnd), Offset(skip, size), pages))
    }

    /**
     Iterates over the windows: whatever the answers and the stops, nothing dated before the start it reached
     is missed, and a collect that completes saw everything in its dates. It always ends. A journal that never
     runs ahead of the pages is a date the next collect can start from.
     */
    method IterateWindows(catalogue: seq<Product>, around: Surroundings)
      returns (pages: seq<seq<Product>>, end: End, ghost visits: seq<Visit>)
      requires Sorted(catalogue) && names == [] && Fresh() && window > 0 && size > 0
      requires JournalFollows(around, size)
      modifies this, journal
      ensures Covered(catalogue, pages, startDate, iterStart)
      ensures InWindow(catalogue, pages, startDate, endDate)
      ensures end.Completed? ==> Covered(catalogue, pages, startDate, endDate)
      ensures JournalHonest(around) && pages != [] ==> Covered(catalogue, pages, startDate, journal.lastDate)
      ensures pages == PagesOf(visits) && Visited(catalogue, around, Dates(), visits)
      ensures journal.lastDate == LastDate(visits, old(journal.lastDate))
      ensures end.StopRequested? ==> around.stop(|visits|)
      ensures end.Raised? ==> !around.answer(|visits|).Answered?
    {
      pages, visits := [], [];
      var turn: nat := 0;
      while iterStart < endDate
        invariant Progress(catalogue, pages)
        invariant InWindow(catalogue, pages, startDate, endDate)
        invariant JournalHonest(around) && pages != [] ==> journal.lastDate <= iterStart
        invariant turn == |visits| && iterEnd - iterStart <= window
        invariant pages == PagesOf(visits) && Visited(catalogue, around, Dates(), visits)
        invariant LeadsTo(Dates(), visits, iterStart, iterEnd, skip)
        invariant journal.lastDate == LastDate(visits, old(journal.lastDate))
        decreases endDate - iterStart, endDate - iterEnd, |Matching(catalogue, iterStart, iterEnd)| - Offset(skip, size)
      {
        if around.stop(turn) {
          return pages, StopRequested, visits;
        }
        if !around.answer(turn).Answered? {
          return pages, Raised, visits;
        }
        var page: seq<Product>;
        page, visits := NextPage(catalogue, around, turn, pages, visits);
        pages := pages + [page];
        turn := turn + 1;
      }
      return pages, Completed, visits;
    }

    /** Ask for a page, let it be consumed, then move on. */
    method NextPage(
        catalogue: seq<Product>, around: Surroundings, turn: nat, ghost pages: seq<seq<Product>>, ghost before: seq<Visit>)
      returns (page: seq<Product>, ghost visits: seq<Visit>)
      requires Sorted(catalogue) && window > 0 && size > 0 && JournalFollows(around, size)
      requires Progress(catalogue, pages) && InWindow(catalogue, pages, startDate, endDate)
      requires iterStart < endDate && iterEnd - iterStart <= window
      requires turn == |before| && !around.stop(turn) && around.answer(turn).Answered?
      requires Visited(catalogue, around, Dates(), before) && LeadsTo(Dates(), before, iterStart, iterEnd, skip)
      modifies this, journal
      ensures Progress(catalogue, pages + [page]) && InWindow(catalogue, pages + [page], startDate, endDate)
      ensures JournalHonest(around) ==> journal.lastDate <= iterStart
      ensures iterEnd - iterStart <= window
      ensures |visits| == turn + 1 && PagesOf(visits) == PagesOf(before) + [page]
      ensures Visited(catalogue, around, Dates(), visits) && LeadsTo(Dates(), visits, iterStart, iterEnd, skip)
      ensures journal.lastDate == visits[turn].lastDate
      ensures || iterStart > old(iterStart) || (iterStart == old(iterStart) && iterEnd > old(iterEnd))
              || (iterStart == old(iterStart) && iterEnd == old(iterEnd) && skip == old(skip) + 1
                  && Offset(old(skip), size) + size <= |Matching(catalogue, iterStart, iterEnd)|)
    {
      page := Consume(catalogue, around, turn, pages);
      ghost var visit := Visit(iterStart, iterEnd, skip, page, journal.lastDate);
      VisitMore(catalogue, around, Dates(), before, visit);
      visits := before + [visit];
      MoveOn(catalogue, pages + [page], page, visit);
    }

    /** Ask for a page and let it be consumed: the journal is what the consumer makes it, or kept at the window. */
    method Consume(catalogue: seq<Product>, around: Surroundings, turn: nat, ghost pages: seq<seq<Product>>)
      returns (page: seq<Product>)
      requires Progress(catalogue, pages) && InWindow(catalogue, pages, startDate, endDate) && JournalFollows(around, size)
      requires iterStart < endDate && size > 0 && iterEnd - iterStart <= window
      requires !around.stop(turn) && around.answer(turn).Answered?
      modifies journal
      ensures ProperVisit(
                catalogue, around, Dates(), turn, Visit(iterStart, iterEnd, skip, page, journal.lastDate))
      ensures PageSeen(catalogue, pages + [page], page) && InWindow(catalogue, pages + [page], startDate, endDate)
      ensures |page| == size ==> journal.lastDate <= iterStart || journal.lastDate <= page[size - 1].date
      ensures JournalHonest(around) ==> journal.lastDate <= iterEnd
    {
      page := Page(Matching(catalogue, iterStart, iterEnd), size, skip);
      WindowPage(catalogue, pages, iterStart, iterEnd, startDate, endDate, size, skip);
      SeenNext(catalogue, pages, page);
      journal.lastDate := around.journalled(turn, iterStart, page);
      if around.pending(turn) == 0 {
        journal.lastDate := iterStart;
      }
    }

    /** The page at hand continues what was seen. */
    lemma SeenNext(catalogue: seq<Product>, pages: seq<seq<Product>>, page: seq<Product>)
      requires Progress(catalogue, pages) && iterStart < endDate && size > 0
      requires page == Page(Matching(catalogue, iterStart, iterEnd), size, skip)
      ensures PageSeen(catalogue, pages + [page], page)
    {
      PageContinues(Matching(catalogue, iterStart, iterEnd), size, skip, pages);
      CoveredMore(catalogue, pages, page, startDate, iterStart);
    }

    /** The page at hand was yielded: it is the last one of its window when it is not full. */
    ghost predicate PageSeen(catalogue: seq<Product>, pages: seq<seq<Product>>, page: seq<Product>)
      reads this
    {
      var items := Matching(catalogue, iterStart, iterEnd);
      && WindowOrdered() && |page| <= size
      && Covered(catalogue, pages, startDate, iterStart)
      && SeenUpTo(items, Offset(skip, size) + |page|, pages)
      && (|page| < size ==> Offset(skip, size) + |page| == |items|)
      && (|page| == size > 0 ==> page[size - 1] == items[Offset(skip, size) + size - 1])
    }

    /** Once a page was consumed: on to the next window, to the next page, or to the date the journal has reached. */
    method MoveOn(ghost catalogue: seq<Product>, ghost pages: seq<seq<Product>>, page: seq<Product>, ghost visit: Visit)
      requires Sorted(catalogue) && window > 0 && size > 0 && iterStart < endDate && iterEnd - iterStart <= window
      requires visit == Visit(iterStart, iterEnd, skip, page, journal.lastDate)
      requires PageSeen(catalogue, pages, page)
      requires |page| == size ==> journal.lastDate <= iterStart || journal.lastDate <= page[size - 1].date
      modifies this
      ensures Progress(catalogue, pages) && iterEnd - iterStart <= window
      ensures Leads(Dates(), visit, iterStart, iterEnd, skip)
      ensures old(iterStart) <= iterStart && (|page| == size ==> journal.lastDate <= iterStart)
      ensures || iterStart > old(iterStart) || (iterStart == old(iterStart) && iterEnd > old(iterEnd))
              || (iterStart == old(iterStart) && iterEnd == old(iterEnd) && skip == old(skip) + 1 && |page| == size)
      ensures |page| < size ==> iterStart == old(iterEnd)
    {
      if |page| < size {
        LastPageCoversWindow(catalogue, pages, startDate, iterStart, iterEnd);
        iterStart := iterEnd;
        iterEnd := Min(iterStart + window, endDate);
        skip := 0;
      } else if journal.lastDate <= iterStart {
        skip := skip + 1;
      } else {
        MovedStartLosesNothing(catalogue, pages, startDate, iterStart, iterEnd, Offset(skip, size) + size, journal.lastDate);
        skip := 0;
        iterStart := journal.lastDate;
      }
    }

    /**
     Iterates over a list of names: the slices asked are the list, in order and without overlap, and what the server has
     under each is yielded; a slice that gets no answer is passed over, and only a bad status ends the iteration.
     */
    method IterateNames(around: Surroundings)
      returns (slices: seq<seq<string>>, pages: seq<seq<Product>>, end: End)
      requires names != [] && Fresh() && namesPerQuery > 0
      modifies this
      ensures Concat(slices) <= names
      ensures end.Completed? && startDate < endDate ==> Concat(slices) == names
      ensures startDate >= endDate ==> slices == []
      ensures Asked(around, names, namesPerQuery, slices) && pages == Yielded(around, slices)
      ensures end.StopRequested? ==> around.stop(|slices|)
      ensures end.Raised? <==> slices != [] && around.answer(|slices| - 1).StatusError?
      ensures iterStart == startDate
    {
      slices, pages := [], [];
      var turn: nat := 0;
      while iterStart < endDate
        invariant iterStart == startDate
        invariant Concat(slices) == names[..Min(skip * namesPerQuery, |names|)]
        invariant turn == skip == |slices| && (slices != [] ==> !around.answer(|slices| - 1).StatusError?)
        invariant Asked(around, names, namesPerQuery, slices) && pages == Yielded(around, slices)
        invariant startDate >= endDate ==> slices == []
        decreases |names| - skip * namesPerQuery
      {
        if around.stop(turn) {
          return slices, pages, StopRequested;
        }
        if |names| <= skip * namesPerQuery {
          return slices, pages, Completed;
        }
        NextSlice(names, namesPerQuery, skip, slices);
        assert (skip + 1) * namesPerQuery == skip * namesPerQuery + namesPerQuery;
        var slice := Page(names, namesPerQuery, skip);
        SliceMore(around, names, namesPerQuery, slices);
        slices := slices + [slice];
        if around.answer(turn).StatusError? {
          return slices, pages, Raised;
        }
        if around.answer(turn).Answered? {
          pages := pages + [around.named(slice)];
        }
        skip := skip + 1;
        turn := turn + 1;
      }
      return slices, pages, Completed;
    }
  }
}
