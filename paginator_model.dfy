/** Value-level model of the paginator: its six private fields as one datatype,
    one transition function per method of the class, and the properties of
    those transitions (page count as a ceiling, navigation bounds, slices of
    the collection handed to the page method).

    The two callbacks of the PHP class are not executed here.  A callable that
    was stored is an opaque `Callback`; what the count method returns on one
    particular call is a `CountResult` given to the operation that calls it;
    and fetching a page yields the `Slice` (offset and amount) that would be
    passed to the page method. */
module PaginatorModel {

  datatype Option<T> = None | Some(value: T)

  /** A stored callable; only its identity is modelled. */
  datatype Callback = Callback(name: string)

  /** A value handed to setPageMethod or setCountMethod: callable or not. */
  datatype Argument = Callable(f: Callback) | NotCallable

  /** What one invocation of the count method returned. */
  datatype CountResult = Integer(value: int) | NotInteger

  /** The exceptions the class throws; their message text is not modelled. */
  datatype Error =
    | NotAMethod       // setter argument is not callable
    | NoCountMethod    // recalculation without a count method
    | CountNotInteger  // count method returned something other than an int
    | NoPageMethod     // getPage without a page method

  /** Outcome of a fluent setter: it returned the object, or it threw. */
  datatype Outcome = Pass | Fail(error: Error)

  datatype Result<T> = Ok(value: T) | Err(error: Error)

  /** The arguments getPage passes to the page method. */
  datatype Slice = Slice(offset: int, amount: int)

  /** The state of one paginator object. */
  datatype Fields = Fields(
    pageSize: int,
    currentPage: int,
    pageMethod: Option<Callback>,
    countMethod: Option<Callback>,
    numberOfPages: int,
    numberOfEntries: int)

  /** A new state together with what the method returned. */
  datatype Transition<R> = Transition(after: Fields, reply: R)

  /** The field initialisers of the class. */
  const Initial: Fields := Fields(1, 1, None, None, 0, 0)

  /** Ceiling of n / d for a positive divisor: the least k with k * d >= n. */
  function CeilDiv(n: int, d: int): (k: int)
    requires d >= 1
    ensures (k - 1) * d < n <= k * d
    ensures n >= 0 ==> k >= 0
    ensures n == 0 ==> k == 0
  {
    var q := (n + d - 1) / d;
    assert q * d + (n + d - 1) % d == n + d - 1;
    assert (q - 1) * d == q * d - d;
    q
  }

  // ---------------------------------------------------------------- operations

  /** The division in calculatePages is only reached with a count method set
      and an integer count; there the page size must be positive. */
  predicate CanRecalculate(s: Fields, count: CountResult) {
    s.countMethod.None? || count.NotInteger? || s.pageSize >= 1
  }

  /** calculatePages: fail without a count method or on a non-integer count;
      otherwise cache the count and its page count.  currentPage is kept. */
  function CalculatePages(s: Fields, count: CountResult): Transition<Outcome>
    requires CanRecalculate(s, count)
  {
    if s.countMethod.None? then Transition(s, Fail(NoCountMethod))
    else if count.NotInteger? then Transition(s, Fail(CountNotInteger))
    else
      Transition(s.(numberOfEntries := count.value,
                    numberOfPages := CeilDiv(count.value, s.pageSize)), Pass)
  }

  /** setPageSize: stores the size first, then recalculates. */
  function SetPageSize(s: Fields, size: int, count: CountResult): Transition<Outcome>
    requires CanRecalculate(s.(pageSize := size), count)
  {
    CalculatePages(s.(pageSize := size), count)
  }

  /** setPageMethod: rejects a non-callable, else stores it, then recalculates. */
  function SetPageMethod(s: Fields, f: Argument, count: CountResult): Transition<Outcome>
    requires f.NotCallable? || CanRecalculate(s, count)
  {
    match f
    case NotCallable => Transition(s, Fail(NotAMethod))
    case Callable(g) => CalculatePages(s.(pageMethod := Some(g)), count)
  }

  /** setCountMethod: rejects a non-callable, else stores it; no recalculation. */
  function SetCountMethod(s: Fields, f: Argument): Transition<Outcome> {
    match f
    case NotCallable => Transition(s, Fail(NotAMethod))
    case Callable(g) => Transition(s.(countMethod := Some(g)), Pass)
  }

  function SetCurrentPage(s: Fields, page: int): Transition<bool> {
    if page > s.numberOfPages || page < 1 then Transition(s, false)
    else Transition(s.(currentPage := page), true)
  }

  /** nextPage: the guard is equality with the page count, not >=. */
  function NextPage(s: Fields): Transition<bool> {
    if s.currentPage == s.numberOfPages then Transition(s, false)
    else Transition(s.(currentPage := s.currentPage + 1), true)
  }

  function PrevPage(s: Fields): Transition<bool> {
    if s.currentPage == 1 then Transition(s, false)
    else Transition(s.(currentPage := s.currentPage - 1), true)
  }

  /** getPage: the slice handed to the page method; no bounds check. */
  function GetPage(s: Fields): Result<Slice> {
    if s.pageMethod.None? then Err(NoPageMethod)
    else Ok(Slice((s.currentPage - 1) * s.pageSize, s.pageSize))
  }

  function LastPage(s: Fields): bool {
    s.currentPage == s.numberOfPages
  }

  // ---------------------------------------------------------------- invariants

  /** What every method keeps: pages are numbered from 1. */
  predicate Valid(s: Fields) {
    s.currentPage >= 1
  }

  /** The current page is one of the pages that exist. */
  predicate OnExistingPage(s: Fields) {
    1 <= s.currentPage <= s.numberOfPages
  }

  /** The cached counts agree with the page size, as after a recalculation. */
  predicate Consistent(s: Fields) {
    s.pageSize >= 1 && s.numberOfEntries >= 0 &&
    s.numberOfPages == CeilDiv(s.numberOfEntries, s.pageSize)
  }

  function Min(a: int, b: int): int { if a <= b then a else b }

  function Max(a: int, b: int): int { if a >= b then a else b }

  /** The state after k calls of nextPage. */
  function NextPageTimes(s: Fields, k: nat): Fields
    decreases k
  {
    if k == 0 then s else NextPageTimes(NextPage(s).after, k - 1)
  }

  /** The state after k calls of prevPage. */
  function PrevPageTimes(s: Fields, k: nat): Fields
    decreases k
  {
    if k == 0 then s else PrevPageTimes(PrevPage(s).after, k - 1)
  }

  // ---------------------------------------------------------------- page count

  /** CeilDiv is the least k with k * d >= n. */
  lemma CeilDivIsLeast(n: int, d: int, k: int)
    requires d >= 1 && k * d >= n
    ensures CeilDiv(n, d) <= k
  {
  }

  /** A successful recalculation caches the count and the ceiling of the count
      over the page size, and touches nothing else. */
  lemma CalculatePagesCounts(s: Fields, n: int)
    requires s.countMethod.Some? && s.pageSize >= 1 && n >= 0
    ensures CalculatePages(s, Integer(n)).reply == Pass
    ensures var t := CalculatePages(s, Integer(n)).after;
      Consistent(t) && t.numberOfEntries == n &&
      (t.numberOfPages - 1) * s.pageSize < n <= t.numberOfPages * s.pageSize &&
      (n == 0 ==> t.numberOfPages == 0) &&
      t == s.(numberOfEntries := n, numberOfPages := t.numberOfPages)
  {
  }

  /** Recalculation fails, changing nothing, exactly without a count method or
      with a non-integer count; it never moves the current page. */
  lemma CalculatePagesFails(s: Fields, count: CountResult)
    requires CanRecalculate(s, count)
    ensures CalculatePages(s, count).reply.Fail? <==> s.countMethod.None? || count.NotInteger?
    ensures s.countMethod.None? ==> CalculatePages(s, count).reply == Fail(NoCountMethod)
    ensures s.countMethod.Some? && count.NotInteger? ==>
      CalculatePages(s, count).reply == Fail(CountNotInteger)
    ensures CalculatePages(s, count).reply.Fail? ==> CalculatePages(s, count).after == s
    ensures CalculatePages(s, count).after.currentPage == s.currentPage
  {
  }

  /** Because currentPage is never clamped, shrinking the collection can leave
      it past the last page, and getPage then asks for a slice beyond the end. */
  lemma RecalculationCanStrandCurrentPage()
    ensures var s := Fields(1, 3, Some(Callback("page")), Some(Callback("count")), 3, 3);
      OnExistingPage(s) &&
      var t := CalculatePages(s, Integer(1)).after;
      !OnExistingPage(t) && t.currentPage == 3 &&
      GetPage(t) == Ok(Slice(2, 1)) && GetPage(t).value.offset >= t.numberOfEntries
  {
  }

  // ---------------------------------------------------------------- setters

  /** setPageSize stores the size even when the recalculation then fails. */
  lemma SetPageSizeStoresFirst(s: Fields, size: int, count: CountResult)
    requires CanRecalculate(s.(pageSize := size), count)
    ensures SetPageSize(s, size, count).after.pageSize == size
    ensures s.countMethod.None? ==>
      SetPageSize(s, size, count) == Transition(s.(pageSize := size), Fail(NoCountMethod))
  {
  }

  /** setPageMethod stores a callable even when the recalculation then fails;
      a non-callable is rejected with no change. */
  lemma SetPageMethodStoresFirst(s: Fields, f: Argument, count: CountResult)
    requires f.NotCallable? || CanRecalculate(s, count)
    ensures f.NotCallable? ==> SetPageMethod(s, f, count) == Transition(s, Fail(NotAMethod))
    ensures f.Callable? ==> SetPageMethod(s, f, count).after.pageMethod == Some(f.f)
    ensures f.Callable? && s.countMethod.None? ==>
      SetPageMethod(s, f, count) == Transition(s.(pageMethod := Some(f.f)), Fail(NoCountMethod))
  {
  }

  /** With a count method set, setPageSize recalculates for the new size: an
      integer count n is cached with its ceiling over the size, and a
      non-integer count fails with only the size changed. */
  lemma SetPageSizeRecalculates(s: Fields, size: int, count: CountResult)
    requires s.countMethod.Some? && CanRecalculate(s.(pageSize := size), count)
    ensures count.NotInteger? ==>
      SetPageSize(s, size, count) == Transition(s.(pageSize := size), Fail(CountNotInteger))
    ensures count.Integer? ==>
      SetPageSize(s, size, count) ==
      Transition(s.(pageSize := size, numberOfEntries := count.value,
                    numberOfPages := CeilDiv(count.value, size)), Pass)
    ensures count.Integer? && count.value >= 0 ==> Consistent(SetPageSize(s, size, count).after)
  {
  }

  /** With a count method set, setPageMethod stores a callable and recalculates
      for the current size, as setPageSize does. */
  lemma SetPageMethodRecalculates(s: Fields, g: Callback, count: CountResult)
    requires s.countMethod.Some? && CanRecalculate(s, count)
    ensures count.NotInteger? ==>
      SetPageMethod(s, Callable(g), count) ==
      Transition(s.(pageMethod := Some(g)), Fail(CountNotInteger))
    ensures count.Integer? ==>
      SetPageMethod(s, Callable(g), count) ==
      Transition(s.(pageMethod := Some(g), numberOfEntries := count.value,
                    numberOfPages := CeilDiv(count.value, s.pageSize)), Pass)
    ensures count.Integer? && count.value >= 0 ==>
      Consistent(SetPageMethod(s, Callable(g), count).after)
  {
  }

  /** setCountMethod only stores: the cached counts stay as they were. */
  lemma SetCountMethodOnlyStores(s: Fields, f: Argument)
    ensures var t := SetCountMethod(s, f);
      t.reply.Pass? <==> f.Callable?
    ensures var t := SetCountMethod(s, f).after;
      t.numberOfPages == s.numberOfPages && t.numberOfEntries == s.numberOfEntries &&
      t == s.(countMethod := t.countMethod)
    ensures f.Callable? ==> SetCountMethod(s, f) == Transition(s.(countMethod := Some(f.f)), Pass)
    ensures f.NotCallable? ==> SetCountMethod(s, f) == Transition(s, Fail(NotAMethod))
  {
  }

  /** setCurrentPage succeeds exactly on an existing page, and then getCurrentPage
      reads the page back; a refusal changes nothing. */
  lemma SetCurrentPageInRange(s: Fields, page: int)
    ensures SetCurrentPage(s, page).reply <==> 1 <= page <= s.numberOfPages
    ensures SetCurrentPage(s, page).reply ==>
      SetCurrentPage(s, page).after == s.(currentPage := page) && OnExistingPage(SetCurrentPage(s, page).after)
    ensures !SetCurrentPage(s, page).reply ==> SetCurrentPage(s, page).after == s
  {
  }

  // ---------------------------------------------------------------- navigation

  /** nextPage refuses exactly on the page equal to the page count; otherwise
      it moves one page on.  With zero pages it therefore always moves on. */
  lemma NextPageSteps(s: Fields)
    ensures !NextPage(s).reply <==> s.currentPage == s.numberOfPages
    ensures !NextPage(s).reply ==> NextPage(s).after == s
    ensures NextPage(s).reply ==> NextPage(s).after == s.(currentPage := s.currentPage + 1)
    ensures s.numberOfPages == 0 && Valid(s) ==> NextPage(s).reply
    ensures LastPage(s) <==> !NextPage(s).reply
  {
  }

  /** prevPage refuses exactly on page 1; otherwise it moves one page back. */
  lemma PrevPageSteps(s: Fields)
    ensures !PrevPage(s).reply <==> s.currentPage == 1
    ensures !PrevPage(s).reply ==> PrevPage(s).after == s
    ensures PrevPage(s).reply ==> PrevPage(s).after == s.(currentPage := s.currentPage - 1)
  {
  }

  /** currentPage >= 1 holds initially and after every operation. */
  lemma EveryOperationKeepsValid(s: Fields, size: int, f: Argument, count: CountResult, page: int)
    requires Valid(s)
    ensures Valid(Initial)
    ensures CanRecalculate(s.(pageSize := size), count) ==> Valid(SetPageSize(s, size, count).after)
    ensures f.NotCallable? || CanRecalculate(s, count) ==> Valid(SetPageMethod(s, f, count).after)
    ensures Valid(SetCountMethod(s, f).after)
    ensures Valid(SetCurrentPage(s, page).after)
    ensures Valid(NextPage(s).after) && Valid(PrevPage(s).after)
  {
  }

  /** Navigation never leaves the existing pages once on one. */
  lemma NavigationKeepsExistingPage(s: Fields, page: int)
    requires OnExistingPage(s)
    ensures OnExistingPage(SetCurrentPage(s, page).after)
    ensures OnExistingPage(NextPage(s).after) && OnExistingPage(PrevPage(s).after)
  {
  }

  /** A successful nextPage is undone by prevPage. */
  lemma NextThenPrevRestores(s: Fields)
    requires Valid(s) && NextPage(s).reply
    ensures PrevPage(NextPage(s).after).reply
    ensures PrevPage(NextPage(s).after).after == s
  {
  }

  /** From an existing page, k calls of nextPage stop at the last page. */
  lemma {:induction false} NextPageStopsAtLastPage(s: Fields, k: nat)
    requires OnExistingPage(s)
    ensures NextPageTimes(s, k) == s.(currentPage := Min(s.currentPage + k, s.numberOfPages))
    decreases k
  {
    if k > 0 {
      NextPageStopsAtLastPage(NextPage(s).after, k - 1);
    }
  }

  /** From a page past the page count (stale, or zero pages), nextPage never
      refuses: k calls move k pages on, without end. */
  lemma {:induction false} NextPageRunsPastEnd(s: Fields, k: nat)
    requires s.currentPage > s.numberOfPages
    ensures NextPageTimes(s, k) == s.(currentPage := s.currentPage + k)
    ensures NextPage(NextPageTimes(s, k)).reply
    decreases k
  {
    if k > 0 {
      NextPageRunsPastEnd(NextPage(s).after, k - 1);
    }
  }

  /** k calls of prevPage stop at page 1. */
  lemma {:induction false} PrevPageStopsAtFirstPage(s: Fields, k: nat)
    requires Valid(s)
    ensures PrevPageTimes(s, k) == s.(currentPage := Max(s.currentPage - k, 1))
    decreases k
  {
    if k > 0 {
      PrevPageStopsAtFirstPage(PrevPage(s).after, k - 1);
    }
  }

  // ---------------------------------------------------------------- getPage

  /** getPage fails exactly without a page method; otherwise it asks for pageSize
      entries starting after the pages before the current one. */
  lemma GetPageSlice(s: Fields)
    ensures GetPage(s).Err? <==> s.pageMethod.None?
    ensures GetPage(s).Err? ==> GetPage(s).error == NoPageMethod
    ensures GetPage(s).Ok? ==>
      GetPage(s).value.amount == s.pageSize &&
      GetPage(s).value.offset == (s.currentPage - 1) * s.pageSize
  {
  }

  /** With consistent counts and an existing current page, the slice starts
      inside the collection, every page but the last is full, and the last
      page reaches the end: the pages cover the collection without overlap. */
  lemma PageSliceWithinEntries(s: Fields)
    requires Consistent(s) && OnExistingPage(s) && s.pageMethod.Some?
    ensures GetPage(s).Ok?
    ensures var sl := GetPage(s).value;
      0 <= sl.offset < s.numberOfEntries &&
      (s.currentPage < s.numberOfPages ==> sl.offset + sl.amount < s.numberOfEntries) &&
      (s.currentPage == s.numberOfPages ==> s.numberOfEntries <= sl.offset + sl.amount)
  {
    var n, d, p, c := s.numberOfEntries, s.pageSize, s.numberOfPages, s.currentPage;
    MulMonotone(c - 1, p - 1, d);
    if c < p {
      MulMonotone(c, p - 1, d);
    }
  }

  lemma MulMonotone(a: int, b: int, d: int)
    requires 0 <= a <= b && d >= 1
    ensures 0 <= a * d <= b * d
  {
    assert (b - a) * d >= 0;
  }
}
