# Paginator — a verified Dafny model

The repository is one PHP class, `paginator`. It keeps a page size, a current page, and the cached number of entries and pages. It holds two caller-supplied callables: a page method that takes an offset and an amount, and a count method that returns the size of the collection. Setting the page size or the page method recalculates the page count by calling the count method. Navigation (`setCurrentPage`, `nextPage`, `prevPage`) moves the current page behind a guard and reports with a boolean. `getPage` hands an offset and an amount to the page method.

The model has two modules:

- `PaginatorModel` (`paginator_model.dfy`) works on values. `Fields` is the object's six private fields. There is one transition function per method; each returns the new `Fields` together with what the method returned. `CeilDiv` is the exact integer ceiling. The lemmas prove the properties listed below.
- `PaginatorClass` (`paginator.dfy`) is `class Paginator` with the same six mutable fields. Its mutating methods have `modifies this`. Every mutating method is proved against the transition of the same name (`Transition(State(), reply) == PaginatorModel.X(old(State()), …)`), keeps the object invariant `currentPage >= 1` (`Valid()`), and states its main effect field by field. `GetPage` and `LastPage` change nothing and return the value of the model function of the same name. `GetNumberOfPages` and `GetCurrentPage` change nothing and return the field they read. `ThreePagesOfTen` is a client scenario whose assertions the verifier checks: 25 entries at 10 per page gives three pages, and then the collection shrinks while the current page is 3.

How the callables are represented:

- A stored callable is an opaque `Callback`.
- A value handed to a setter is an `Argument`, either `Callable(f)` or `NotCallable`. This stands in for `is_callable`.
- Each call of the count method is given as a `CountResult` parameter, either `Integer(n)` or `NotInteger`. This stands in for `call_user_func` followed by `is_int`.
- `getPage` returns the `Slice(offset, amount)` it would pass to the page method.
- Exceptions are `Fail(error)` or `Err(error)` values, and `Error` names which exception was thrown.

Two behaviours of the code are easy to misread from the method names:

- Despite the names, `setPageMethod` recalculates the page count (`src/paginator.php:52`) and `setCountMethod` does not (`src/paginator.php:64-72`).
- `nextPage` refuses only when `currentPage == numberOfPages` (`src/paginator.php:95`). So with zero pages, or with a current page left past the end by a recalculation, it goes on incrementing. The model proves this in `NextPageRunsPastEnd`.

## Model

| member | source | states |
|---|---|---|
| PaginatorModel.CalculatePages | src/paginator.php:168-181 | no contract of its own; CalculatePagesCounts, CalculatePagesFails, CeilDiv and CeilDivIsLeast state its behaviour |
| PaginatorModel.SetPageSize | src/paginator.php:28-36 | no contract of its own; SetPageSizeStoresFirst (store first, NoCountMethod), SetPageSizeRecalculates (success and CountNotInteger) and EveryOperationKeepsValid state its behaviour |
| PaginatorModel.SetPageMethod | src/paginator.php:45-55 | no contract of its own; SetPageMethodStoresFirst (NotAMethod, store first, NoCountMethod), SetPageMethodRecalculates (success and CountNotInteger) and EveryOperationKeepsValid state its behaviour |
| PaginatorModel.SetCountMethod | src/paginator.php:64-72 | no contract of its own; SetCountMethodOnlyStores and EveryOperationKeepsValid state its behaviour |
| PaginatorModel.SetCurrentPage | src/paginator.php:80-86 | no contract of its own; SetCurrentPageInRange, EveryOperationKeepsValid and NavigationKeepsExistingPage state its behaviour |
| PaginatorModel.NextPage | src/paginator.php:93-99 | no contract of its own; NextPageSteps, NavigationKeepsExistingPage, NextThenPrevRestores, NextPageStopsAtLastPage and NextPageRunsPastEnd state its behaviour |
| PaginatorModel.PrevPage | src/paginator.php:107-113 | no contract of its own; PrevPageSteps, NavigationKeepsExistingPage, NextThenPrevRestores and PrevPageStopsAtFirstPage state its behaviour |
| PaginatorModel.GetPage | src/paginator.php:131-142 | no contract of its own; GetPageSlice and PageSliceWithinEntries state its behaviour |
| PaginatorModel.LastPage | src/paginator.php:148-151 | no contract of its own; NextPageSteps states that lastPage holds exactly when nextPage would refuse, and Paginator.LastPage returns it |
| PaginatorModel.CeilDiv | src/paginator.php:180 | the page count for n entries of size d satisfies (k-1)·d < n ≤ k·d; it is non-negative for n ≥ 0 and zero for n = 0 |
| PaginatorModel.CeilDivIsLeast | src/paginator.php:180 | every k with k·d ≥ n is at least the computed page count, so the page count is the least such k |
| PaginatorModel.CalculatePagesCounts | src/paginator.php:179-180 | with a count method, page size ≥ 1 and an integer count n ≥ 0, recalculation succeeds, stores n as the entry count and the ceiling as the page count, and changes no other field |
| PaginatorModel.CalculatePagesFails | src/paginator.php:170-180 | recalculation fails exactly when no count method is set (NoCountMethod, checked first) or the count is not an integer (CountNotInteger); a failure changes nothing, and the current page is never changed |
| PaginatorModel.RecalculationCanStrandCurrentPage | src/paginator.php:179-180 | a concrete state on page 3 of 3 whose collection shrinks to one entry keeps page 3, is no longer on an existing page, and getPage then asks for offset 2 of a one-entry collection |
| PaginatorModel.SetPageSizeStoresFirst | src/paginator.php:30-33 | the new size is stored whatever the recalculation does; with no count method the call fails with NoCountMethod and only the size has changed |
| PaginatorModel.SetPageSizeRecalculates | src/paginator.php:30-33 | with a count method set, an integer count n gives Pass with the new size, n entries and CeilDiv(n, size) pages and nothing else changed, and the counts are then consistent for n ≥ 0; a non-integer count fails with CountNotInteger and only the size has changed |
| PaginatorModel.SetPageMethodRecalculates | src/paginator.php:49-52 | with a count method set, a callable is stored and an integer count n gives Pass with n entries and CeilDiv(n, pageSize) pages and nothing else changed, and the counts are then consistent for n ≥ 0; a non-integer count fails with CountNotInteger and only the page method has changed |
| PaginatorModel.SetPageMethodStoresFirst | src/paginator.php:47-52 | a non-callable is rejected with no change; a callable is stored even when the recalculation after it fails |
| PaginatorModel.SetCountMethodOnlyStores | src/paginator.php:66-69 | succeeds exactly for a callable and then stores it as the count method, changing nothing else (cached counts included); a non-callable fails with NotAMethod and changes nothing |
| PaginatorModel.SetCurrentPageInRange | src/paginator.php:82-85 | returns true exactly when 1 ≤ page ≤ numberOfPages; on true the current page is the given page, which is then an existing page; on false nothing changes |
| PaginatorModel.NextPageSteps | src/paginator.php:95-96 | returns false and changes nothing exactly when currentPage == numberOfPages; otherwise only currentPage changes, by +1; with zero pages it always moves on; lastPage holds exactly when nextPage would refuse |
| PaginatorModel.PrevPageSteps | src/paginator.php:109-110 | returns false and changes nothing exactly on page 1; otherwise only currentPage changes, by −1 |
| PaginatorModel.EveryOperationKeepsValid | src/paginator.php:80-113 | currentPage ≥ 1 holds in the initial state and after every setter and navigation call |
| PaginatorModel.NavigationKeepsExistingPage | src/paginator.php:82-110 | from an existing page, setCurrentPage, nextPage and prevPage leave the current page on an existing page |
| PaginatorModel.NextThenPrevRestores | src/paginator.php:95-110 | after a successful nextPage, prevPage succeeds and restores the original state |
| PaginatorModel.NextPageStopsAtLastPage | src/paginator.php:95-96 | from an existing page, k calls of nextPage reach page min(currentPage + k, numberOfPages) and change nothing else |
| PaginatorModel.NextPageRunsPastEnd | src/paginator.php:95-96 | from a page past the page count (including any page when there are zero pages), k calls of nextPage advance k pages and the next call still succeeds |
| PaginatorModel.PrevPageStopsAtFirstPage | src/paginator.php:109-110 | k calls of prevPage reach page max(currentPage − k, 1) and change nothing else |
| PaginatorModel.GetPageSlice | src/paginator.php:133-137 | getPage fails with NoPageMethod exactly when no page method is set; otherwise amount = pageSize and offset = (currentPage − 1)·pageSize, with no check against the page count |
| PaginatorModel.PageSliceWithinEntries | src/paginator.php:136-137 | with consistent counts and an existing current page, the offset lies inside the collection, every page before the last is full, and the last page reaches the end of the collection |
| PaginatorClass.Paginator.constructor | src/paginator.php:6-11 | the new object has page size 1, current page 1, no callables and zero entries and pages |
| PaginatorClass.Paginator.SetPageSize | src/paginator.php:28-36 | stores the size, then recalculates as CalculatePages does; succeeds exactly with a count method and an integer count; the current page is kept |
| PaginatorClass.Paginator.SetPageMethod | src/paginator.php:45-55 | a non-callable fails with no change; otherwise stores the callable, then recalculates, and succeeds exactly with a count method and an integer count |
| PaginatorClass.Paginator.SetCountMethod | src/paginator.php:64-72 | a non-callable fails with NotAMethod and no change; otherwise stores the callable as the count method without recalculating, so the cached counts are unchanged |
| PaginatorClass.Paginator.SetCurrentPage | src/paginator.php:80-86 | true exactly for 1 ≤ page ≤ numberOfPages, and then the current page is that page; otherwise nothing changes |
| PaginatorClass.Paginator.NextPage | src/paginator.php:93-99 | false exactly when currentPage == numberOfPages, and then nothing changes; otherwise the current page goes up by one |
| PaginatorClass.Paginator.PrevPage | src/paginator.php:107-113 | false exactly on page 1, and then nothing changes; otherwise the current page goes down by one |
| PaginatorClass.Paginator.GetNumberOfPages | src/paginator.php:120-123 | returns the cached page count without changing the object; when the counts are consistent, it is the ceiling of entries over page size |
| PaginatorClass.Paginator.GetPage | src/paginator.php:131-142 | fails exactly without a page method; otherwise returns the slice (offset (currentPage − 1)·pageSize, amount pageSize); changes no field |
| PaginatorClass.Paginator.LastPage | src/paginator.php:148-151 | true exactly when currentPage == numberOfPages; changes no field |
| PaginatorClass.Paginator.GetCurrentPage | src/paginator.php:158-161 | returns the current page, which is at least 1; changes no field |
| PaginatorClass.Paginator.CalculatePages | src/paginator.php:168-181 | fails with no change exactly without a count method (NoCountMethod) or with a non-integer count (CountNotInteger); otherwise caches the count and its ceiling over the page size; never changes the current page or the page size |

## Left out

- The callables themselves (`is_callable`, `call_user_func`) are foreign calls. A callable is an opaque identity, the count method's answer is a parameter, and the page method's result is replaced by the slice passed to it.
- Re-checking `is_callable` on the stored page method in `getPage` is not modelled: only callables are ever stored, so the check always passes here.
- PHP's float division and `ceil` in `calculatePages`, and the float-to-int conversion in `getNumberOfPages`, are modelled as exact integer ceiling division. Counts beyond 2^53 would lose precision in PHP.
- A page size of zero or less at recalculation is a division by zero (or a negative divisor) in PHP. Here it is excluded by the precondition `CanRecalculate`, and only when the division is actually reached. Such a size may still be stored while no count method is set.
- NextPage, NextPageRunsPastEnd, GetPage: page numbers and offsets are unbounded integers here. In PHP, `$this->currentPage++` and `($this->currentPage - 1) * $this->pageSize` become floats past PHP_INT_MAX. Beyond that point a float page number stops advancing and an offset loses precision, so "without end" in NextPageRunsPastEnd holds only below PHP_INT_MAX.
- Arguments that are not integers (a float or string page size or page number) are not modelled: sizes and page numbers are `int`.
- Exception message texts are not modelled, only which exception is thrown. In the source the messages of the two setters appear swapped.
- The fluent `return $this` of the setters is implicit: the method returns `Pass` and the object is the same one.
