/** The paginator object: six private fields updated in place by its setters
    and navigation methods.  Every mutating method is proved against the
    transition of the same name in PaginatorModel, so the lemmas proved there
    apply to the object; the headline facts are also stated field by field.
    The read-only methods change nothing. */
module PaginatorClass {
  import opened PaginatorModel

  class Paginator {
    var pageSize: int
    var currentPage: int
    var pageMethod: Option<Callback>
    var countMethod: Option<Callback>
    var numberOfPages: int
    var numberOfEntries: int

    /** The object invariant: pages are numbered from 1. */
    ghost predicate Valid()
      reads this
    {
      currentPage >= 1
    }

    /** The fields as one value. */
    ghost function State(): Fields
      reads this
    {
      Fields(pageSize, currentPage, pageMethod, countMethod, numberOfPages, numberOfEntries)
    }

    constructor ()
      ensures Valid() && State() == Initial
    {
      pageSize := 1;
      currentPage := 1;
      pageMethod := None;
      countMethod := None;
      numberOfPages := 0;
      numberOfEntries := 0;
    }

    method SetPageSize(size: int, count: CountResult) returns (outcome: Outcome)
      requires Valid() && CanRecalculate(State().(pageSize := size), count)
      modifies this
      ensures Valid()
      ensures Transition(State(), outcome) == PaginatorModel.SetPageSize(old(State()), size, count)
      ensures pageSize == size && currentPage == old(currentPage)
      ensures outcome.Pass? <==> countMethod.Some? && count.Integer?
    {
      pageSize := size;
      outcome := CalculatePages(count);
    }

    method SetPageMethod(f: Argument, count: CountResult) returns (outcome: Outcome)
      requires Valid() && (f.NotCallable? || CanRecalculate(State(), count))
      modifies this
      ensures Valid()
      ensures Transition(State(), outcome) == PaginatorModel.SetPageMethod(old(State()), f, count)
      ensures f.NotCallable? ==> outcome == Fail(NotAMethod) && unchanged(this)
      ensures f.Callable? ==> pageMethod == Some(f.f)
      ensures f.Callable? ==> (outcome.Pass? <==> countMethod.Some? && count.Integer?)
    {
      if f.NotCallable? {
        return Fail(NotAMethod);
      }
      pageMethod := Some(f.f);
      outcome := CalculatePages(count);
    }

    method SetCountMethod(f: Argument) returns (outcome: Outcome)
      requires Valid()
      modifies this
      ensures Valid()
      ensures Transition(State(), outcome) == PaginatorModel.SetCountMethod(old(State()), f)
      ensures numberOfPages == old(numberOfPages) && numberOfEntries == old(numberOfEntries)
      ensures outcome.Pass? <==> f.Callable?
      ensures f.NotCallable? ==> outcome == Fail(NotAMethod) && unchanged(this)
      ensures f.Callable? ==> countMethod == Some(f.f)
    {
      if f.NotCallable? {
        return Fail(NotAMethod);
      }
      countMethod := Some(f.f);
      outcome := Pass;
    }

    method SetCurrentPage(page: int) returns (ok: bool)
      requires Valid()
      modifies this
      ensures Valid()
      ensures Transition(State(), ok) == PaginatorModel.SetCurrentPage(old(State()), page)
      ensures ok <==> 1 <= page <= old(numberOfPages)
      ensures currentPage == if ok then page else old(currentPage)
    {
      if page > numberOfPages || page < 1 {
        return false;
      }
      currentPage := page;
      ok := true;
    }

    method NextPage() returns (ok: bool)
      requires Valid()
      modifies this
      ensures Valid()
      ensures Transition(State(), ok) == PaginatorModel.NextPage(old(State()))
      ensures ok <==> old(currentPage) != numberOfPages
      ensures currentPage == if ok then old(currentPage) + 1 else old(currentPage)
    {
      if currentPage == numberOfPages {
        return false;
      }
      currentPage := currentPage + 1;
      ok := true;
    }

    method PrevPage() returns (ok: bool)
      requires Valid()
      modifies this
      ensures Valid()
      ensures Transition(State(), ok) == PaginatorModel.PrevPage(old(State()))
      ensures ok <==> old(currentPage) != 1
      ensures currentPage == if ok then old(currentPage) - 1 else old(currentPage)
    {
      if currentPage == 1 {
        return false;
      }
      currentPage := currentPage - 1;
      ok := true;
    }

    method GetNumberOfPages() returns (n: int)
      ensures n == numberOfPages
      ensures Consistent(State()) ==> (n - 1) * pageSize < numberOfEntries <= n * pageSize
    {
      n := numberOfPages;
    }

    /** The arguments the page method would receive; the object is not changed. */
    method GetPage() returns (r: Result<Slice>)
      ensures r == PaginatorModel.GetPage(State())
      ensures r.Err? <==> pageMethod.None?
      ensures r.Ok? ==> r.value == Slice((currentPage - 1) * pageSize, pageSize)
    {
      if pageMethod.None? {
        return Err(NoPageMethod);
      }
      var offset := (currentPage - 1) * pageSize;
      var amount := pageSize;
      r := Ok(Slice(offset, amount));
    }

    method LastPage() returns (last: bool)
      ensures last == PaginatorModel.LastPage(State())
      ensures last <==> currentPage == numberOfPages
    {
      last := currentPage == numberOfPages;
    }

    method GetCurrentPage() returns (page: int)
      requires Valid()
      ensures page == currentPage && page >= 1
    {
      page := currentPage;
    }

    /** calculatePages, the recalculation both setPageSize and setPageMethod end with. */
    method CalculatePages(count: CountResult) returns (outcome: Outcome)
      requires Valid() && CanRecalculate(State(), count)
      modifies this
      ensures Valid()
      ensures Transition(State(), outcome) == PaginatorModel.CalculatePages(old(State()), count)
      ensures outcome.Fail? <==> countMethod.None? || count.NotInteger?
      ensures old(countMethod).None? ==> outcome == Fail(NoCountMethod)
      ensures old(countMethod).Some? && count.NotInteger? ==> outcome == Fail(CountNotInteger)
      ensures outcome.Fail? ==> unchanged(this)
      ensures outcome.Pass? ==>
        numberOfEntries == count.value && numberOfPages == CeilDiv(count.value, pageSize)
      ensures currentPage == old(currentPage) && pageSize == old(pageSize)
    {
      if countMethod.None? {
        return Fail(NoCountMethod);
      }
      if count.NotInteger? {
        return Fail(CountNotInteger);
      }
      numberOfEntries := count.value;
      numberOfPages := CeilDiv(count.value, pageSize);
      outcome := Pass;
    }
  }

  /** A client scenario, checked by the verifier: 25 entries, 10 per page. */
  method ThreePagesOfTen()
  {
    var p := new Paginator();
    var o := p.SetPageSize(10, Integer(25));
    assert o == Fail(NoCountMethod) && p.pageSize == 10;
    o := p.SetCountMethod(Callable(Callback("count")));
    o := p.SetPageMethod(Callable(Callback("page")), Integer(25));
    assert o == Pass && p.numberOfPages == 3 && p.currentPage == 1;
    var ok := p.NextPage();
    var slice := p.GetPage();
    assert slice == Ok(Slice(10, 10));
    ok := p.NextPage();
    var last := p.LastPage();
    assert ok && last && p.currentPage == 3;
    ok := p.NextPage();
    assert !ok;
    o := p.SetPageSize(5, Integer(0));
    assert p.numberOfPages == 0 && p.currentPage == 3;
    ok := p.SetCurrentPage(1);
    assert !ok;
    ok := p.NextPage();
    assert ok && p.currentPage == 4;
  }
}
