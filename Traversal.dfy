/**
  A client that pages through a query by feeding each next token back into
  `paginate`, and the same loop on decoded states with no token in between.
  The loop is stated for any paginate function, so that what a whole
  traversal returns follows from what one call promises.
*/
module Traversal {
  import opened Wrappers
  import opened Models
  import opened Pager

  /** The outcome of a client loop: the rows it received, the calls it made, whether it saw the end. */
  datatype Run<T> = Run(items: seq<T>, calls: nat, finished: bool)

  /**
    The client loop: call `paginate` with `token`, keep the rows, and go on
    with the next token while there is one, for at most `fuel` further
    calls after the first. A failing call ends the loop with its error.
  */
  function Traverse<T, E>(paginate: Option<string> -> Result<PageData<T>, E>, token: Option<string>, fuel: nat)
    : (r: Result<Run<T>, E>)
    ensures r.Success? ==> 1 <= r.value.calls <= fuel + 1
    ensures r.Success? && !r.value.finished ==> r.value.calls == fuel + 1
    decreases fuel
  {
    var page :- paginate(token);
    if page.next_page_token.None? then
      Success(Run(page.items, 1, true))
    else if fuel == 0 then
      Success(Run(page.items, 1, false))
    else
      var rest :- Traverse(paginate, page.next_page_token, fuel - 1);
      Success(Run(page.items + rest.items, 1 + rest.calls, rest.finished))
  }

  /**
    The same loop on decoded states: from state `st` it takes the window of
    `st.page_size` rows at `st.offset` and goes on from the successor state
    while rows remain.
  */
  function Walk<T>(session: Session<T>, pageSize: int, st: PageToken, fuel: nat): (run: Run<T>)
    ensures run.calls >= 1
    ensures run.calls <= fuel + 1
    decreases fuel
  {
    var items := session.exec(Window(st.page_size, st.offset));
    if st.elements_fetched + |items| >= st.total_count then
      Run(items, 1, true)
    else if fuel == 0 then
      Run(items, 1, false)
    else
      var rest := Walk(session, pageSize, NextState(st, |items|, pageSize), fuel - 1);
      Run(items + rest.items, 1 + rest.calls, rest.finished)
  }

  /**
    `paginate` performs the pagination step: for every token that `resolves`
    to a state, the call succeeds, returns the window of that state, has a
    next token exactly when rows remain, and that token resolves to the
    successor state with the caller's page size.
  */
  ghost predicate Follows<T, E>(paginate: Option<string> -> Result<PageData<T>, E>,
                                resolves: (Option<string>, PageToken) -> bool,
                                session: Session<T>, pageSize: int)
  {
    forall token, st :: resolves(token, st) ==>
      && paginate(token).Success?
      && paginate(token).value.items == session.exec(Window(st.page_size, st.offset))
      && (paginate(token).value.next_page_token.Some? <==>
            st.elements_fetched + |paginate(token).value.items| < st.total_count)
      && (paginate(token).value.next_page_token.Some? ==>
            resolves(paginate(token).value.next_page_token,
                     NextState(st, |paginate(token).value.items|, pageSize)))
  }

  /**
    Feeding tokens back loses and invents nothing: a client that starts
    from a token for state `st` receives what the walk from `st` receives,
    call for call, and stops where it stops.
  */
  lemma {:induction false} TraverseWalk<T, E>(paginate: Option<string> -> Result<PageData<T>, E>,
                                              resolves: (Option<string>, PageToken) -> bool,
                                              session: Session<T>, pageSize: int,
                                              token: Option<string>, st: PageToken, fuel: nat)
    requires Follows(paginate, resolves, session, pageSize)
    requires resolves(token, st)
    ensures Traverse(paginate, token, fuel) == Success(Walk(session, pageSize, st, fuel))
    decreases fuel
  {
    var page := paginate(token).value;
    if page.next_page_token.Some? && fuel > 0 {
      TraverseWalk(paginate, resolves, session, pageSize, page.next_page_token,
                   NextState(st, |page.items|, pageSize), fuel - 1);
    }
  }

  // ---------------------------------------------------------------- an in-memory table

  /** The number of pages of size d that n rows fill: the ceiling of n / d. */
  function CeilDiv(n: int, d: int): (c: nat)
    requires d > 0
    ensures n <= 0 ==> c == 0
    ensures n > 0 ==> (c - 1) * d < n <= c * d
    decreases n
  {
    if n <= 0 then 0 else 1 + CeilDiv(n - d, d)
  }

  lemma RangeSplit(lo: int, mid: int, hi: int)
    requires lo <= mid <= hi
    ensures Range(lo, mid) + Range(mid, hi) == Range(lo, hi)
  {
  }

  /** The state of a traversal of `rows` rows after k of them were fetched over pageNum calls. */
  function Cursor(rows: int, pageSize: int, k: int, pageNum: int): (st: PageToken) {
    PageToken(rows, pageSize, rows - k, pageNum, k, k)
  }

  /** The page count arithmetic of one call that fetches n of the rows - k rows left. */
  lemma PagesLeft(rows: int, pageSize: int, k: int, n: int, fuel: int)
    requires pageSize > 0 && k < rows && n == Min(pageSize, rows - k)
    requires fuel + 1 >= CeilDiv(rows - k, pageSize)
    ensures k + n < rows ==>
              && CeilDiv(rows - k, pageSize) == 1 + CeilDiv(rows - (k + n), pageSize)
              && fuel >= 1 && (fuel - 1) + 1 >= CeilDiv(rows - (k + n), pageSize)
    ensures k + n >= rows ==> CeilDiv(rows - k, pageSize) == 1 && k + n == rows
  {
    assert CeilDiv(rows - k, pageSize) == 1 + CeilDiv(rows - k - pageSize, pageSize);
  }

  /**
    The walk from the state after k of `rows` rows takes the remaining rows
    in order, min(pageSize, rows - k) per call, over CeilDiv(rows - k,
    pageSize) calls, and ends.
  */
  lemma {:induction false} WalkCoverage(rows: nat, pageSize: int, k: nat, pageNum: int, fuel: nat)
    requires pageSize > 0 && k < rows
    requires fuel + 1 >= CeilDiv(rows - k, pageSize)
    ensures Walk(Table(rows), pageSize, Cursor(rows, pageSize, k, pageNum), fuel)
         == Run(Range(k, rows), CeilDiv(rows - k, pageSize), true)
    decreases rows - k
  {
    var st := Cursor(rows, pageSize, k, pageNum);
    var n := Min(pageSize, rows - k);
    assert Table(rows).exec(Window(st.page_size, st.offset)) == Range(k, k + n);
    PagesLeft(rows, pageSize, k, n, fuel);
    if k + n < rows {
      assert NextState(st, n, pageSize) == Cursor(rows, pageSize, k + n, pageNum + 1);
      WalkCoverage(rows, pageSize, k + n, pageNum + 1, fuel - 1);
      RangeSplit(k, k + n, rows);
    }
  }

  /**
    From the start of a table of `rows` rows with a constant page size, the
    walk returns every row exactly once, in order, over max(1, ceiling(rows
    / pageSize)) calls, and ends.
  */
  lemma WalkFromStart(rows: nat, pageSize: int)
    requires pageSize > 0
    ensures Walk(Table(rows), pageSize, Cursor(rows, pageSize, 0, 0), CeilDiv(rows, pageSize))
         == Run(Range(0, rows), Max(1, CeilDiv(rows, pageSize)), true)
  {
    if rows > 0 {
      WalkCoverage(rows, pageSize, 0, 0, CeilDiv(rows, pageSize));
    }
  }

  /**
    With page size 0 on a non-empty table, every call returns no row and
    mints a token for the same offset: the walk spends all its calls and
    never ends.
  */
  lemma {:induction false} NoProgress(rows: int, pageNum: int, fuel: nat)
    requires rows > 0
    ensures Walk(Table(rows), 0, Cursor(rows, 0, 0, pageNum), fuel) == Run([], fuel + 1, false)
    decreases fuel
  {
    var st := Cursor(rows, 0, 0, pageNum);
    assert Table(rows).exec(Window(st.page_size, st.offset)) == [];
    if fuel > 0 {
      assert NextState(st, 0, 0) == Cursor(rows, 0, 0, pageNum + 1);
      NoProgress(rows, pageNum + 1, fuel - 1);
    }
  }
}
