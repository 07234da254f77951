/**
  The pagination step the three copies of `paginate` share: the first token
  of a traversal, the fetch of one window of rows, the termination test and
  the successor state written into the next token.

  The database is abstract: a Query whose `count()` is `count`, and a
  Session whose `exec(statement).all()` on the window statement
  `query.limit(l).offset(o)` is `exec(Window(l, o))`.
*/
module Pager {
  import opened Wrappers
  import opened Models
  import opened TokenCodec

  /** The statement `query.limit(limit).offset(offset)`. */
  datatype Window = Window(limit: int, offset: int)

  /** The query being paged, reduced to what `query.count()` returns. */
  datatype Query = Query(count: int)

  /** The session, reduced to the rows it returns for a window statement. */
  datatype Session<T> = Session(exec: Window -> seq<T>)

  /** `make_first_token`: the token of a traversal that has fetched nothing yet. */
  function MakeFirstToken(count: int, pageSize: int): (token: string)
    ensures DecodeToken(token) == Success(PageToken(count, pageSize, count, 0, 0, 0))
  {
    var first := PageToken(
      total_count := count,
      page_size := pageSize,
      remaining := count,
      page_num := 0,
      offset := 0,
      elements_fetched := 0);
    RoundTrip(first);
    MakeToken(first)
  }

  /**
    The state of a fresh call: the first token is minted from one `count()`,
    decoded again, and its total_count overwritten by a second `count()`.
  */
  function FreshState(firstCount: int, secondCount: int, pageSize: int): (st: PageToken)
    ensures st == PageToken(secondCount, pageSize, firstCount, 0, 0, 0)
  {
    var decoded := DecodeToken(MakeFirstToken(firstCount, pageSize)).value;
    decoded.(total_count := secondCount)
  }

  /** The state written into the next token after `size` rows were fetched. */
  function NextState(st: PageToken, size: int, pageSize: int): (next: PageToken)
    ensures next.total_count == st.total_count && next.page_size == pageSize
    ensures next.remaining == next.total_count - next.elements_fetched
    ensures next.page_num == st.page_num + 1
    ensures next.offset - st.offset == next.elements_fetched - st.elements_fetched == size
  {
    PageToken(
      total_count := st.total_count,
      page_size := pageSize,
      remaining := st.total_count - (st.elements_fetched + size),
      page_num := st.page_num + 1,
      offset := st.offset + size,
      elements_fetched := st.elements_fetched + size)
  }

  /**
    What one step from state `st` promises: the rows are the window of
    `st.page_size` rows at `st.offset`, a next token exists exactly when the
    rows fetched so far fall short of `st.total_count`, and that token
    decodes to the successor state, which carries the caller's page size.
  */
  ghost predicate Fetched<T>(session: Session<T>, st: PageToken, pageSize: int, page: PageData<T>) {
    && page.items == session.exec(Window(st.page_size, st.offset))
    && (page.next_page_token.Some? <==> st.elements_fetched + |page.items| < st.total_count)
    && (page.next_page_token.Some? ==>
          DecodeToken(page.next_page_token.value) == Success(NextState(st, |page.items|, pageSize)))
  }

  /** Lines 27-49 of `paginate`, from the decoded state on. */
  function Step<T>(session: Session<T>, st: PageToken, pageSize: int): (page: PageData<T>)
    ensures Fetched(session, st, pageSize, page)
  {
    var items := session.exec(Window(st.page_size, st.offset));
    var fetched := st.elements_fetched + |items|;
    if fetched < st.total_count then
      var next := NextState(st, |items|, pageSize);
      RoundTrip(next);
      PageData(items, Some(MakeToken(next)))
    else
      PageData(items, None)
  }

  /**
    Every token a step mints describes unfinished work consistently: the
    total is carried over, remaining = total_count - elements_fetched > 0,
    the page counter goes up by one, and offset and elements_fetched advance
    together by the number of rows fetched.
  */
  lemma MintedTokenInvariant<T>(session: Session<T>, st: PageToken, pageSize: int, page: PageData<T>)
    requires Fetched(session, st, pageSize, page)
    requires page.next_page_token.Some?
    ensures DecodeToken(page.next_page_token.value).Success?
    ensures var next := DecodeToken(page.next_page_token.value).value;
            && next.total_count == st.total_count
            && next.remaining == next.total_count - next.elements_fetched
            && next.remaining > 0
            && next.page_num == st.page_num + 1
            && next.offset == st.offset + |page.items|
            && next.elements_fetched == st.elements_fetched + |page.items|
            && next.page_size == pageSize
  {
  }

  /**
    The caller's page size only reaches the next token: two steps from the
    same state that differ in it fetch the same rows and agree on whether
    the traversal goes on.
  */
  lemma PageSizeDefersToNextToken<T>(session: Session<T>, st: PageToken, p: int, q: int)
    ensures Step(session, st, p).items == Step(session, st, q).items
    ensures Step(session, st, p).next_page_token.Some? <==> Step(session, st, q).next_page_token.Some?
  {
  }

  // ---------------------------------------------------------------- an in-memory table

  function Min(a: int, b: int): (m: int) { if a <= b then a else b }

  function Max(a: int, b: int): (m: int) { if a <= b then b else a }

  /** The row ids lo, lo + 1, ..., hi - 1. */
  function Range(lo: int, hi: int): (r: seq<int>)
    requires lo <= hi
    ensures |r| == hi - lo
    ensures forall i :: 0 <= i < |r| ==> r[i] == lo + i
  {
    seq(hi - lo, i requires 0 <= i < hi - lo => lo + i)
  }

  /**
    A table of `rows` rows with ids 0 .. rows - 1, ordered by id: a window
    returns min(limit, max(0, rows - offset)) consecutive ids from `offset`.
  */
  function Table(rows: nat): (table: Session<int>) {
    Session((w: Window) => Range(w.offset, w.offset + Max(0, Min(w.limit, rows - w.offset))))
  }

  /** A window that lies inside the table returns exactly `limit` rows. */
  lemma FullWindow(rows: nat, limit: int, offset: int)
    requires 0 <= offset && 0 < limit && offset + limit <= rows
    ensures Table(rows).exec(Window(limit, offset)) == Range(offset, offset + limit)
  {
  }
}
