/**
  The packaged free-function API of src/sqlpage/sqlpage.py: `paginate`
  over a session and a query, with the page size as an argument. A missing
  or empty token starts a traversal; any other token is decoded.
*/
module SqlPage {
  import opened Wrappers
  import opened Models
  import opened TokenCodec
  import opened Pager
  import opened Traversal

  /** Python's `not token`: no token, or the empty string. */
  function IsFresh(token: Option<string>): (starts: bool)
    ensures starts <==> token.None? || |token.value| == 0
  {
    token.None? || token.value == ""
  }

  /** `paginate(session, query, token, page_size)`. */
  function Paginate<T>(session: Session<T>, query: Query, token: Option<string>, pageSize: int)
    : (r: Result<PageData<T>, DecodeError>)
    ensures IsFresh(token) ==>
              r.Success? && Fetched(session, PageToken(query.count, pageSize, query.count, 0, 0, 0), pageSize, r.value)
    ensures !IsFresh(token) && DecodeToken(token.value).Failure? ==>
              r == Failure(DecodeToken(token.value).error)
    ensures !IsFresh(token) && DecodeToken(token.value).Success? ==>
              r.Success? && Fetched(session, DecodeToken(token.value).value, pageSize, r.value)
  {
    var st :- if IsFresh(token) then Success(FreshState(query.count, query.count, pageSize))
              else DecodeToken(token.value);
    Success(Step(session, st, pageSize))
  }

  /** `token` leads `paginate` to state `st`: as a fresh start on `query`, or by decoding. */
  ghost predicate Resolves(query: Query, pageSize: int, token: Option<string>, st: PageToken) {
    if IsFresh(token) then st == PageToken(query.count, pageSize, query.count, 0, 0, 0)
    else DecodeToken(token.value) == Success(st)
  }

  /** Every decodable token is at least as long as its prefix, so none is empty. */
  lemma MintedTokenLength(token: string)
    requires DecodeToken(token).Success?
    ensures |token| >= 2
  {
  }

  /** The page a call returns from a token for state `st`, and the state its next token is for. */
  lemma PageFrom<T>(session: Session<T>, query: Query, pageSize: int, token: Option<string>, st: PageToken)
    returns (page: PageData<T>)
    requires Resolves(query, pageSize, token, st)
    ensures Paginate(session, query, token, pageSize) == Success(page)
    ensures Fetched(session, st, pageSize, page)
    ensures page.next_page_token.Some? ==>
              Resolves(query, pageSize, page.next_page_token, NextState(st, |page.items|, pageSize))
  {
    page := Paginate(session, query, token, pageSize).value;
    if page.next_page_token.Some? {
      MintedTokenLength(page.next_page_token.value);
    }
  }

  // ---------------------------------------------------------------- a whole traversal

  /** A client of one session and query that always passes the same page size. */
  function Client<T>(session: Session<T>, query: Query, pageSize: int)
    : (paginate: Option<string> -> Result<PageData<T>, DecodeError>)
  {
    token => Paginate(session, query, token, pageSize)
  }

  ghost function Resolver(query: Query, pageSize: int): (resolves: (Option<string>, PageToken) -> bool) {
    (token, st) => Resolves(query, pageSize, token, st)
  }

  /** `paginate` performs the pagination step on the states its tokens resolve to. */
  lemma ClientFollows<T>(session: Session<T>, query: Query, pageSize: int)
    ensures Follows(Client(session, query, pageSize), Resolver(query, pageSize), session, pageSize)
  {
    forall token, st | Resolver(query, pageSize)(token, st)
      ensures Client(session, query, pageSize)(token).Success?
    {
      var page := PageFrom(session, query, pageSize, token, st);
    }
  }

  /**
    Starting without a token, with a constant page size and a table of
    `rows` rows whose count does not change, the calls end with no token
    after returning every row exactly once, in order, over
    max(1, ceiling(rows / pageSize)) calls.
  */
  lemma Coverage(rows: nat, pageSize: int)
    requires pageSize > 0
    ensures Traverse(Client(Table(rows), Query(rows), pageSize), None, CeilDiv(rows, pageSize))
         == Success(Run(Range(0, rows), Max(1, CeilDiv(rows, pageSize)), true))
  {
    ClientFollows(Table(rows), Query(rows), pageSize);
    TraverseWalk(Client(Table(rows), Query(rows), pageSize), Resolver(Query(rows), pageSize),
                 Table(rows), pageSize, None, Cursor(rows, pageSize, 0, 0), CeilDiv(rows, pageSize));
    WalkFromStart(rows, pageSize);
  }

  /**
    With page size 0 on a non-empty table, starting without a token, every
    call returns no rows and a token: the calls never end.
  */
  lemma NeverEnds(rows: int, fuel: nat)
    requires rows > 0
    ensures Traverse(Client(Table(rows), Query(rows), 0), None, fuel) == Success(Run([], fuel + 1, false))
  {
    ClientFollows(Table(rows), Query(rows), 0);
    TraverseWalk(Client(Table(rows), Query(rows), 0), Resolver(Query(rows), 0),
                 Table(rows), 0, None, Cursor(rows, 0, 0, 0), fuel);
    NoProgress(rows, 0, fuel);
  }

  // ---------------------------------------------------------------- the repository's scenario

  /**
    A traversal that changes its page size from p to q after the first
    page: the second call still fetches p rows, the size stored in the
    token, and only the token it mints carries q.
  */
  lemma ResizeAfterFirstPage(rows: nat, p: int, q: int)
    requires 0 < p && 2 * p < rows
    ensures var first := Paginate(Table(rows), Query(rows), None, p);
            && first.Success?
            && first.value.items == Range(0, p)
            && first.value.next_page_token.Some?
            && DecodeToken(first.value.next_page_token.value) == Success(Cursor(rows, p, p, 1))
            && var second := Paginate(Table(rows), Query(rows), first.value.next_page_token, q);
               && second.Success?
               && second.value.items == Range(p, 2 * p)
               && second.value.next_page_token.Some?
               && DecodeToken(second.value.next_page_token.value) == Success(Cursor(rows, q, 2 * p, 2))
  {
    var st := PageToken(rows, p, rows, 0, 0, 0);
    var first := Paginate(Table(rows), Query(rows), None, p).value;
    assert Fetched(Table(rows), st, p, first);
    FullWindow(rows, p, 0);
    assert first.items == Range(0, p);
    assert NextState(st, p, p) == Cursor(rows, p, p, 1);
    var token := first.next_page_token.value;
    MintedTokenLength(token);
    assert first.next_page_token == Some(token);
    var st' := Cursor(rows, p, p, 1);
    var second := Paginate(Table(rows), Query(rows), Some(token), q).value;
    assert Fetched(Table(rows), st', q, second);
    FullWindow(rows, p, p);
    assert p + p == 2 * p;
    assert second.items == Range(p, 2 * p);
    assert NextState(st', p, q) == Cursor(rows, q, 2 * p, 2);
  }

  /**
    The repository's own scenario: a table of 100 rows paged 10 at a time,
    whose second call asks for 30 rows and gets rows 10 .. 19.
  */
  lemma ResizeMidTraversal()
    ensures var first := Paginate(Table(100), Query(100), None, 10);
            && first.Success?
            && first.value.items == Range(0, 10)
            && first.value.next_page_token.Some?
            && DecodeToken(first.value.next_page_token.value) == Success(PageToken(100, 10, 90, 1, 10, 10))
            && var second := Paginate(Table(100), Query(100), first.value.next_page_token, 30);
               && second.Success?
               && second.value.items == Range(10, 20)
               && second.value.next_page_token.Some?
               && DecodeToken(second.value.next_page_token.value) == Success(PageToken(100, 30, 80, 2, 20, 20))
  {
    ResizeAfterFirstPage(100, 10, 30);
    assert Cursor(100, 10, 10, 1) == PageToken(100, 10, 90, 1, 10, 10);
    assert Cursor(100, 30, 20, 2) == PageToken(100, 30, 80, 2, 20, 20);
  }
}
