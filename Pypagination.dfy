/**
  The class-based copy of the pagination step in pypagination.py. A
  PyPagination object holds a session, a query and a page size that its
  constructor sets and nothing changes afterwards. Only a missing token
  starts a traversal: an empty token string is decoded like any other.
*/
module Pypagination {
  import opened Wrappers
  import opened Models
  import opened TokenCodec
  import opened Pager
  import SqlPage

  class PyPagination<T> {
    const session: Session<T>
    const query: Query
    const pageSize: int

    /** `__init__`. */
    constructor(session: Session<T>, query: Query, pageSize: int)
      ensures this.session == session && this.query == query && this.pageSize == pageSize
    {
      this.session := session;
      this.query := query;
      this.pageSize := pageSize;
    }

    /** `make_first_token`: the token of a traversal of this query that has fetched nothing yet. */
    method MakeFirstToken() returns (token: string)
      ensures DecodeToken(token) == Success(PageToken(query.count, pageSize, query.count, 0, 0, 0))
    {
      token := Pager.MakeFirstToken(query.count, pageSize);
    }

    /**
      `paginate`. A missing token starts from the first token, re-counted;
      any other token is decoded, and a token that does not decode fails
      the call. From the state so obtained the step fetches the window the
      state names and mints the next token with this object's page size.
    */
    method Paginate(token: Option<string>) returns (r: Result<PageData<T>, DecodeError>)
      ensures token.None? ==>
                r.Success? && Fetched(session, PageToken(query.count, pageSize, query.count, 0, 0, 0), pageSize, r.value)
      ensures token.Some? && DecodeToken(token.value).Failure? ==> r == Failure(DecodeToken(token.value).error)
      ensures token.Some? && DecodeToken(token.value).Success? ==>
                r.Success? && Fetched(session, DecodeToken(token.value).value, pageSize, r.value)
      ensures token == Some("") ==> r == Failure(BadJson)
      ensures token != Some("") ==> r == SqlPage.Paginate(session, query, token, pageSize)
    {
      var pageToken: PageToken;
      if token.None? {
        var first := MakeFirstToken();
        pageToken := DecodeToken(first).value;
        pageToken := pageToken.(total_count := query.count);
      } else {
        var decoded := DecodeToken(token.value);
        if decoded.Failure? {
          EmptyTokenRejected();
          return Failure(decoded.error);
        }
        pageToken := decoded.value;
      }
      r := Success(Step(session, pageToken, pageSize));
    }
  }

  /**
    The repository's check: on a table of 100 rows, a first call with page
    size 10 returns 10 rows and a next token.
  */
  method CheckPagination() returns (result: PageData<int>)
    ensures |result.items| == 10 && result.next_page_token.Some?
  {
    var pager := new PyPagination(Table(100), Query(100), 10);
    var r := pager.Paginate(None);
    FullWindow(100, 10, 0);
    result := r.value;
  }
}
