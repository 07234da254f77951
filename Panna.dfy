/**
  The class-based copy of the pagination step in panna.py. It declares its
  own PageToken record, field for field the one of src/sqlpage/models.py,
  and returns the fetched rows and the next token as a pair instead of a
  PageData record. As in pypagination.py, only a missing token starts a
  traversal.
*/
module Panna {
  import opened Wrappers
  import opened Models
  import opened TokenCodec
  import opened Pager
  import SqlPage

  class Pagination<T> {
    const session: Session<T>
    const query: Query
    const pageSize: int

    /** `__init__`. */
    constructor(session: Session<T>, query: Query, pageSize: int)
      ensures this.session == session && this.query == query && this.pageSize == pageSize
    {
      this.session := session;
      this.query := query;
      this.pageSize := pageSize;
    }

    /** `make_first_token`: the token of a traversal of this query that has fetched nothing yet. */
    method MakeFirstToken() returns (token: string)
      ensures DecodeToken(token) == Success(PageToken(query.count, pageSize, query.count, 0, 0, 0))
    {
      token := Pager.MakeFirstToken(query.count, pageSize);
    }

    /**
      `paginate`: the rows of the window the state names and the next token,
      where the state is the re-counted first token when no token is given
      and the decoded token otherwise.
    */
    method Paginate(token: Option<string>) returns (r: Result<(seq<T>, Option<string>), DecodeError>)
      ensures token.None? ==>
                r.Success? && Fetched(session, PageToken(query.count, pageSize, query.count, 0, 0, 0), pageSize,
                                      PageData(r.value.0, r.value.1))
      ensures token.Some? && DecodeToken(token.value).Failure? ==> r == Failure(DecodeToken(token.value).error)
      ensures token.Some? && DecodeToken(token.value).Success? ==>
                r.Success? && Fetched(session, DecodeToken(token.value).value, pageSize, PageData(r.value.0, r.value.1))
      ensures token == Some("") ==> r == Failure(BadJson)
      ensures token != Some("") ==>
                var page := SqlPage.Paginate(session, query, token, pageSize);
                && (r.Success? <==> page.Success?)
                && (r.Success? ==> r.value == (page.value.items, page.value.next_page_token))
                && (r.Failure? ==> r.error == page.error)
    {
      var pageToken: PageToken;
      if token.None? {
        var first := MakeFirstToken();
        pageToken := DecodeToken(first).value;
        pageToken := pageToken.(total_count := query.count);
      } else {
        var decoded := DecodeToken(token.value);
        if decoded.Failure? {
          EmptyTokenRejected();
          return Failure(decoded.error);
        }
        pageToken := decoded.value;
      }
      var page := Step(session, pageToken, pageSize);
      r := Success((page.items, page.next_page_token));
    }
  }

  /**
    A traversal that ends: on a table of 5 rows with page size 10, the
    first call returns all 5 rows and no next token.
  */
  method CheckLastPage() returns (rows: seq<int>, next: Option<string>)
    ensures rows == Range(0, 5) && next.None?
  {
    var window := Table(5).exec(Window(10, 0));
    assert window == Range(0, 5);
    var pager := new Pagination(Table(5), Query(5), 10);
    var r := pager.Paginate(None);
    assert r.value.0 == window;
    rows, next := r.value.0, r.value.1;
  }
}
