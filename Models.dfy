/** The records of src/sqlpage/models.py. */
module Models {
  import opened Wrappers

  /**
    Traversal progress carried inside a page token. All six fields are
    required and unconstrained integers: zero and negative values, a
    non-positive page size included, are accepted as they are.
  */
  datatype PageToken = PageToken(
    total_count: int,
    page_size: int,
    remaining: int,
    page_num: int,
    offset: int,
    elements_fetched: int)

  /** One page of results and the token that resumes after it, if any. */
  datatype PageData<T> = PageData(items: seq<T>, next_page_token: Option<string>)

  /** The field names, in declaration order. */
  const FieldNames: seq<string> :=
    ["total_count", "page_size", "remaining", "page_num", "offset", "elements_fetched"]

  predicate IsFieldName(k: string) {
    k == "total_count" || k == "page_size" || k == "remaining"
    || k == "page_num" || k == "offset" || k == "elements_fetched"
  }

  /** Every field of PageToken is bound. */
  predicate HasAllFields(ps: seq<(string, int)>) {
    && Lookup(ps, "total_count").Some?
    && Lookup(ps, "page_size").Some?
    && Lookup(ps, "remaining").Some?
    && Lookup(ps, "page_num").Some?
    && Lookup(ps, "offset").Some?
    && Lookup(ps, "elements_fetched").Some?
  }

  /** `page_token.dict()`: the fields as name/value pairs, in declaration order. */
  function Fields(t: PageToken): (ps: seq<(string, int)>)
    ensures |ps| == |FieldNames|
    ensures forall i :: 0 <= i < |ps| ==> ps[i].0 == FieldNames[i]
  {
    [ ("total_count", t.total_count),
      ("page_size", t.page_size),
      ("remaining", t.remaining),
      ("page_num", t.page_num),
      ("offset", t.offset),
      ("elements_fetched", t.elements_fetched) ]
  }

  /** The value bound to `key`; a later binding overrides an earlier one, as in a Python dict. */
  function Lookup(ps: seq<(string, int)>, key: string): (r: Option<int>)
    ensures r.Some? <==> exists i :: 0 <= i < |ps| && ps[i].0 == key
    ensures r.Some? ==> exists i :: 0 <= i < |ps| && ps[i] == (key, r.value) &&
                          forall j :: i < j < |ps| ==> ps[j].0 != key
    decreases |ps|
  {
    if ps == [] then None
    else if ps[|ps| - 1].0 == key then Some(ps[|ps| - 1].1)
    else Lookup(ps[..|ps| - 1], key)
  }

  /** `PageToken(**kwargs)`: every field must be present; other keys are ignored. */
  function FromFields(ps: seq<(string, int)>): (r: Result<PageToken, string>)
    ensures r.Success? <==> HasAllFields(ps)
    ensures r.Failure? ==> IsFieldName(r.error) && Lookup(ps, r.error).None?
    ensures r.Success? ==>
              r.value == PageToken(Lookup(ps, "total_count").value, Lookup(ps, "page_size").value,
                                   Lookup(ps, "remaining").value, Lookup(ps, "page_num").value,
                                   Lookup(ps, "offset").value, Lookup(ps, "elements_fetched").value)
  {
    var total_count :- Lookup(ps, "total_count").ToResult("total_count");
    var page_size :- Lookup(ps, "page_size").ToResult("page_size");
    var remaining :- Lookup(ps, "remaining").ToResult("remaining");
    var page_num :- Lookup(ps, "page_num").ToResult("page_num");
    var offset :- Lookup(ps, "offset").ToResult("offset");
    var elements_fetched :- Lookup(ps, "elements_fetched").ToResult("elements_fetched");
    Success(PageToken(total_count, page_size, remaining, page_num, offset, elements_fetched))
  }

  /** With pairwise distinct keys, a key finds the value paired with it. */
  lemma LookupDistinct(ps: seq<(string, int)>, i: int)
    requires 0 <= i < |ps|
    requires forall j, k :: 0 <= j < k < |ps| ==> ps[j].0 != ps[k].0
    ensures Lookup(ps, ps[i].0) == Some(ps[i].1)
  {
  }

  /** Rebuilding a record from its own fields gives the record back. */
  lemma FromFieldsOfFields(t: PageToken)
    ensures FromFields(Fields(t)) == Success(t)
  {
    var ps := Fields(t);
    forall j, k | 0 <= j < k < |ps| ensures ps[j].0 != ps[k].0 {
      assert |ps[j].0| != |ps[k].0| || ps[j].0[0] != ps[k].0[0];
    }
    LookupDistinct(ps, 0);
    LookupDistinct(ps, 1);
    LookupDistinct(ps, 2);
    LookupDistinct(ps, 3);
    LookupDistinct(ps, 4);
    LookupDistinct(ps, 5);
  }
}
