# sqlpage — a Dafny model of the pagination step and its page token

sqlpage pages through the rows of a SQL query without keeping any state on
the server. Each call of `paginate` returns one page of rows, plus an opaque
*page token* that the client passes back to get the next page. The token
carries the traversal's progress: the total row count, the page size, the
rows remaining, the page number, the offset and the number of rows fetched
so far. It is written as `"b:"` + Base64(UTF-8(JSON(record))).

The repository holds three copies of the same step:

- the packaged free function in `src/sqlpage/sqlpage.py`;
- the class `PyPagination` in `pypagination.py`, which returns a `PageData` record;
- the class `Pagination` in `panna.py`, which returns a `(rows, token)` pair.

They differ only in how a missing token is detected and in the shape of the
result. This model writes the codec and the step once and puts a thin
wrapper over them for each copy.

Modules, one file each:

- `Wrappers`: `Option` and `Result`.
- `Models`: the `PageToken` and `PageData` records of `src/sqlpage/models.py`, and the keyword construction `PageToken(**kwargs)`.
- `Base64`: the encoding of section 4 of RFC 4648 (standard alphabet, `=` padding), with its round trip.
- `Json`: the JSON text (RFC 8259) of an object whose members are integers, as `json.dumps` writes it and `json.loads` reads it back, with its round trip.
- `TokenCodec`: `make_token` and `decode_token`. Decoding returns a `DecodeError` where the source raises an exception.
- `Pager`: the step that the three copies share.
  - `make_first_token`;
  - the fetch of one window;
  - the termination test;
  - the successor state;
  - an in-memory table used as a concrete data source.
- `Traversal`: a client loop that feeds each next token back into `paginate`, and the same loop on decoded states.
- `SqlPage`, `Pypagination`, `Panna`: the three entry points.

The database is reduced to two things:

- a `Query` whose `count()` is a fixed number;
- a `Session` that maps the statement `query.limit(l).offset(o)` to the rows it returns.

Both are parameters of the model.

What the code does at three points where a reader might expect otherwise:

- A continuation call fetches `page_size` rows as stored in the token. The caller's page size is only written into the next token (`src/sqlpage/sqlpage.py:27` against `:41`). `SqlPage.ResizeMidTraversal` states the behaviour as written: asking for 30 rows on the second call of a 10-row traversal returns rows 10 to 19.
- `decode_token` drops the first two characters without looking at them. No `b:` tag is checked (`TokenCodec.PrefixNotChecked`).
- Negative field values and a non-positive page size are accepted as they are, by the records and by `paginate` alike. No argument check is made. With page size 0 on a non-empty table, every call returns no rows and a token for the same offset, so a client that follows the tokens never finishes (`SqlPage.NeverEnds`, `Traversal.NoProgress`).

## Model

| member | source | states |
|---|---|---|
| Models.Fields | src/sqlpage/models.py:13-19 | a token's fields are the six names in declaration order, which fixes the key order of the JSON payload |
| Models.Lookup | src/sqlpage/sqlpage.py:72-73 | a key is found iff some pair binds it, and the value found is the one of its last binding, as in a dict built by `json.loads` |
| Models.FromFields | src/sqlpage/models.py:13-19 | `PageToken(**kwargs)` succeeds iff all six fields are bound, and then each field holds the value bound to its name, whatever the key order and extra keys; a failure names a field that is missing |
| Models.FromFieldsOfFields | src/sqlpage/models.py:13-19 | rebuilding a record from its own fields gives the same record |
| Base64.Encode | src/sqlpage/sqlpage.py:66 | `b64encode` writes whole quanta of four characters, and writes nothing exactly for no bytes |
| Base64.Decode | src/sqlpage/sqlpage.py:71 | `b64decode` accepts only text of whole quanta, and n quanta give between 3n − 2 and 3n bytes |
| Base64.ValueOf | src/sqlpage/sqlpage.py:71 | a character has a value iff it is in the alphabet, and the value maps back to the character |
| Base64.EncodeShape | src/sqlpage/sqlpage.py:66 | the text of n bytes has length 4·⌈n/3⌉, uses only the alphabet and `=`, and has `=` only in its last two places |
| Base64.DecodeShape | src/sqlpage/sqlpage.py:71 | accepted text has a length that is a multiple of four and holds only alphabet and `=` characters |
| Base64.DecodeEncode | src/sqlpage/sqlpage.py:66-71 | decoding the encoding of any byte string gives the bytes back |
| Json.NatText | src/sqlpage/sqlpage.py:65 | `str(n)` for n ≥ 0: a non-empty string of digits, with no leading zero when n > 0 |
| Json.IntText | src/sqlpage/sqlpage.py:65 | `str(n)`: non-empty ASCII text that starts with `-` or a digit |
| Json.ObjectText | src/sqlpage/sqlpage.py:65 | the written object is enclosed in braces |
| Json.NatTextValue | src/sqlpage/sqlpage.py:65-72 | the digits written for n have the value n |
| Json.ParseIntText | src/sqlpage/sqlpage.py:65-72 | reading an integer back from its decimal text gives the integer, negatives included, and leaves the rest of the input alone |
| Json.ScanKeyText | src/sqlpage/sqlpage.py:65-72 | a key without quotes, backslashes or control characters reads back verbatim |
| Json.ParseMemberText | src/sqlpage/sqlpage.py:65-72 | a written `"key": value` member reads back as the same key and value |
| Json.ParseMembersText | src/sqlpage/sqlpage.py:65-72 | a written member list reads back as the same members, in order |
| Json.ParseObjectText | src/sqlpage/sqlpage.py:65-72 | `json.loads(json.dumps(d)) == d` for every integer-valued object with plain keys |
| Json.ObjectTextAscii | src/sqlpage/sqlpage.py:65-66 | with ASCII keys the writer emits ASCII |
| Json.ParseObject | src/sqlpage/sqlpage.py:72 | `json.loads` rejects the empty text, and every key it returns is plain (no quote, backslash or control character) |
| Json.ParsedKeysPlain | src/sqlpage/sqlpage.py:72 | every key the member-list reader returns is plain |
| TokenCodec.Utf8Encode | src/sqlpage/sqlpage.py:66 | `str.encode("utf-8")` on ASCII text gives one byte per character, each byte the character's code |
| TokenCodec.Utf8Decode | src/sqlpage/sqlpage.py:72 | the bytes decode iff every byte is below 128, and then each byte becomes the character with its code |
| TokenCodec.Utf8RoundTrip | src/sqlpage/sqlpage.py:66-72 | decoding the bytes of ASCII text gives the text back |
| TokenCodec.Payload | src/sqlpage/sqlpage.py:65 | `json.dumps(page_token.dict())` is ASCII text, so it encodes to UTF-8 one byte per character |
| TokenCodec.MakeToken | src/sqlpage/sqlpage.py:64-67 | a minted token starts with `b:`; the rest is 4·⌈n/3⌉ characters of the Base64 alphabet or `=`, for an n-byte payload |
| TokenCodec.TokenText | src/sqlpage/sqlpage.py:66-67 | for any ASCII text of n characters, `"b:"` followed by its Base64 text has 2 + 4·⌈n/3⌉ characters, all after the prefix from the alphabet or `=` |
| TokenCodec.DropPrefix | src/sqlpage/sqlpage.py:70 | `token[2:]`: the token without its first two characters, and the empty string for a token of at most two characters, as Python slicing gives |
| TokenCodec.DecodeToken | src/sqlpage/sqlpage.py:69-73 | a missing-field failure names one of the six fields |
| TokenCodec.RoundTrip | src/sqlpage/sqlpage.py:64-73 | `decode_token(make_token(t)) == t` for every record, negative fields included |
| TokenCodec.PrefixNotChecked | src/sqlpage/sqlpage.py:70 | any two characters in place of `b:` decode to the same record |
| TokenCodec.EmptyTokenRejected | src/sqlpage/sqlpage.py:69-73 | the empty token decodes to empty text, which fails as bad JSON |
| TokenCodec.MissingFieldRejected | src/sqlpage/models.py:13-19 | a payload that lacks one of the six fields fails, naming a field the payload lacks |
| Pager.MakeFirstToken | src/sqlpage/sqlpage.py:51-61 | the first token decodes to total = remaining = count, the caller's page size, and page_num, offset and elements_fetched all 0 |
| Pager.FreshState | src/sqlpage/sqlpage.py:21-23 | on a fresh call `remaining` comes from the first count and `total_count` from the second |
| Pager.NextState | src/sqlpage/sqlpage.py:38-46 | the successor keeps total_count, takes the caller's page size, has remaining = total_count − elements_fetched, page_num one higher, and offset and elements_fetched both advanced by the rows fetched |
| Pager.Step | src/sqlpage/sqlpage.py:27-49 | the rows are the window of the state's page_size at its offset; a next token exists iff elements_fetched + rows < total_count; it decodes to the successor state with the caller's page size |
| Pager.MintedTokenInvariant | src/sqlpage/sqlpage.py:37-47 | a minted token keeps total_count, has page_num + 1, offset and elements_fetched advanced by the rows fetched, remaining = total_count − elements_fetched > 0, and the caller's page size |
| Pager.PageSizeDefersToNextToken | src/sqlpage/sqlpage.py:27-41 | two calls that differ only in the caller's page size fetch the same rows and agree on whether a next token exists |
| Traversal.Traverse | src/sqlpage/sqlpage.py:10-49 | a client loop that succeeds makes between 1 and fuel + 1 calls, and stops before the last page only when its calls run out |
| Traversal.NoProgress | src/sqlpage/sqlpage.py:27-47 | with page size 0 on a non-empty table, the walk returns no rows, spends every call it is given, and never ends |
| Traversal.TraverseWalk | src/sqlpage/sqlpage.py:21-49 | for any paginate that performs the step, feeding tokens back gives exactly the rows and calls of the walk on decoded states |
| Traversal.WalkCoverage | src/sqlpage/sqlpage.py:27-47 | from the state after k of T rows, the walk returns rows k..T−1 in order over ⌈(T−k)/P⌉ calls, and ends |
| Traversal.WalkFromStart | src/sqlpage/sqlpage.py:21-47 | from the first state, the walk returns all T rows in order over max(1, ⌈T/P⌉) calls, and ends |
| SqlPage.IsFresh | src/sqlpage/sqlpage.py:21 | `not token` holds exactly for a missing token and for the empty string |
| SqlPage.Paginate | src/sqlpage/sqlpage.py:10-49 | a missing or empty token takes the step from the first state; another token takes it from its decoded state, or fails with the decoding error |
| SqlPage.PageFrom | src/sqlpage/sqlpage.py:21-47 | a call from a token for state s returns the page of s, and its next token resolves to the successor of s |
| SqlPage.ClientFollows | src/sqlpage/sqlpage.py:21-49 | `paginate` with a fixed page size performs the step on every state its tokens resolve to |
| SqlPage.Coverage | src/sqlpage/sqlpage.py:21-49 | with no starting token, a constant page size P > 0 and a table of T rows, the calls end without a token after returning every row once, in order, over max(1, ⌈T/P⌉) calls |
| SqlPage.NeverEnds | src/sqlpage/sqlpage.py:21-49 | with no starting token, page size 0 and a non-empty table, every call succeeds with no rows and a next token, however many calls are made |
| SqlPage.ResizeAfterFirstPage | tests/testing.py:72-82 | with page size p and then q, the second call still returns p rows (p..2p−1); only its next token carries q |
| SqlPage.ResizeMidTraversal | tests/testing.py:61-82 | 100 rows, page size 10 then 30: the tokens are (100, 10, 90, 1, 10, 10) and (100, 30, 80, 2, 20, 20), and the second call returns rows 10..19 |
| Pypagination.PyPagination.constructor | pypagination.py:14-17 | the session, query and page size are set once; they are constants that `paginate` cannot change |
| Pypagination.PyPagination.MakeFirstToken | pypagination.py:19-29 | the first token decodes to total = remaining = count, the object's page size, and zeros elsewhere |
| Pypagination.PyPagination.Paginate | pypagination.py:32-61 | only a missing token starts fresh; `""` is decoded and fails as bad JSON; every other token gives what the free function gives |
| Pypagination.CheckPagination | testing.py:56-62 | on 100 rows with page size 10, the first call returns 10 rows and a next token |
| Panna.Pagination.constructor | panna.py:26-29 | the session, query and page size are set once; they are constants that `paginate` cannot change |
| Panna.Pagination.MakeFirstToken | panna.py:31-41 | the first token decodes to total = remaining = count, the object's page size, and zeros elsewhere |
| Panna.Pagination.Paginate | panna.py:44-73 | returns the pair (rows, next token) of the step; only a missing token starts fresh; `""` fails as bad JSON; every other token gives the free function's rows and token |
| Panna.CheckLastPage | panna.py:57-73 | on 5 rows with page size 10, the first call returns all 5 rows and no next token |

## Left out

- Database access: `query.count()` and `session.exec(statement).all()` are not modelled. They become a `Query` holding a fixed count and a `Session` function from a window to rows. A count that changes between the two calls of a fresh `paginate` is covered by `Pager.FreshState` alone.
- `PageData.total_items` is left out of the record. `models.py` declares it, and `next_page_token` as a required string, but `paginate` builds the record from rows and an optional token only. pydantic's validation error on that record is not modelled.
- `panna.py` declares its own `PageToken` and `PageData` records. Its `PageToken` is the same field for field, so the model uses `Models.PageToken`. Its `PageData` is unused by its `paginate`.
- pydantic's lax coercion is not modelled. Strings or floats given for integer fields fail as bad JSON here. Extra keys are ignored, as pydantic does by default.
- `json.loads` beyond the flat integer object is not modelled: string escapes, nested values, floats, exponents, `true`/`false`/`null`. Such payloads fail as bad JSON.
- `base64.b64decode` is modelled strictly, following section 4 of RFC 4648. As in CPython, the unused low bits of a padded final quantum are not checked. CPython's default decoder is more lenient in ways the model does not follow; in each case the model returns `BadBase64`:
  - it silently discards characters outside the alphabet;
  - it stops at the first completed padding and ignores the rest (`"QQ==QUJD"` gives `b"A"`);
  - it skips `=` at the start of a quantum (`"QUJD=="` gives `b"ABC"`);
  - it decodes `"===="` to `b""`, after which `json.loads("")` fails, so that token still fails there, as bad JSON rather than as bad Base64.
- TokenCodec.Utf8Encode: encodes ASCII text only, one byte per character. The payload is always ASCII (`TokenCodec.Payload`).
- TokenCodec.Utf8Decode: rejects any byte of 128 or above. Python decodes well-formed multi-byte UTF-8, so a hand-made payload with, say, a non-ASCII extra key can decode there, while here it fails as `NotAscii`. Tokens that `make_token` mints are ASCII and unaffected.
- TokenCodec.RoundTrip: holds for integers of any size. CPython 3.11 and later refuses to convert an integer of more than 4300 decimal digits to or from text (`sys.int_info.str_digits_check_threshold`), so there `json.dumps` in `make_token` and `json.loads` in `decode_token` raise `ValueError` for such a field. The model's `MakeToken` and `DecodeToken` have no such limit.
- `constants.Constants.DEFAULT_PAGE_SIZE` and the top-level `models` module that `pypagination.py` imports are not part of this model. The page size is always an explicit argument.
- Default arguments (`token=None`, `page_size=10`) are not modelled; every argument is passed explicitly.
- Traversal.Traverse: bounded by a number of further calls (`fuel`), so a client that never stops is not modelled. `SqlPage.Coverage` gives it enough calls to finish; `SqlPage.NeverEnds` shows a client with page size 0 needing more calls than any bound.
- The test harnesses' database creation, ORM declarations and printing are left out. Their scenarios are stated as `Pypagination.CheckPagination` and `SqlPage.ResizeMidTraversal`.
