# Books catalog and client: query semantics

A model of two small Flask services. The catalog service (`lab10/app.py`) keeps five book
records in a fixed order and answers three queries: all books, one book by id (first match,
404 when absent) and the books of a genre (compared after lower-casing both sides, 404 when
none match). The client service (`lab10_second/app.py`) forwards a genre query to the catalog
and maps the answer to 400, 200 with a count, 404, 500 with the upstream status, or 503 with
the error text. It also fetches all books and returns the one with the greatest
publication year. Like Python's `max`, it keeps the first record of that year.

Files:

- `wrappers.dfy`: `Option`, the absent query parameter and the absent record.
- `catalog.dfy`: module `Catalog`: the `Book` record, the stored data, ASCII lower-casing, the
  three catalog queries and their properties.
- `catalog_examples.dfy`: module `CatalogExamples`: genre lookups with the stored data.
- `client.dfy`: module `Client`: the upstream result as an input datatype, the two client
  routes as outcome functions, the newest-book reduction, and the client composed with the
  catalog.

The catalog's answers are `Option` values: `None` is the 404 answer and `Some` the 200 answer.
The client's answers are `Client.Outcome` values, and `Client.StatusCode` gives each one's
HTTP status. The outbound HTTP call is an input. For the genre route it is a function
`string -> Upstream` from the requested genre to what the call produced. A route that never
applies that function has not consulted the catalog. For the newest-book route, which always
asks for `/books`, it is a single `Upstream` value.

Three behaviours of the code worth knowing:

- On the client, an empty genre match is answered with 404 (`lab10_second/app.py:44-47`), not with a
  success-class "no books" answer.
- The newest-book route treats every status other than 200 as a failure, including other 2xx
  codes (`lab10_second/app.py:67-80`).
- An empty list on the newest-book route makes `max` raise `ValueError`. `ValueError` is not a
  `RequestException`, so the handler does not catch it and the framework answers with a generic 500.
  The model has an explicit outcome `Unhandled` with status 500 for this case.

## Model

| member | source | states |
|---|---|---|
| `Catalog.Books` | lab10/app.py:7-43 | the stored data: five records with ids 1 to 5 in that order, each with a non-empty title, author and genre |
| `Catalog.LowerChar` | lab10/app.py:73 | `str.lower` on one character: an upper-case ASCII letter becomes its lower-case letter, every other character is kept, and no upper-case letter remains |
| `Catalog.Lower` | lab10/app.py:73 | `str.lower` on a text: same length, no upper-case ASCII letter left, each upper-case letter replaced by its lower-case letter and every other character kept in place |
| `Catalog.SameGenre` | lab10/app.py:73 | the genre comparison: equal texts match; matching texts have the same length (no substring match); texts match exactly when they agree character by character after lower-casing |
| `Catalog.GetBooks` | lab10/app.py:57-60 | the all-books answer is the stored sequence itself: five records, in stored order, with ids 1 to 5 |
| `Catalog.BooksIdsDistinct` | lab10/app.py:7-43 | no two stored records share an id |
| `Catalog.FirstWithId` | lab10/app.py:65 | a found record carries the requested id and no earlier record does; nothing is found exactly when no record carries the id |
| `Catalog.FirstWithIdIsLeastIndex` | lab10/app.py:65 | the record found is the one at the least position carrying the id |
| `Catalog.GetBook` | lab10/app.py:62-68 | the by-id route finds a stored record with the requested id, and answers 404 exactly when no stored record has it |
| `Catalog.GetBookFixedData` | lab10/app.py:7-43 | with the stored data, ids 1 to 5 find the record at position id-1 and every other id is not found |
| `Catalog.GetBookMissing` | lab10/app.py:65-67 | ids 99 and 0 are not found |
| `Catalog.LowerIdempotent` | lab10/app.py:73 | lower-casing a lower-cased text changes nothing |
| `Catalog.GenreMatches` | lab10/app.py:73 | the filter is no longer than the catalog; every record kept is a catalog record whose genre matches ignoring case; every matching catalog record is kept |
| `Catalog.GenreMatchesIsSubsequence` | lab10/app.py:73 | the filtered list is an order-preserving subsequence of the catalog |
| `Catalog.GenreMatchesMultiplicity` | lab10/app.py:73 | each matching record appears as often as in the catalog, and each other record not at all |
| `Catalog.GenreMatchesIgnoresCase` | lab10/app.py:73 | queries with the same lower-case form give the same records |
| `Catalog.GenreLookup` | lab10/app.py:73-75 | the answer is not-found exactly when no record matches, which is exactly when the filtered list is empty; otherwise it is the non-empty filtered list |
| `Catalog.GetBooksByGenre` | lab10/app.py:70-76 | the genre route over the stored records: 404 exactly when no stored genre matches, otherwise the non-empty filtered list |
| `CatalogExamples.GenreSubstringNotFound` | lab10/app.py:20-41 | "Dystopian" alone matches no stored genre, so matching is not by substring |
| `CatalogExamples.GenreExactFound` | lab10/app.py:15-21 | "dystopian fiction" matches exactly the record "1984" |
| `CatalogExamples.GenreCaseInsensitiveFound` | lab10/app.py:73-76 | the lower-case and the upper-case spellings both find exactly "1984" |
| `Client.StatusCode` | lab10_second/app.py:27-86 | each outcome is sent with 200, 400, 404, 500 or 503: 400 exactly for a missing genre, 200 exactly for the two success bodies, 404 exactly for no books of the genre, 500 exactly for a failed upstream status or the uncaught error, 503 exactly for a transport failure |
| `Client.HasGenre` | lab10_second/app.py:25-27 | Python's `if not genre`: the parameter is usable exactly when it is present and non-empty; absent and empty are both unusable |
| `Client.GenreOutcome` | lab10_second/app.py:21-58 | 400 exactly when the parameter is missing or empty; 200 exactly on an upstream 200, with the upstream records unchanged and `count` their number; 404 exactly on an upstream 404; 500 carrying the upstream status exactly on any other status; 503 carrying the error text exactly on a transport failure |
| `Client.MissingGenreSkipsUpstream` | lab10_second/app.py:25-31 | without a usable genre the answer is 400 whatever the catalog would answer |
| `Client.GenreOutcomeAsksOnlyForGenre` | lab10_second/app.py:35 | the answer depends only on the catalog's answer for the requested genre |
| `Client.NewestIndex` | lab10_second/app.py:70 | on a non-empty list: a position whose year is at least every record's year, with every earlier record strictly older (first maximum wins) |
| `Client.NewestIndexUnique` | lab10_second/app.py:70 | those two properties determine the position uniquely |
| `Client.NewestOutcome` | lab10_second/app.py:60-86 | 200 exactly on an upstream 200 with records, naming a member of greatest year that no earlier record equals in year; 500 on an empty 200 list; 500 carrying the status exactly on any non-200 status; 503 carrying the error text exactly on a transport failure |
| `Client.CatalogBooksResponse` | lab10/app.py:57-60 | the catalog's all-books answer reaches the client as 200 with the stored records |
| `Client.CatalogGenreResponse` | lab10/app.py:70-76 | the catalog's genre answer reaches the client as 200 with the filtered records when some match, else 404 with none |
| `Client.GenreAgainstCatalog` | lab10_second/app.py:37-47 | against the catalog the genre route answers 200 with the filtered records and their count, or 404 when none match, never 500 or 503 |
| `Client.NewestAgainstCatalog` | lab10_second/app.py:63-75 | against the stored records the newest book is "The Hunger Games" (2008) |

## Left out

- HTTP routing, JSON encoding (`jsonify`), `abort` and process start-up (`app.run`). This is
  framework wiring.
- The root information routes of both services. They return constant descriptions.
- The outbound `requests.get` calls and the catalog's base URL. The call's result is an input
  (`Client.Upstream`). URL encoding of the genre in the request path is not modelled.
- Decoding of the response body (`response.json()['books']`), and the error if that body lacks a
  `books` list. The upstream records arrive as a `seq<Book>`.
- Message strings in the JSON bodies. Outcomes carry only the status code and the data.
- Lower-casing is Python's `str.lower` on ASCII letters only. Other Unicode case mappings
  (for example of accented letters) are not modelled.
- The year-range and author filters and any HTML search form. They are not in
  `lab10/app.py` or `lab10_second/app.py`, so those endpoints are not part of this model.
