/**
 * The client service (lab10_second/app.py): it forwards queries to the
 * catalog service and reshapes the answers.  The outbound HTTP call is not
 * modelled; its result is an input, `Upstream`, already decoded into records.
 */
module Client {

  import opened Wrappers
  import opened Catalog

  /** What the outbound call produced: a transport-level failure, or a status and its records. */
  datatype Upstream =
    | TransportFailure(detail: string)
    | Response(status: int, books: seq<Book>)

  /** What a route of the client answers, one constructor per kind of JSON body. */
  datatype Outcome =
    | MissingGenre                              // 400: no usable `genre` parameter
    | GenreBooks(count: int, books: seq<Book>)  // 200: the genre's records and their number
    | NoBooksForGenre                           // 404: the catalog found no such genre
    | NewestBook(book: Book)                    // 200: the most recently published record
    | UpstreamFailed(upstreamStatus: int)       // 500: the catalog answered with another status
    | Unhandled                                 // 500: `max` raised on an empty list
    | Unavailable(detail: string)               // 503: the call itself failed

  /** The HTTP status code each outcome is sent with. */
  function StatusCode(o: Outcome): (code: int)
    ensures code in {200, 400, 404, 500, 503}
    ensures code == 200 <==> o.GenreBooks? || o.NewestBook?
    ensures code == 500 <==> o.UpstreamFailed? || o.Unhandled?
    ensures code == 400 <==> o.MissingGenre?
    ensures code == 404 <==> o.NoBooksForGenre?
    ensures code == 503 <==> o.Unavailable?
  {
    match o
    case MissingGenre => 400
    case GenreBooks(_, _) => 200
    case NoBooksForGenre => 404
    case NewestBook(_) => 200
    case UpstreamFailed(_) => 500
    case Unhandled => 500
    case Unavailable(_) => 503
  }

  // ---------------------------------------------------------------------
  // /books/genre
  // ---------------------------------------------------------------------

  /** Python's `if not genre`: an absent parameter and the empty string are both unusable. */
  predicate HasGenre(genre: Option<string>): (usable: bool)
    ensures usable <==> genre.Some? && |genre.value| > 0
    ensures genre == None || genre == Some("") ==> !usable
  {
    genre.Some? && genre.value != ""
  }

  /**
   * The genre route.  `fetch(g)` is what the catalog's /genre/<g> call
   * produces; it is only consulted once the parameter is usable.
   */
  function GenreOutcome(genre: Option<string>, fetch: string -> Upstream): (o: Outcome)
    ensures !HasGenre(genre) <==> o == MissingGenre
    ensures o.GenreBooks? <==>
      HasGenre(genre) && fetch(genre.value).Response? && fetch(genre.value).status == 200
    ensures o.GenreBooks? ==>
      o.books == fetch(genre.value).books && o.count == |o.books|
    ensures o == NoBooksForGenre <==>
      HasGenre(genre) && fetch(genre.value).Response? && fetch(genre.value).status == 404
    ensures o.UpstreamFailed? <==>
      HasGenre(genre) && fetch(genre.value).Response? && fetch(genre.value).status !in {200, 404}
    ensures o.UpstreamFailed? ==> o.upstreamStatus == fetch(genre.value).status
    ensures o.Unavailable? <==> HasGenre(genre) && fetch(genre.value).TransportFailure?
    ensures o.Unavailable? ==> o.detail == fetch(genre.value).detail
    ensures !o.NewestBook? && !o.Unhandled?
  {
    if !HasGenre(genre) then MissingGenre
    else
      match fetch(genre.value)
      case Response(status, books) =>
        if status == 200 then GenreBooks(|books|, books)
        else if status == 404 then NoBooksForGenre
        else UpstreamFailed(status)
      case TransportFailure(detail) => Unavailable(detail)
  }

  /** A missing or empty parameter is answered with 400 whatever the catalog would say. */
  lemma MissingGenreSkipsUpstream(genre: Option<string>, fetch1: string -> Upstream, fetch2: string -> Upstream)
    requires !HasGenre(genre)
    ensures GenreOutcome(genre, fetch1) == GenreOutcome(genre, fetch2)
    ensures StatusCode(GenreOutcome(genre, fetch1)) == 400
  {
  }

  /** Only the catalog's answer for the requested genre matters. */
  lemma GenreOutcomeAsksOnlyForGenre(genre: Option<string>, fetch1: string -> Upstream, fetch2: string -> Upstream)
    requires HasGenre(genre) && fetch1(genre.value) == fetch2(genre.value)
    ensures GenreOutcome(genre, fetch1) == GenreOutcome(genre, fetch2)
  {
  }

  // ---------------------------------------------------------------------
  // /newest-book: Python's max(books, key=publication_year)
  // ---------------------------------------------------------------------

  /**
   * The position `max` settles on.  It scans from the left and replaces its
   * candidate only by a strictly later year, so the first record of the
   * greatest year wins.
   */
  function NewestIndex(books: seq<Book>): (k: nat)
    requires books != []
    ensures k < |books|
    ensures forall j :: 0 <= j < |books| ==> books[j].publicationYear <= books[k].publicationYear
    ensures forall j :: 0 <= j < k ==> books[j].publicationYear < books[k].publicationYear
  {
    if |books| == 1 then 0
    else
      var best := NewestIndex(books[..|books| - 1]);
      assert forall j :: 0 <= j < |books| - 1 ==> books[..|books| - 1][j] == books[j];
      if books[|books| - 1].publicationYear > books[best].publicationYear then |books| - 1 else best
  }

  /** The two properties of NewestIndex single out one position. */
  lemma NewestIndexUnique(books: seq<Book>, k: nat)
    requires k < |books|
    requires forall j :: 0 <= j < |books| ==> books[j].publicationYear <= books[k].publicationYear
    requires forall j :: 0 <= j < k ==> books[j].publicationYear < books[k].publicationYear
    ensures NewestIndex(books) == k
  {
  }

  /** The newest-book route.  `fetch` is what the catalog's /books call produces. */
  function NewestOutcome(fetch: Upstream): (o: Outcome)
    ensures o.NewestBook? <==> fetch.Response? && fetch.status == 200 && fetch.books != []
    ensures o.NewestBook? ==>
      o.book in fetch.books &&
      (forall b :: b in fetch.books ==> b.publicationYear <= o.book.publicationYear) &&
      exists k :: 0 <= k < |fetch.books| && fetch.books[k] == o.book &&
        forall j :: 0 <= j < k ==> fetch.books[j].publicationYear < o.book.publicationYear
    ensures o == Unhandled <==> fetch.Response? && fetch.status == 200 && fetch.books == []
    ensures o.UpstreamFailed? <==> fetch.Response? && fetch.status != 200
    ensures o.UpstreamFailed? ==> o.upstreamStatus == fetch.status
    ensures o.Unavailable? <==> fetch.TransportFailure?
    ensures o.Unavailable? ==> o.detail == fetch.detail
    ensures !o.GenreBooks? && o != MissingGenre && o != NoBooksForGenre
  {
    match fetch
    case Response(status, books) =>
      if status == 200 then
        if books == [] then Unhandled
        else
          var k := NewestIndex(books);
          assert books[k] in books;
          NewestBook(books[k])
      else UpstreamFailed(status)
    case TransportFailure(detail) => Unavailable(detail)
  }

  // ---------------------------------------------------------------------
  // The client against the catalog service of lab10/app.py
  // ---------------------------------------------------------------------

  /** The catalog's /books answer as the client receives it. */
  function CatalogBooksResponse(): (u: Upstream)
    ensures u == Response(200, Books())
  {
    Response(200, GetBooks())
  }

  /** The catalog's /genre/<genre> answer as the client receives it: 404 carries no records. */
  function CatalogGenreResponse(genre: string): (u: Upstream)
    ensures u.Response? && u.status in {200, 404}
    ensures u.status == 200 <==> GenreMatches(Books(), genre) != []
    ensures u.books == GenreMatches(Books(), genre)
  {
    match GetBooksByGenre(genre)
    case Some(books) => Response(200, books)
    case None =>
      assert forall b :: b in Books() ==> !SameGenre(b.genre, genre);
      assert forall b :: b !in GenreMatches(Books(), genre);
      Response(404, [])
  }

  /** Against the catalog service the genre route never answers 500 or 503. */
  lemma GenreAgainstCatalog(genre: Option<string>)
    requires HasGenre(genre)
    ensures var matches := GenreMatches(Books(), genre.value);
      GenreOutcome(genre, CatalogGenreResponse) ==
        if matches == [] then NoBooksForGenre else GenreBooks(|matches|, matches)
  {
  }

  /** Against the stored records the newest book is "The Hunger Games" (2008). */
  lemma NewestAgainstCatalog()
    ensures NewestOutcome(CatalogBooksResponse()) == NewestBook(Books()[4])
  {
    var bs := Books();
    assert forall j :: 0 <= j < 4 ==> bs[j].publicationYear < bs[4].publicationYear;
    NewestIndexUnique(bs, 4);
  }
}
