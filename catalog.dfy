/**
 * The catalog service (lab10/app.py): a fixed, ordered list of book records
 * and three read-only queries over it.  A `None` lookup result is the
 * service's 404 answer; a `Some` result is its 200 answer.
 */
module Catalog {

  import opened Wrappers

  datatype Book = Book(
    id: int,
    title: string,
    author: string,
    publicationYear: int,
    genre: string)

  /** The records the service is started with, in their stored order. */
  function Books(): (r: seq<Book>)
    ensures |r| == 5
    ensures forall i :: 0 <= i < |r| ==> r[i].id == i + 1
    ensures forall i :: 0 <= i < |r| ==> r[i].title != "" && r[i].author != "" && r[i].genre != ""
  {
    [ Book(1, "To Kill a Mockingbird", "Harper Lee", 1960, "Southern Gothic"),
      Book(2, "1984", "George Orwell", 1949, "Dystopian Fiction"),
      Book(3, "Pride and Prejudice", "Jane Austen", 1813, "Romantic Novel"),
      Book(4, "The Great Gatsby", "F. Scott Fitzgerald", 1925, "American Literature"),
      Book(5, "The Hunger Games", "Suzanne Collins", 2008, "Young Adult Dystopian") ]
  }

  // ---------------------------------------------------------------------
  // Lower-casing (Python's str.lower, restricted to ASCII letters)
  // ---------------------------------------------------------------------

  /** An upper-case ASCII letter becomes its lower-case letter; every other character is kept. */
  function LowerChar(c: char): (d: char)
    ensures !('A' <= d <= 'Z')
    ensures 'A' <= c <= 'Z' ==> 'a' <= d <= 'z' && d as int - c as int == 'a' as int - 'A' as int
    ensures !('A' <= c <= 'Z') ==> d == c
  {
    if 'A' <= c <= 'Z' then (c as int + 32) as char else c
  }

  /** The text with every upper-case ASCII letter lower-cased, position by position. */
  function Lower(s: string): (t: string)
    ensures |t| == |s|
    ensures forall i :: 0 <= i < |t| ==> !('A' <= t[i] <= 'Z')
    ensures forall i :: 0 <= i < |s| && !('A' <= s[i] <= 'Z') ==> t[i] == s[i]
    ensures forall i :: 0 <= i < |s| && 'A' <= s[i] <= 'Z' ==>
      t[i] as int == s[i] as int + ('a' as int - 'A' as int)
  {
    seq(|s|, i requires 0 <= i < |s| => LowerChar(s[i]))
  }

  /** Lower-casing a second time changes nothing. */
  lemma LowerIdempotent(s: string)
    ensures Lower(Lower(s)) == Lower(s)
  {
  }

  /** The equality the genre route tests: both sides lower-cased. */
  predicate SameGenre(a: string, b: string): (same: bool)
    ensures a == b ==> same
    ensures same ==> |a| == |b|
    ensures same <==> |a| == |b| && forall i :: 0 <= i < |a| ==> LowerChar(a[i]) == LowerChar(b[i])
  {
    Lower(a) == Lower(b)
  }

  // ---------------------------------------------------------------------
  // get_books
  // ---------------------------------------------------------------------

  /** All records, unchanged and in their stored order. */
  function GetBooks(): (r: seq<Book>)
    ensures r == Books()
    ensures |r| == 5
    ensures forall i :: 0 <= i < |r| ==> r[i].id == i + 1
  {
    Books()
  }

  /** Distinct records of the fixed data carry distinct ids. */
  lemma BooksIdsDistinct()
    ensures forall i, j :: 0 <= i < j < |Books()| ==> Books()[i].id != Books()[j].id
  {
  }

  // ---------------------------------------------------------------------
  // get_book: the first record with the requested id
  // ---------------------------------------------------------------------

  /** The generator with `next(..., None)`: the first record whose id matches. */
  function FirstWithId(books: seq<Book>, id: int): (r: Option<Book>)
    ensures r.Some? ==>
      r.value.id == id &&
      exists k :: 0 <= k < |books| && books[k] == r.value &&
        forall j :: 0 <= j < k ==> books[j].id != id
    ensures r.None? <==> forall j :: 0 <= j < |books| ==> books[j].id != id
  {
    if books == [] then None
    else if books[0].id == id then
      Some(books[0])
    else
      var r := FirstWithId(books[1..], id);
      if r.Some? then
        var k :| 0 <= k < |books[1..]| && books[1..][k] == r.value &&
          forall j :: 0 <= j < k ==> books[1..][j].id != id;
        assert books[k + 1] == r.value;
        assert forall j :: 0 <= j < k + 1 ==> books[j].id != id by {
          forall j | 0 <= j < k + 1 ensures books[j].id != id {
            if j > 0 { assert books[j] == books[1..][j - 1]; }
          }
        }
        r
      else
        assert forall j :: 1 <= j < |books| ==> books[j] == books[1..][j - 1];
        r
  }

  /** The first-match result is the record at the least index carrying the id. */
  lemma FirstWithIdIsLeastIndex(books: seq<Book>, id: int, k: nat)
    requires k < |books| && books[k].id == id
    requires forall j :: 0 <= j < k ==> books[j].id != id
    ensures FirstWithId(books, id) == Some(books[k])
  {
  }

  /** The /books/<id> route: `None` is the 404 answer. */
  function GetBook(id: int): (r: Option<Book>)
    ensures r.Some? ==> r.value.id == id && r.value in Books()
    ensures r.None? <==> forall b :: b in Books() ==> b.id != id
  {
    FirstWithId(Books(), id)
  }

  /** With the fixed data, exactly the ids 1..5 are found, each at its own position. */
  lemma GetBookFixedData(id: int)
    ensures GetBook(id) == if 1 <= id <= 5 then Some(Books()[id - 1]) else None
  {
    if 1 <= id <= 5 {
      FirstWithIdIsLeastIndex(Books(), id, id - 1);
    } else {
      assert forall j :: 0 <= j < |Books()| ==> Books()[j].id == j + 1;
    }
  }

  /** An id outside the stored ones, such as 99, is not found. */
  lemma GetBookMissing()
    ensures GetBook(99) == None && GetBook(0) == None
  {
    GetBookFixedData(99);
    GetBookFixedData(0);
  }

  // ---------------------------------------------------------------------
  // get_books_by_genre: case-insensitive, exact genre filter
  // ---------------------------------------------------------------------

  /** The list comprehension: the records whose genre equals the query ignoring case. */
  function GenreMatches(books: seq<Book>, genre: string): (r: seq<Book>)
    ensures |r| <= |books|
    ensures forall b :: b in r ==> b in books && SameGenre(b.genre, genre)
    ensures forall b :: b in books && SameGenre(b.genre, genre) ==> b in r
  {
    if books == [] then []
    else
      var rest := GenreMatches(books[1..], genre);
      assert forall b :: b in books ==> b == books[0] || b in books[1..];
      if SameGenre(books[0].genre, genre) then [books[0]] + rest else rest
  }

  /** `s` is `t` with some elements dropped and the rest kept in order. */
  ghost predicate IsSubsequence(s: seq<Book>, t: seq<Book>)
    decreases |t|
  {
    if t == [] then s == []
    else (s != [] && s[0] == t[0] && IsSubsequence(s[1..], t[1..])) || IsSubsequence(s, t[1..])
  }

  /** The filtered list keeps the catalog's order. */
  lemma {:induction false} GenreMatchesIsSubsequence(books: seq<Book>, genre: string)
    ensures IsSubsequence(GenreMatches(books, genre), books)
  {
    if books != [] {
      GenreMatchesIsSubsequence(books[1..], genre);
      var r := GenreMatches(books, genre);
      if SameGenre(books[0].genre, genre) {
        assert r[1..] == GenreMatches(books[1..], genre);
      }
    }
  }

  /** The filter keeps every matching record as often as the catalog holds it. */
  lemma {:induction false} GenreMatchesMultiplicity(books: seq<Book>, genre: string, b: Book)
    ensures multiset(GenreMatches(books, genre))[b] ==
      if SameGenre(b.genre, genre) then multiset(books)[b] else 0
  {
    if books != [] {
      GenreMatchesMultiplicity(books[1..], genre, b);
      assert books == [books[0]] + books[1..];
    }
  }

  /** Queries that differ only in the case of ASCII letters give the same records. */
  lemma {:induction false} GenreMatchesIgnoresCase(books: seq<Book>, g1: string, g2: string)
    requires Lower(g1) == Lower(g2)
    ensures GenreMatches(books, g1) == GenreMatches(books, g2)
  {
    if books != [] {
      GenreMatchesIgnoresCase(books[1..], g1, g2);
    }
  }

  /** The route's decision over any catalog: `None` exactly when the filter is empty. */
  function GenreLookup(books: seq<Book>, genre: string): (r: Option<seq<Book>>)
    ensures r.None? <==> forall b :: b in books ==> !SameGenre(b.genre, genre)
    ensures r.None? <==> GenreMatches(books, genre) == []
    ensures r.Some? ==> r.value != [] && r.value == GenreMatches(books, genre)
  {
    var filtered := GenreMatches(books, genre);
    if filtered == [] then None
    else
      assert filtered[0] in filtered;
      Some(filtered)
  }

  /** The /genre/<genre> route over the stored records: `None` is the 404 answer. */
  function GetBooksByGenre(genre: string): (r: Option<seq<Book>>)
    ensures r.None? <==> forall b :: b in Books() ==> !SameGenre(b.genre, genre)
    ensures r.Some? ==> r.value != [] && r.value == GenreMatches(Books(), genre)
  {
    GenreLookup(Books(), genre)
  }
}
