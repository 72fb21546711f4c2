/**
 * Genre lookups over the stored records: the lower-case, the upper-case and
 * the partial spelling of the genre of "1984".
 */
module CatalogExamples {

  import opened Wrappers
  import opened Catalog

  /** Genre matching is exact: "Dystopian" alone is no stored genre. */
  lemma GenreSubstringNotFound()
    ensures GetBooksByGenre("Dystopian") == None
  {
    forall b | b in Books() ensures !SameGenre(b.genre, "Dystopian") {
      assert |Lower(b.genre)| != |Lower("Dystopian")|;
    }
  }

  /** No record after "1984" has a genre of the length of "dystopian fiction". */
  lemma GenreExactTail()
    ensures GenreMatches(Books()[2..], "dystopian fiction") == []
  {
    forall b | b in Books()[2..] ensures !SameGenre(b.genre, "dystopian fiction") {
      assert |Lower(b.genre)| != |"dystopian fiction"|;
    }
  }

  /** "1984" is filed under "Dystopian Fiction", which lower-cases to the query. */
  lemma GenreExactHead()
    ensures !SameGenre(Books()[0].genre, "dystopian fiction")
    ensures SameGenre(Books()[1].genre, "dystopian fiction")
  {
    assert |Books()[0].genre| != |"dystopian fiction"|;
    assert Lower("dystopian fiction") == "dystopian fiction";
  }

  /** Only "1984" among the stored records has the genre "dystopian fiction". */
  lemma GenreExactFound()
    ensures GenreMatches(Books(), "dystopian fiction") == [Books()[1]]
  {
    var bs := Books();
    GenreExactTail();
    GenreExactHead();
    var t := bs[1..];
    assert t[0] == bs[1] && t[1..] == bs[2..];
  }

  /** The upper-case query lower-cases to the lower-case one. */
  lemma UpperQueryLowers()
    ensures Lower("DYSTOPIAN FICTION") == Lower("dystopian fiction")
  {
    assert Lower("dystopian fiction") == "dystopian fiction";
  }

  /** Genre matching ignores case: both spellings find exactly "1984". */
  lemma GenreCaseInsensitiveFound()
    ensures GetBooksByGenre("dystopian fiction") == Some([Books()[1]])
    ensures GetBooksByGenre("DYSTOPIAN FICTION") == Some([Books()[1]])
  {
    GenreExactFound();
    UpperQueryLowers();
    GenreMatchesIgnoresCase(Books(), "dystopian fiction", "DYSTOPIAN FICTION");
  }
}
