/** The catalogue: one hash map from ISBN to Book, updated in place. */
module Catalogue {
  import opened Books

  /** Every entry is filed under its own book's ISBN. */
  ghost predicate KeysMatch(m: map<string, Book>)
  {
    forall k :: k in m ==> m[k].isbn == k
  }

  class Library {
    /** Library::books, declared as a `umB`, taken to be an unordered_map<string, Book>; the whole state of a Library. */
    var books: map<string, Book>

    /** The invariant addBook and removeBook keep. */
    ghost predicate Valid()
      reads this
    {
      KeysMatch(books)
    }

    /** A default-constructed Library holds no books. */
    constructor ()
      ensures books == map[] && Valid()
    {
      books := map[];
    }

    /** Library::empty. */
    method Empty() returns (e: bool)
      ensures e <==> books == map[]
      ensures e <==> |books| == 0
    {
      e := |books| == 0;
    }

    /** Library::size. */
    method Size() returns (n: nat)
      ensures n == |books.Keys|
    {
      n := |books|;
    }

    /** Library::getAllBooks: a copy of the map. */
    method GetAllBooks() returns (m: map<string, Book>)
      ensures m == books
    {
      m := books;
    }

    /** Library::addBook: file the book under its ISBN, replacing any book
        already filed there. */
    method AddBook(b: Book)
      modifies this
      ensures books == old(books)[b.isbn := b]
      ensures b.isbn in books && books[b.isbn] == b
      ensures forall k :: k in old(books) && k != b.isbn ==> k in books && books[k] == old(books)[k]
      ensures books.Keys == old(books).Keys + {b.isbn}
      ensures |books| == if b.isbn in old(books) then old(|books|) else old(|books|) + 1
      ensures old(Valid()) ==> Valid()
    {
      books := books[b.isbn := b];
    }

    /** Library::removeBook: only the ISBN of `b` selects the entry. */
    method RemoveBook(b: Book) returns (removed: bool)
      modifies this
      ensures removed <==> b.isbn in old(books)
      ensures books == old(books) - {b.isbn}
      ensures b.isbn !in books
      ensures forall k :: k in old(books) && k != b.isbn ==> k in books && books[k] == old(books)[k]
      ensures books.Keys == old(books).Keys - {b.isbn}
      ensures |books| == if removed then old(|books|) - 1 else old(|books|)
      ensures !removed ==> books == old(books)
      ensures old(Valid()) ==> Valid()
    {
      if b.isbn in books {
        books := books - {b.isbn};
        return true;
      }
      return false;
    }

    /** Library::searchByAuthor: every book by `author`, once each, in the
        map's (unspecified) iteration order. `keys` names the entry each
        result was copied from. */
    method SearchByAuthor(author: string) returns (results: seq<Book>, ghost keys: seq<string>)
      ensures |results| == |keys|
      ensures forall i :: 0 <= i < |keys| ==> keys[i] in books && results[i] == books[keys[i]]
      ensures forall i, j :: 0 <= i < j < |keys| ==> keys[i] != keys[j]
      ensures forall k :: k in books ==> (k in keys <==> books[k].author == author)
      ensures results == [] <==> forall k :: k in books ==> books[k].author != author
    {
      results, keys := [], [];
      var todo := books.Keys;
      while todo != {}
        invariant todo <= books.Keys
        invariant |results| == |keys|
        invariant forall i :: 0 <= i < |keys| ==>
                    keys[i] in books && keys[i] !in todo && results[i] == books[keys[i]]
        invariant forall i, j :: 0 <= i < j < |keys| ==> keys[i] != keys[j]
        invariant forall k :: k in books && k !in todo ==> (k in keys <==> books[k].author == author)
        invariant forall k :: k in todo ==> k !in keys
        decreases todo
      {
        var k :| k in todo;
        if books[k].author == author {
          results, keys := results + [books[k]], keys + [k];
        }
        todo := todo - {k};
      }
      if results == [] {
        assert keys == [];
      } else {
        assert keys[0] in keys;
      }
    }

    /** Library::searchByTitle: some book with that title (the first one
        met in iteration order), or nothing. */
    method SearchByTitle(title: string) returns (results: seq<Book>)
      ensures |results| <= 1
      ensures results != [] ==> results[0] in books.Values && results[0].title == title
      ensures results == [] <==> forall k :: k in books ==> books[k].title != title
    {
      results := [];
      var todo := books.Keys;
      while todo != {}
        invariant todo <= books.Keys
        invariant results == []
        invariant forall k :: k in books && k !in todo ==> books[k].title != title
        decreases todo
      {
        var k :| k in todo;
        if books[k].title == title {
          results := results + [books[k]];
          break;
        }
        todo := todo - {k};
      }
    }

    /** Library::searchByISBN (defined in library.cpp as searchByISPN): some
        book with that ISBN, or nothing; under the invariant, exactly the
        book filed under it. */
    method SearchByIsbn(isbn: string) returns (results: seq<Book>)
      ensures |results| <= 1
      ensures results != [] ==> results[0] in books.Values && results[0].isbn == isbn
      ensures results == [] <==> forall k :: k in books ==> books[k].isbn != isbn
      ensures Valid() ==> results == if isbn in books then [books[isbn]] else []
    {
      results := [];
      var todo := books.Keys;
      while todo != {}
        invariant todo <= books.Keys
        invariant results == []
        invariant forall k :: k in books && k !in todo ==> books[k].isbn != isbn
        decreases todo
      {
        var k :| k in todo;
        if books[k].isbn == isbn {
          results := results + [books[k]];
          break;
        }
        todo := todo - {k};
      }
    }
  }

  /** When exactly one entry of `m` has the author, a result list of
      distinct keys covering the matching entries is that one key. */
  lemma OnlyMatch(m: map<string, Book>, keys: seq<string>, author: string, k: string)
    requires forall i :: 0 <= i < |keys| ==> keys[i] in m
    requires forall i, j :: 0 <= i < j < |keys| ==> keys[i] != keys[j]
    requires forall k' :: k' in m ==> (k' in keys <==> m[k'].author == author)
    requires k in m && m[k].author == author
    requires forall k' :: k' in m && k' != k ==> m[k'].author != author
    ensures keys == [k]
  {
    assert k in keys;
    assert |keys| <= 1 by {
      if |keys| > 1 { FirstTwoEqual(keys, k); }
    }
  }

  lemma FirstTwoEqual(keys: seq<string>, k: string)
    requires |keys| > 1 && keys[0] == k && keys[1] == k
    ensures keys[0] == keys[1]
  {
  }

  /** Two books by different authors; the author search finds one. */
  method AuthorSearchScenario()
  {
    var lib := new Library();
    var dune := Book("Dune", "Herbert", "001");
    var foundation := Book("Foundation", "Asimov", "002");
    lib.AddBook(dune);
    lib.AddBook(foundation);
    var m := lib.books;
    assert m == map["001" := dune, "002" := foundation];
    var byAsimov, keys := lib.SearchByAuthor("Asimov");
    assert dune.author[0] != 'A';
    OnlyMatch(m, keys, "Asimov", "002");
    assert byAsimov == [foundation];
  }

  /** Removing by ISBN, removing again, and replacing an entry. */
  method RemoveAndReplaceScenario()
  {
    var lib := new Library();
    var dune := Book("Dune", "Herbert", "001");
    var foundation := Book("Foundation", "Asimov", "002");
    lib.AddBook(dune);
    lib.AddBook(foundation);
    var removed := lib.RemoveBook(Book("", "", "002"));
    assert removed;
    var found := lib.SearchByIsbn("002");
    assert found == [];
    var again := lib.RemoveBook(foundation);
    assert !again;
    var replacement := Book("Dune Messiah", "Herbert", "001");
    lib.AddBook(replacement);
    var byIsbn := lib.SearchByIsbn("001");
    assert byIsbn == [replacement];
    var n := lib.Size();
    assert n == 1;
  }
}
