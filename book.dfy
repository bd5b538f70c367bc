/** The Book record: three strings, its ordering and its one-line rendering.
    A C++ Book is a value type (the catalogue stores copies), so it is a
    datatype here; each setter gives the updated value, and `b.setTitle(t)`
    in the source corresponds to `b := b.SetTitle(t)`. */
module Books {
  import StdString

  /** Width of each column when Book::formatBook is called without arguments. */
  const DefaultWidth: int := 22

  /** Book::Book(title, author, isbn) stores its three arguments as they are. */
  datatype Book = Book(title: string, author: string, isbn: string)
  {
    /** Book::clear: every field becomes the empty string. */
    function Clear(): (b: Book)
      ensures b.title == [] && b.author == [] && b.isbn == []
    {
      Book("", "", "")
    }

    function SetTitle(newTitle: string): (b: Book)
      ensures b.title == newTitle && b.author == author && b.isbn == isbn
    {
      this.(title := newTitle)
    }

    function SetAuthor(newAuthor: string): (b: Book)
      ensures b.author == newAuthor && b.title == title && b.isbn == isbn
    {
      this.(author := newAuthor)
    }

    function SetIsbn(newIsbn: string): (b: Book)
      ensures b.isbn == newIsbn && b.title == title && b.author == author
    {
      this.(isbn := newIsbn)
    }

    /** Book::operator<: compare authors, then titles, then ISBNs. */
    predicate Less(other: Book): (r: bool)
      ensures author != other.author ==> (r <==> StdString.Less(author, other.author))
      ensures author == other.author && title != other.title ==> (r <==> StdString.Less(title, other.title))
      ensures author == other.author && title == other.title ==> (r <==> StdString.Less(isbn, other.isbn))
    {
      if author == other.author then
        if title == other.title then StdString.Less(isbn, other.isbn)
        else StdString.Less(title, other.title)
      else StdString.Less(author, other.author)
    }

    /** Book::formatBook(l, c, r): title, author and ISBN, each right-justified
        in a column of the given width, then a newline. */
    function FormatBook(l: int, c: int, r: int): (line: string)
      ensures |line| ==
        StdString.Max(|title|, l) + StdString.Max(|author|, c) + StdString.Max(|isbn|, r) + 1
    {
      StdString.PadLeft(title, l) + StdString.PadLeft(author, c) + StdString.PadLeft(isbn, r) + "\n"
    }

    /** formatBook() with its default arguments. */
    function FormatBookDefault(): (line: string)
      ensures |title| <= DefaultWidth && |author| <= DefaultWidth && |isbn| <= DefaultWidth
              ==> |line| == 3 * DefaultWidth + 1
    {
      FormatBook(DefaultWidth, DefaultWidth, DefaultWidth)
    }
  }

  /** Book::Book(): the fields start empty and are cleared once more. */
  function DefaultBook(): (b: Book)
    ensures b.title == [] && b.author == [] && b.isbn == []
  {
    Book("", "", "").Clear()
  }

  /** The getters return what Book(title, author, isbn) stored, and a
      default book given the same three values by its setters is that
      book. */
  lemma BuildBookFromSetters(t: string, a: string, n: string)
    ensures Book(t, a, n).title == t && Book(t, a, n).author == a && Book(t, a, n).isbn == n
    ensures DefaultBook().SetTitle(t).SetAuthor(a).SetIsbn(n) == Book(t, a, n)
  {
  }

  /** `line` is three columns w1, w2 and w3 wide and a newline; each field
      sits flush against the right edge of its column, with blanks before
      it. */
  predicate ColumnsHold(line: string, t: string, w1: int, a: string, w2: int, n: string, w3: int)
  {
    && |t| <= w1 && |a| <= w2 && |n| <= w3
    && |line| == w1 + w2 + w3 + 1
    && line[w1 - |t|..w1] == t
    && line[w1 + w2 - |a|..w1 + w2] == a
    && line[w1 + w2 + w3 - |n|..w1 + w2 + w3] == n
    && line[w1 + w2 + w3] == '\n'
    && (forall i :: 0 <= i < w1 - |t| ==> line[i] == ' ')
    && (forall i :: w1 <= i < w1 + w2 - |a| ==> line[i] == ' ')
    && (forall i :: w1 + w2 <= i < w1 + w2 + w3 - |n| ==> line[i] == ' ')
  }

  /** Three right-justified cells and a newline, laid side by side. */
  lemma CellsInLine(line: string, c1: string, t: string, c2: string, a: string, c3: string, n: string,
                    w1: int, w2: int, w3: int)
    requires line == c1 + c2 + c3 + "\n" && w1 == |c1| && w2 == |c2| && w3 == |c3|
    requires |t| <= |c1| && c1[|c1| - |t|..] == t && forall i :: 0 <= i < |c1| - |t| ==> c1[i] == ' '
    requires |a| <= |c2| && c2[|c2| - |a|..] == a && forall i :: 0 <= i < |c2| - |a| ==> c2[i] == ' '
    requires |n| <= |c3| && c3[|c3| - |n|..] == n && forall i :: 0 <= i < |c3| - |n| ==> c3[i] == ' '
    ensures ColumnsHold(line, t, w1, a, w2, n, w3)
  {
  }

  /** The line formatBook renders: each field flush against the right edge
      of a column max(|field|, width) wide, blanks before it, no character
      of any field lost, and a newline at the end. */
  lemma FormatBookLayout(b: Book, l: int, c: int, r: int)
    ensures ColumnsHold(b.FormatBook(l, c, r),
                        b.title, StdString.Max(|b.title|, l),
                        b.author, StdString.Max(|b.author|, c),
                        b.isbn, StdString.Max(|b.isbn|, r))
  {
    var c1, c2, c3 := StdString.PadLeft(b.title, l), StdString.PadLeft(b.author, c), StdString.PadLeft(b.isbn, r);
    CellsInLine(b.FormatBook(l, c, r), c1, b.title, c2, b.author, c3, b.isbn,
                StdString.Max(|b.title|, l), StdString.Max(|b.author|, c), StdString.Max(|b.isbn|, r));
  }

  lemma LessIrreflexive(a: Book)
    ensures !a.Less(a)
  {
    StdString.LessIrreflexive(a.isbn);
  }

  lemma LessTransitive(a: Book, b: Book, c: Book)
    requires a.Less(b) && b.Less(c)
    ensures a.Less(c)
  {
    if a.author != b.author {
      if b.author != c.author {
        StdString.LessTransitive(a.author, b.author, c.author);
      }
      if a.author == c.author {
        StdString.LessAsymmetric(a.author, b.author);
      }
    } else if b.author != c.author {
    } else if a.title != b.title {
      if b.title != c.title {
        StdString.LessTransitive(a.title, b.title, c.title);
      }
      if a.title == c.title {
        StdString.LessAsymmetric(a.title, b.title);
      }
    } else if b.title != c.title {
    } else {
      StdString.LessTransitive(a.isbn, b.isbn, c.isbn);
    }
  }

  lemma LessAsymmetric(a: Book, b: Book)
    requires a.Less(b)
    ensures !b.Less(a)
  {
    if b.Less(a) {
      LessTransitive(a, b, a);
      LessIrreflexive(a);
    }
  }

  /** Two books neither of which is less than the other agree on every field. */
  lemma LessTrichotomous(a: Book, b: Book)
    ensures a.Less(b) || b.Less(a) || a == b
  {
    StdString.LessTrichotomous(a.author, b.author);
    StdString.LessTrichotomous(a.title, b.title);
    StdString.LessTrichotomous(a.isbn, b.isbn);
  }

  /** Book::clear and the default constructor give the same record. */
  lemma ClearIsDefault(b: Book)
    ensures b.Clear() == DefaultBook()
  {
  }
}
