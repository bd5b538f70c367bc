# Library Management: a Dafny model of the catalogue core

The program is a terminal library manager. It keeps a catalogue of books in
memory, keyed by ISBN. A one-key menu lets the user add books, remove them,
search by title or by author, and list them all. This project models:

- the `Book` record: its fields, setters, `clear`, its ordering
  `operator<` and its one-line rendering `formatBook`;
- the `Library` class: the `books` map and the operations that read and
  update it;
- the arithmetic main.cpp does on the window size. This covers the
  longest menu line, the centring column, the split point for text too
  wide for the window, the bottom row and the right-aligned tag column;
- the key dispatch of the main loop `tuiLoop`.

Modules follow the source files:

- `StdString` (std_string.dfy) models the `std::string` and `<iomanip>`
  behaviour the core relies on.
- `Books` (book.dfy) models book.hpp and book.cpp.
- `Catalogue` (library.dfy) models library.hpp and library.cpp.
- `Screen` (screen.dfy) and `Menu` (tui.dfy) model main.cpp.

Modelling choices:

- A C++ `Book` is a value type: the map stores copies of it. So it is a
  datatype here, and each setter returns the updated value.
- `Library` is a class whose single field `books` is a
  `map<string, Book>`. `AddBook` and `RemoveBook` update that field in
  place.
- library.hpp declares `books` as a `umB` and `size` as returning `ul`.
  Neither alias is defined in the files modelled here. Going by the
  standard headers lms_project.hpp includes, `umB` is taken to be
  `std::unordered_map<std::string, Book>` and `ul` to be `unsigned long`.
- The map is taken to be an `unordered_map`, whose iteration order is
  unspecified. So each search loop picks its next key with `:|`, and its
  contract holds for every order.
- The title and ISBN searches stop at the first match, as the source does.
  So their result is "some matching book, or none". The author search
  returns each matching entry once.
- The header declares `searchByISBN`, but library.cpp defines
  `searchByISPN`. The model calls it `SearchByIsbn`.
- `std::string`'s `<` compares character codes lexicographically.
  Dafny's `<` on sequences means "proper prefix", so `StdString.Less`
  defines the order explicitly.
- Key codes are the `int` that `getch` returns. The source stores it in a
  `char` and compares that with `ERR`. So only the low byte counts, and a
  code whose low byte is 0xFF skips the turn.
- The session loop takes its keys as a list. The model stops when the list
  runs out; the real program would wait for the next key.

Facts about the program that shape the model:

- `tuiLoop` has no branch for `i`, so `i`, like every unbound key, shows
  the help screen. No key searches by ISBN.
- `searchByTitle` and `searchByISPN` return at most one book.
- `displayCatalog` lists the whole map at once. Nothing pages, sorts or
  browses the catalogue.
- `removeBook` takes a whole `Book`, but only its ISBN is used.
- Each Dafny `char` stands for one byte of the C++ string (see Left out).

## Model

| member | source | states |
|---|---|---|
| StdString.FindLastOf | main.cpp:312 | the index returned holds the character and no later index does; Npos exactly when the character does not occur |
| StdString.Less | book.hpp:25-29 | `std::string`'s `<`: a proper prefix is less than the longer string |
| StdString.LessIsLexicographic | book.hpp:25-29 | string `<` is the textbook lexicographic order: either a proper prefix, or equal up to a first position where the left character is smaller |
| StdString.LessIrreflexive | book.hpp:25-29 | no string is less than itself |
| StdString.LessTransitive | book.hpp:25-29 | string `<` is transitive |
| StdString.LessTrichotomous | book.hpp:25-29 | of two strings, one is less than the other or they are equal |
| StdString.LessAsymmetric | book.hpp:25-29 | `a < b` rules out `b < a` |
| StdString.PadLeft | book.cpp:34-35 | `setw` with `right`: the result is max(length, width) long, ends with the whole string (never truncated), and is blank before it |
| Books.Book.Clear | book.cpp:14-18 | all three fields become empty |
| Books.Book.SetTitle | book.cpp:26 | the title becomes the value given; author and ISBN are unchanged |
| Books.Book.SetAuthor | book.cpp:28 | the author becomes the value given; title and ISBN are unchanged |
| Books.Book.SetIsbn | book.cpp:30 | the ISBN becomes the value given; title and author are unchanged |
| Books.BuildBookFromSetters | book.cpp:6-24 | the getters return the three values the constructor stored, and a default book given them by its setters equals `Book(title, author, isbn)` |
| Books.DefaultBook | book.cpp:10 | the default-constructed book has three empty fields |
| Books.ClearIsDefault | book.cpp:10-18 | clearing any book yields the default-constructed book |
| Books.Book.FormatBook | book.cpp:32-37 | the line is max(\|title\|,l) + max(\|author\|,c) + max(\|isbn\|,r) + 1 characters long |
| Books.Book.FormatBookDefault | book.hpp:13 | with the default widths of 22, fields of at most 22 characters give a 67-character line |
| Books.FormatBookLayout | book.cpp:32-37 | title, author and ISBN each sit flush against the right edge of their column, with blanks before them and nothing cut off; the line ends with a newline |
| Books.Book.Less | book.hpp:22-30 | `operator<`: the authors decide when they differ; otherwise the titles decide when they differ; otherwise the ISBNs decide |
| Books.LessIrreflexive | book.hpp:22-30 | no book is less than itself |
| Books.LessTransitive | book.hpp:22-30 | the (author, title, isbn) order is transitive |
| Books.LessAsymmetric | book.hpp:22-30 | `a < b` rules out `b < a` |
| Books.LessTrichotomous | book.hpp:22-30 | if neither book is less than the other, they agree on author, title and ISBN |
| Catalogue.Library.constructor | library.hpp:29-30 | a new library's map is empty, and the key invariant holds |
| Catalogue.Library.Empty | library.cpp:4 | true exactly when the map has no entries, that is when its size is 0 |
| Catalogue.Library.Size | library.cpp:6 | the number of ISBN keys in the map |
| Catalogue.Library.GetAllBooks | library.hpp:13 | returns a map equal to the current contents and changes nothing |
| Catalogue.Library.AddBook | library.cpp:8 | the book is filed under its ISBN and replaces any book already there; every other entry is unchanged; the size grows by one exactly when the ISBN was new; every key stays equal to its book's ISBN |
| Catalogue.Library.RemoveBook | library.cpp:10-19 | returns true exactly when the ISBN was a key; afterwards that key is absent and every other entry is unchanged; on false the map is unchanged; only the ISBN of the argument matters |
| Catalogue.Library.SearchByAuthor | library.cpp:29-36 | exactly the entries whose author matches, each once and in some order; empty exactly when no book has that author; the library is unchanged |
| Catalogue.Library.SearchByIsbn | library.cpp:37-45 | at most one book; a result is in the map and has that ISBN; empty exactly when no book has it; under the key invariant, exactly the book filed under that ISBN |
| Catalogue.Library.SearchByTitle | library.cpp:47-55 | at most one book; a result is in the map and has that title; empty exactly when no book has it |
| Screen.MaxLength | main.cpp:392-398 | 0 for an empty list; otherwise at least every element's length and equal to some element's length |
| Screen.MaxSizeInVector | main.cpp:392-398 | the loop's final size is the longest length, `MaxLength` |
| Screen.ClampRowAsWritten | main.cpp:307 | a row up to maxRows is kept, and any larger row becomes maxRows |
| Screen.ClampRowAsWrittenMissesWindow | main.cpp:307 | every row at or past maxRows is clamped to maxRows itself, which is outside the window's rows 0 .. maxRows - 1 |
| Screen.MenuTitleRow | main.cpp:307 | displayMenu's "MENU" on row 3 of a window 3 rows high stays on row 3 as written, outside the window; the corrected clamp puts it on row 2 |
| Screen.ClampRow | main.cpp:307 | corrected clamp: rows inside the window are kept, any row at or past maxRows becomes the bottom row `LastRowInWin(maxRows)`, and any row from 0 on ends up inside the window |
| Screen.SplitPoint | main.cpp:312-315 | the cut lies at or before \|str\|/2; it is the last blank in the first half, or \|str\|/2 exactly when that half has no blank |
| Screen.CenterText | main.cpp:305-321 | as written: a row up to maxRows is kept and a larger one becomes maxRows; the text takes one row exactly when it fits, and is then centred, with the right margin equal to the left one or one column wider; otherwise it is cut at `SplitPoint`, before its end |
| Screen.CenterTextCorrected | main.cpp:305-321 | the same placement with the corrected clamp: a row already inside the window is kept, a row at or past maxRows goes to the bottom row maxRows - 1, and a row from 0 on always lands inside the window |
| Screen.Place | main.cpp:309-321 | once the row is fixed: one row exactly when the string fits, centred; otherwise cut at `SplitPoint` |
| Screen.LastRowInWin | main.cpp:386-390 | the row just above maxRows, the bottom row of the window |
| Screen.LastColForThis | main.cpp:400-404 | text started there ends exactly at column maxCols |
| Screen.TagPlacement | main.cpp:406-408 | a tag that fits is drawn on a row inside the window and inside the width, ending at the right edge |
| Screen.Unsigned | main.cpp:377 | storing an int in a 32-bit `unsigned` gives a value below 2^32 that is congruent to it modulo 2^32 |
| Screen.MenuColumn | main.cpp:377 | when the longest menu line fits, the menu is centred; when it does not, the unsigned column wraps to 2^31 or more |
| Screen.MenuLayout | main.cpp:364-377 | `MenuDetail` holds the seven menu lines, with "S: Search by Author" fourth; the longest has 19 characters; an 80-column window starts the menu at column 30 |
| Menu.ToChar | main.cpp:136-148 | the stored char is a signed 8-bit value congruent to the key code modulo 256 |
| Menu.Dispatch | main.cpp:151-170 | a low byte of 0xFF (ERR) skips the turn; a, g, c, r, t, s, x and h select their commands; any other key shows help |
| Menu.TuiLoop | main.cpp:134-174 | the welcome screen comes first without a key being read; the loop ends at the first `x` and has read exactly up to it; the screens shown are those of `Session` |
| Menu.SessionStopsAtExit | main.cpp:164-165 | the keys after the first `x` are never acted on |
| Menu.Session | main.cpp:137-173 | the screens the key list selects, up to the first `x`: never an Exit step, and at most one screen per key |
| Menu.SessionAdvance | main.cpp:148-170 | one turn removes exactly the current key's screen from those still to come: none for ERR, all of them for `x` |

## Findings

| source | as written | input that shows it | evidently intended | confidence | as-written member | corrected member |
|---|---|---|---|---|---|---|
| main.cpp:307 | `onRow > maxRows ? maxRows : onRow` clamps to maxRows, which is one past the last row | displayMenu centres "MENU" on row 3; in a window 3 rows high (maxRows = 3) it stays on row 3, but the rows are 0 .. 2 | clamp to maxRows - 1, the bottom row, which lastRowInWin (main.cpp:389) computes | medium, not executed | Screen.ClampRowAsWrittenMissesWindow | Screen.ClampRow |

`Screen.CenterText` keeps the clamp as written. `Screen.CenterTextCorrected` shows the placement with the corrected clamp, and `Screen.MenuTitleRow` compares the two on the title of the menu.

## Left out

- `Library::serialize` and `Library::deserialize`, and the Boost `serialize` templates of both classes, are left out. They are file I/O through an archive library.
- `Library::displayAllBooks` is left out. It only writes `formatBook` lines to standard output.
- The `std::hash<Book>` specialisation is left out. Its value depends on `std::hash<std::string>`, which is unspecified.
- All ncurses drawing is left out: window creation, `mvwprintw`, `wrefresh`, `werase`, `wgetstr`, `curs_set`.
- The prompt builders (`buildTitle`, `buildAuthor`, `buildISBN`, `buildBook`) are terminal I/O and left out, and so are `displayBook`, `displyBookVector`, `displayCatalog`, `displayHelp`, `displayWelcome`, `displayMenu`'s printing, `clrRow` and `tag`'s printing.
- The command handlers `addBookToLibrary`, `removeBookFromLibrary`, `searchUsingTitle` and `searchUsingAuthor` are not modelled. They read text from the terminal and then call the `Library` operations modelled above. `Menu.Session` records which handler runs, not its effect.
- The sort by title inside `searchUsingAuthor` is display ordering and is left out.
- The recursive printing in `displayTextAtCenter` (main.cpp:316-319) is left out; only its cut point and centring column are modelled. As written, it re-displays the first piece: line 318 reassigns `str`, and line 319 passes `tmpStr` again.
- `Book::~Book` is left out. It clears a value that is being destroyed, and nothing can observe that.
- Books.Book.SetTitle: a value update, not an in-place assignment. The setters run on a local `Book`. In `buildTitle`, `buildAuthor` and `buildISBN` they run on the caller's local Book, reached through a `Book &`. No other name refers to that object during the call, so `b := b.SetTitle(t)` on that variable has the same effect. The same holds for `SetAuthor`, `SetIsbn` and `Clear`.
- Menu.ToChar: assumes a signed `char`. Where `char` is unsigned, `ch != ERR` always holds, so no key would skip a turn.
- StdString.Less: compares Dafny characters (Unicode scalar values) by code, where C++ compares bytes as unsigned char. The two orders agree on byte-valued characters.
- Each Dafny `char` stands for one byte of the C++ string. `size()`, `substr`, `find_last_of` and `setw` count bytes. So `PadLeft`, `FormatBook`, `SplitPoint`, `CenterText`, `LastColForThis` and `MaxLength` hold for the byte sequence, not for Unicode characters. For example, "Café" is five bytes in UTF-8, and a cut at half the size can split a multibyte character. The model does not represent UTF-8 decoding.
- Screen.MaxSizeInVector: does not model the conversion of a length above INT_MAX into the `int` result.
- Screen.CenterText: takes the window's size as non-negative integers. The -1 that `getmaxyx` reports for an invalid window is not modelled.
- Screen.LastColForThis: does not model the size_t-to-int wrap for strings longer than INT_MAX.
- `winz.cpp` and `winz.hpp` are left out. They hold an empty window wrapper and a resize handler that only calls `getmaxyx` and `refresh`.
