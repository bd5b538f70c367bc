/** The arithmetic main.cpp does on window geometry. The window's size,
    which the source reads with getmaxyx, is given as the integers maxRows
    and maxCols; nothing is drawn. */
module Screen {
  import opened StdString

  /** The length of the longest string, 0 for none: what maxSizeInVector computes. */
  function MaxLength(sv: seq<string>): (n: nat)
    ensures forall i :: 0 <= i < |sv| ==> |sv[i]| <= n
    ensures sv == [] ==> n == 0
    ensures sv != [] ==> exists i :: 0 <= i < |sv| && |sv[i]| == n
  {
    if sv == [] then 0 else Max(MaxLength(sv[..|sv| - 1]), |sv[|sv| - 1]|)
  }

  /** maxSizeInVector: one pass keeping the largest size seen so far. */
  method MaxSizeInVector(sv: seq<string>) returns (sz: nat)
    ensures sz == MaxLength(sv)
  {
    sz := 0;
    for i := 0 to |sv|
      invariant sz == MaxLength(sv[..i])
    {
      assert sv[..i + 1][..i] == sv[..i];
      sz := if sz < |sv[i]| then |sv[i]| else sz;
    }
    assert sv[..|sv|] == sv;
  }

  /** Text `width` columns wide starting at column `col` lies within a row
      of maxCols columns, and the blank margin on its right equals the one
      on its left or is one column wider. */
  predicate Centred(col: int, width: int, maxCols: int)
  {
    0 <= col && col <= maxCols - width - col <= col + 1
  }

  /** The row clamp of displayTextAtCenter as written: a row below the
      window is moved to row maxRows. */
  function ClampRowAsWritten(onRow: int, maxRows: int): (row: int)
    ensures row <= onRow && row <= maxRows
    ensures onRow <= maxRows ==> row == onRow
    ensures onRow > maxRows ==> row == maxRows
  {
    if onRow > maxRows then maxRows else onRow
  }

  /** Rows of a window are 0 .. maxRows - 1, so the clamp as written sends a
      row below the window to a row that is still outside it. displayMenu
      centres "MENU" on row 3; in a window 3 rows high it stays on row 3. */
  lemma ClampRowAsWrittenMissesWindow(maxRows: nat)
    ensures forall onRow :: onRow >= maxRows ==> ClampRowAsWritten(onRow, maxRows) == maxRows
    ensures forall onRow :: onRow >= maxRows ==> !InWindow(ClampRowAsWritten(onRow, maxRows), maxRows)
  {
  }

  /** `row` is one of the rows 0 .. maxRows - 1 of a window maxRows high. */
  predicate InWindow(row: int, maxRows: int)
  {
    0 <= row < maxRows
  }

  /** displayMenu centres "MENU" on row 3. In a window 3 rows high the
      clamp as written leaves it on row 3, below the window; the corrected
      clamp puts it on row 2, the bottom row. */
  lemma MenuTitleRow()
    ensures CenterText("MENU", 3, 3, 80).row == 3 && !InWindow(CenterText("MENU", 3, 3, 80).row, 3)
    ensures CenterTextCorrected("MENU", 3, 3, 80).row == 2
  {
  }

  /** The row clamp with the bound the window has: the last row is maxRows - 1. */
  function ClampRow(onRow: int, maxRows: int): (row: int)
    ensures row <= onRow && row < maxRows
    ensures onRow < maxRows ==> row == onRow
    ensures 0 <= onRow && 0 < maxRows ==> InWindow(row, maxRows)
    ensures onRow >= maxRows ==> row == LastRowInWin(maxRows)
  {
    if onRow > maxRows - 1 then maxRows - 1 else onRow
  }

  /** Where displayTextAtCenter cuts a string too wide for the window: at
      the last blank in its first |str| / 2 characters, or at |str| / 2 when
      there is no blank there. (The source keeps find_last_of's result in an
      int; npos becomes -1 and compares equal to npos again, so the
      fallback is taken exactly when no blank is found.) */
  function SplitPoint(str: string): (pos: nat)
    ensures pos <= |str| / 2
    ensures pos < |str| / 2 ==> str[pos] == ' '
    ensures forall k :: pos < k < |str| / 2 ==> str[k] != ' '
    ensures pos == |str| / 2 <==> forall k :: 0 <= k < |str| / 2 ==> str[k] != ' '
  {
    match FindLastOf(str[..|str| / 2], ' ')
    case Npos => |str| / 2
    case At(i) => i
  }

  /** What displayTextAtCenter decides for one string: print it on one row
      at a column, or cut it at `split` and display the first
      `split` characters first. */
  datatype Placement =
    | OneLine(row: int, col: nat)
    | Cut(row: int, split: nat)

  /** displayTextAtCenter as written: the row goes through the clamp of
      main.cpp:307, so a row below the window stays outside it. */
  function CenterText(str: string, onRow: int, maxRows: nat, maxCols: nat): (p: Placement)
    ensures onRow <= maxRows ==> p.row == onRow
    ensures onRow > maxRows ==> p.row == maxRows
    ensures p.OneLine? <==> |str| <= maxCols
    ensures p.OneLine? ==> Centred(p.col, |str|, maxCols)
    ensures p.Cut? ==> p.split == SplitPoint(str) && p.split < |str|
  {
    Place(str, ClampRowAsWritten(onRow, maxRows), maxCols)
  }

  /** displayTextAtCenter with the corrected clamp: the text is always
      placed on a row of the window. */
  function CenterTextCorrected(str: string, onRow: int, maxRows: nat, maxCols: nat): (p: Placement)
    ensures 0 <= onRow && 0 < maxRows ==> InWindow(p.row, maxRows)
    ensures onRow < maxRows ==> p.row == onRow
    ensures onRow >= maxRows ==> p.row == maxRows - 1
    ensures p.OneLine? <==> |str| <= maxCols
    ensures p.OneLine? ==> Centred(p.col, |str|, maxCols)
    ensures p.Cut? ==> p.split == SplitPoint(str) && p.split < |str|
  {
    Place(str, ClampRow(onRow, maxRows), maxCols)
  }

  /** The decision displayTextAtCenter takes once the row is fixed. */
  function Place(str: string, row: int, maxCols: nat): (p: Placement)
    ensures p.row == row
    ensures p.OneLine? <==> |str| <= maxCols
    ensures p.OneLine? ==> Centred(p.col, |str|, maxCols)
    ensures p.Cut? ==> p.split == SplitPoint(str) && p.split < |str|
  {
    if |str| > maxCols then Cut(row, SplitPoint(str))
    else OneLine(row, (maxCols - |str|) / 2)
  }

  /** lastRowInWin: the bottom row of the window. */
  function LastRowInWin(maxRows: int): (row: int)
    ensures row + 1 == maxRows
  {
    maxRows - 1
  }

  /** lastColForThis: the column where `str` must start to end at the right
      edge. (The source subtracts a size_t and converts back to int, which
      gives the same value for any window and string that fit an int.) */
  function LastColForThis(maxCols: int, str: string): (col: int)
    ensures col + |str| == maxCols
  {
    maxCols - |str|
  }

  /** tag() draws its text on the bottom row, flush with the right edge,
      and inside the window whenever the text fits in a row. */
  lemma TagPlacement(maxRows: nat, maxCols: nat, str: string)
    requires 0 < maxRows && |str| <= maxCols
    ensures InWindow(LastRowInWin(maxRows), maxRows)
    ensures 0 <= LastColForThis(maxCols, str) && LastColForThis(maxCols, str) + |str| == maxCols
  {
  }

  /** The seven lines displayMenu lists under its title. */
  const MenuDetail: seq<string> := [
    "H: Help", "C: Catalog", "T: Search by Title", "S: Search by Author",
    "A: Add a book", "R: Remove a book", "X: Exit Library"]

  /** Conversion of an int to a 32-bit unsigned. */
  function Unsigned(x: int): (u: nat)
    ensures u < 0x1_0000_0000 && (u - x) % 0x1_0000_0000 == 0
  {
    x % 0x1_0000_0000
  }

  /** `unsigned c((maxCols - maxSizeInVector(menu)) >> 1)`: the shift of an
      int by one is a division by 2 rounded down (an arithmetic shift, as
      C++20 requires and compilers do), and the result is stored in an
      unsigned. */
  function MenuColumn(maxCols: int, menu: seq<string>): (c: nat)
    ensures MaxLength(menu) <= maxCols < 0x1_0000_0000 ==> Centred(c, MaxLength(menu), maxCols)
    ensures 0 <= maxCols < MaxLength(menu) <= maxCols + 0x1_0000_0000 ==> c >= 0x8000_0000
  {
    Unsigned((maxCols - MaxLength(menu)) / 2)
  }

  /** The widest menu line is "S: Search by Author", 19 characters, so an
      80-column window starts the menu at column 30. */
  lemma MenuLayout()
    ensures |MenuDetail| == 7 && MenuDetail[3] == "S: Search by Author"
    ensures MaxLength(MenuDetail) == 19
    ensures MenuColumn(80, MenuDetail) == 30
  {
  }
}
