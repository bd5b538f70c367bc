/** The main menu loop of main.cpp: one key per turn selects a screen. Keys
    arrive as the int codes getch returns, given here as a list; the
    screens themselves are not drawn. */
module Menu {

  /** What a turn of tuiLoop does. */
  datatype Command =
    | AddBook | Welcome | ShowCatalog | RemoveBook
    | SearchTitle | SearchAuthor | Help | Exit

  /** A turn that does something, or none. */
  datatype Option = None | Some(value: Command)

  /** curses' ERR, which getch returns when no key is read. */
  const Err: int := -1

  /** `char ch = getch()`: only the low eight bits are kept, read as a
      signed char. */
  function ToChar(code: int): (ch: int)
    ensures -128 <= ch < 128 && (ch - code) % 256 == 0
  {
    var low := code % 256;
    if low >= 128 then low - 256 else low
  }

  /** The keys tuiLoop tests for, each with the command it selects. */
  const Bindings: map<int, Command> := map[
    'a' as int := AddBook, 'g' as int := Welcome, 'c' as int := ShowCatalog,
    'r' as int := RemoveBook, 't' as int := SearchTitle, 's' as int := SearchAuthor,
    'x' as int := Exit, 'h' as int := Help]

  /** The if-chain of tuiLoop for one key code: None when the `ch != ERR`
      test skips the turn, otherwise the command selected; every key
      without a branch shows the help screen. */
  function Dispatch(code: int): (cmd: Option)
    ensures cmd.None? <==> code % 256 == 255
    ensures cmd.Some? ==> cmd.value == (if code % 256 in Bindings then Bindings[code % 256] else Help)
  {
    var ch := ToChar(code);
    if ch == Err then None
    else if ch == 'a' as int then Some(AddBook)
    else if ch == 'g' as int then Some(Welcome)
    else if ch == 'c' as int then Some(ShowCatalog)
    else if ch == 'r' as int then Some(RemoveBook)
    else if ch == 't' as int then Some(SearchTitle)
    else if ch == 's' as int then Some(SearchAuthor)
    else if ch == 'x' as int then Some(Exit)
    else if ch == 'h' as int then Some(Help)
    else Some(Help)
  }

  /** The key code ends the loop. */
  predicate IsExit(code: int)
  {
    Dispatch(code) == Some(Exit)
  }

  /** The screens shown for the keys read, up to the first key that ends
      the loop; skipped turns show nothing. */
  function Session(codes: seq<int>): (s: seq<Command>)
    ensures Exit !in s
    ensures |s| <= |codes|
  {
    if codes == [] then []
    else match Dispatch(codes[0])
      case None => Session(codes[1..])
      case Some(Exit) => []
      case Some(cmd) => [cmd] + Session(codes[1..])
  }

  /** tuiLoop: the first turn shows the welcome screen without reading a
      key; each later turn reads one key and acts on it, until 'x'. The
      source blocks in getch when no key is left; here the loop then ends
      with `exited` false. */
  method TuiLoop(codes: seq<int>) returns (shown: seq<Command>, read: nat, exited: bool)
    ensures read <= |codes|
    ensures exited <==> exists i :: 0 <= i < |codes| && IsExit(codes[i])
    ensures exited ==> 0 < read && IsExit(codes[read - 1]) && forall i :: 0 <= i < read - 1 ==> !IsExit(codes[i])
    ensures !exited ==> read == |codes|
    ensures shown == [Welcome] + Session(codes)
  {
    var firstTime := true;
    shown, read, exited := [], 0, false;
    ghost var whole := [Welcome] + Session(codes);
    while firstTime || read < |codes|
      invariant read <= |codes|
      invariant firstTime ==> read == 0 && shown == []
      invariant !firstTime ==> whole == shown + Session(codes[read..])
      invariant forall i :: 0 <= i < read ==> !IsExit(codes[i])
      decreases (if firstTime then 1 else 0) + |codes| - read
    {
      if firstTime {
        firstTime := false;
        shown := shown + [Welcome];
      } else {
        var turn := Dispatch(codes[read]);
        SessionAdvance(codes, read, shown, whole);
        read := read + 1;
        match turn
        case None =>
        case Some(Exit) =>
          exited := true;
          break;
        case Some(cmd) =>
          shown := shown + [cmd];
      }
    }
    if !exited {
      assert codes[read..] == [];
    }
  }

  /** One turn of the loop on the key at position i: `whole`, the screens
      still to be shown after `shown`, loses that key's screen. */
  lemma SessionAdvance(codes: seq<int>, i: nat, shown: seq<Command>, whole: seq<Command>)
    requires i < |codes| && whole == shown + Session(codes[i..])
    ensures Dispatch(codes[i]).None? ==> whole == shown + Session(codes[i + 1..])
    ensures Dispatch(codes[i]) == Some(Exit) ==> whole == shown
    ensures Dispatch(codes[i]).Some? && Dispatch(codes[i]).value != Exit ==>
      whole == (shown + [Dispatch(codes[i]).value]) + Session(codes[i + 1..])
  {
    assert codes[i..][1..] == codes[i + 1..];
  }

  /** Keys after the one that ends the loop are never acted on. */
  lemma {:induction false} SessionStopsAtExit(before: seq<int>, x: int, after: seq<int>)
    requires forall i :: 0 <= i < |before| ==> !IsExit(before[i])
    requires IsExit(x)
    ensures Session(before + [x] + after) == Session(before)
  {
    if before == [] {
      assert (before + [x] + after)[0] == x;
    } else {
      assert (before + [x] + after)[1..] == before[1..] + [x] + after;
      SessionStopsAtExit(before[1..], x, after);
    }
  }
}
