/** The few pieces of std::string and <iomanip> that the catalogue relies on:
    string ordering, find_last_of, and right-justified padding by std::setw. */
module StdString {

  function Max(a: int, b: int): int
  {
    if a < b then b else a
  }

  /** What std::string::find_last_of reports: an index, or npos when the
      character does not occur. */
  datatype Position = Npos | At(index: nat)

  /** The last index of `c` in `s`, or Npos. */
  function FindLastOf(s: string, c: char): (p: Position)
    ensures p.At? ==> p.index < |s| && s[p.index] == c
    ensures p.At? ==> forall k :: p.index < k < |s| ==> s[k] != c
    ensures p.Npos? ==> forall k :: 0 <= k < |s| ==> s[k] != c
  {
    if |s| == 0 then Npos
    else if s[|s| - 1] == c then At(|s| - 1)
    else FindLastOf(s[..|s| - 1], c)
  }

  /** std::string's operator<: lexicographic on character codes, where a
      proper prefix is smaller (char_traits<char>::lt compares codes).
      Dafny's own `<` on sequences means "proper prefix" only, so it is not
      used for strings. */
  predicate Less(a: string, b: string): (r: bool)
    ensures |a| < |b| && a == b[..|a|] ==> r
  {
    if |a| == 0 then |b| > 0
    else if |b| == 0 then false
    else if a[0] == b[0] then Less(a[1..], b[1..])
    else a[0] < b[0]
  }

  /** `a` and `b` agree before position k, and a[k] < b[k]. */
  predicate FirstDifferenceLess(a: string, b: string, k: nat)
  {
    k < |a| && k < |b| && a[..k] == b[..k] && a[k] < b[k]
  }

  /** The textbook definition of lexicographic order, which Less meets. */
  lemma {:induction false} LessIsLexicographic(a: string, b: string)
    ensures Less(a, b) <==>
              (|a| < |b| && a == b[..|a|]) || exists k: nat :: FirstDifferenceLess(a, b, k)
    decreases |a|
  {
    if |a| == 0 {
      forall k: nat | FirstDifferenceLess(a, b, k) ensures false { }
    } else if |b| == 0 {
      forall k: nat | FirstDifferenceLess(a, b, k) ensures false { }
    } else if a[0] == b[0] {
      var a', b' := a[1..], b[1..];
      LessIsLexicographic(a', b');
      assert (|a| < |b| && a == b[..|a|]) <==> (|a'| < |b'| && a' == b'[..|a'|]) by {
        if |a'| < |b'| && a' == b'[..|a'|] {
          assert a == [a[0]] + a' && b[..|a|] == [b[0]] + b'[..|a'|];
        }
        if |a| < |b| && a == b[..|a|] {
          assert a' == a[1..] == b[..|a|][1..] == b'[..|a'|];
        }
      }
      if k: nat :| FirstDifferenceLess(a', b', k) {
        assert a[..k + 1] == [a[0]] + a'[..k] && b[..k + 1] == [b[0]] + b'[..k];
        assert FirstDifferenceLess(a, b, k + 1);
      }
      if k: nat :| FirstDifferenceLess(a, b, k) {
        assert k != 0;
        assert a'[..k - 1] == a[..k][1..] == b[..k][1..] == b'[..k - 1];
        assert FirstDifferenceLess(a', b', k - 1);
      }
    } else {
      assert a[..1] != b[..1] by { assert a[..1][0] == a[0]; }
      if a[0] < b[0] {
        assert FirstDifferenceLess(a, b, 0);
      }
      forall k: nat | FirstDifferenceLess(a, b, k) ensures k == 0 {
      }
    }
  }

  lemma {:induction false} LessIrreflexive(a: string)
    ensures !Less(a, a)
    decreases |a|
  {
    if |a| > 0 {
      LessIrreflexive(a[1..]);
    }
  }

  lemma {:induction false} LessTransitive(a: string, b: string, c: string)
    requires Less(a, b) && Less(b, c)
    ensures Less(a, c)
    decreases |a|
  {
    if |a| > 0 && a[0] == b[0] && b[0] == c[0] {
      LessTransitive(a[1..], b[1..], c[1..]);
    }
  }

  lemma {:induction false} LessTrichotomous(a: string, b: string)
    ensures Less(a, b) || Less(b, a) || a == b
    decreases |a|
  {
    if |a| > 0 && |b| > 0 && a[0] == b[0] {
      LessTrichotomous(a[1..], b[1..]);
      if a[1..] == b[1..] {
        assert a == [a[0]] + a[1..] && b == [b[0]] + b[1..];
      }
    }
  }

  lemma LessAsymmetric(a: string, b: string)
    requires Less(a, b)
    ensures !Less(b, a)
  {
    if Less(b, a) {
      LessTransitive(a, b, a);
      LessIrreflexive(a);
    }
  }

  /** `s` written to a stream after `std::right << std::setw(width)`: blanks
      are put in front until the width is reached, and a string longer than
      the width (or any string when the width is zero or negative) is
      written whole. */
  function PadLeft(s: string, width: int): (r: string)
    ensures |r| == Max(|s|, width)
    ensures r[|r| - |s|..] == s
    ensures forall i :: 0 <= i < |r| - |s| ==> r[i] == ' '
    decreases width - |s|
  {
    if width > |s| then [' '] + PadLeft(s, width - 1) else s
  }
}
