/**
 * String operations of the numeric normaliser and of the column classifier:
 * Python's `str.replace` with a one-character pattern, `str.lower` and the
 * substring test `p in s`.
 */
module Strings {

  /** Number of occurrences of `c` in `s`. */
  function Count(s: string, c: char): (n: nat)
    ensures n <= |s|
  {
    if s == [] then 0 else (if s[0] == c then 1 else 0) + Count(s[1..], c)
  }

  lemma {:induction false} CountConcat(a: string, b: string, c: char)
    ensures Count(a + b, c) == Count(a, c) + Count(b, c)
    decreases |a|
  {
    if a == [] {
      assert a + b == b;
    } else {
      assert (a + b)[0] == a[0];
      assert (a + b)[1..] == a[1..] + b;
      CountConcat(a[1..], b, c);
    }
  }

  /** `s.replace(c, '')`: every occurrence of `c` deleted. */
  function RemoveAll(s: string, c: char): (r: string)
    ensures |r| == |s| - Count(s, c)
    ensures Count(r, c) == 0
  {
    if s == [] then []
    else if s[0] == c then RemoveAll(s[1..], c)
    else
      var rest := RemoveAll(s[1..], c);
      assert ([s[0]] + rest)[1..] == rest;
      [s[0]] + rest
  }

  /** Deleting `c` keeps every other character as often as it was. */
  lemma {:induction false} RemoveAllKeepsOthers(s: string, c: char, x: char)
    requires x != c
    ensures Count(RemoveAll(s, c), x) == Count(s, x)
    decreases |s|
  {
    if s != [] {
      RemoveAllKeepsOthers(s[1..], c, x);
      if s[0] != c {
        assert ([s[0]] + RemoveAll(s[1..], c))[1..] == RemoveAll(s[1..], c);
      }
    }
  }

  /** Deleting distributes over concatenation, so `RemoveAll` keeps the order of what it keeps. */
  lemma {:induction false} RemoveAllConcat(a: string, b: string, c: char)
    ensures RemoveAll(a + b, c) == RemoveAll(a, c) + RemoveAll(b, c)
    decreases |a|
  {
    if a == [] {
      assert a + b == b;
    } else {
      assert (a + b)[0] == a[0];
      assert (a + b)[1..] == a[1..] + b;
      RemoveAllConcat(a[1..], b, c);
      if a[0] != c {
        assert [a[0]] + RemoveAll(a[1..], c) + RemoveAll(b, c) == [a[0]] + (RemoveAll(a[1..], c) + RemoveAll(b, c));
      }
    }
  }

  /** A string without `c` is left as it is. */
  lemma {:induction false} RemoveAllAbsent(s: string, c: char)
    requires Count(s, c) == 0
    ensures RemoveAll(s, c) == s
    decreases |s|
  {
    if s != [] {
      RemoveAllAbsent(s[1..], c);
    }
  }

  /** Deleting every `.` from a lone `.` leaves nothing. */
  lemma RemoveAllPoint()
    ensures RemoveAll(".", '.') == ""
  {
    assert "."[1..] == "";
  }

  /** `s.replace(c, d)`: every occurrence of `c` becomes `d`, nothing else moves. */
  function ReplaceAll(s: string, c: char, d: char): (r: string)
    ensures |r| == |s|
    ensures forall i :: 0 <= i < |s| ==> r[i] == (if s[i] == c then d else s[i])
  {
    seq(|s|, i requires 0 <= i < |s| => if s[i] == c then d else s[i])
  }

  /** A string without `c` is fixed by replacing `c`. */
  lemma ReplaceAllAbsent(s: string, c: char, d: char)
    requires forall i :: 0 <= i < |s| ==> s[i] != c
    ensures ReplaceAll(s, c, d) == s
  {
  }

  lemma {:induction false} ReplaceAllCount(s: string, c: char, d: char)
    requires c != d
    ensures Count(ReplaceAll(s, c, d), c) == 0
    ensures Count(ReplaceAll(s, c, d), d) == Count(s, d) + Count(s, c)
    decreases |s|
  {
    if s != [] {
      assert ReplaceAll(s, c, d)[1..] == ReplaceAll(s[1..], c, d);
      ReplaceAllCount(s[1..], c, d);
    }
  }

  lemma ReplaceAllConcat(a: string, b: string, c: char, d: char)
    ensures ReplaceAll(a + b, c, d) == ReplaceAll(a, c, d) + ReplaceAll(b, c, d)
  {
  }

  /**
   * The two textual steps of the normaliser on one cell: thousands
   * separators `.` deleted, then the decimal comma `,` turned into `.`.
   */
  function Rewrite(s: string): string {
    ReplaceAll(RemoveAll(s, '.'), ',', '.')
  }

  /**
   * What the rewrite does to the separators: no comma is left, there is one
   * point per comma of the input, and the string is shorter by the number of
   * points the input had.
   */
  lemma RewriteCounts(s: string)
    ensures Count(Rewrite(s), ',') == 0
    ensures Count(Rewrite(s), '.') == Count(s, ',')
    ensures |Rewrite(s)| == |s| - Count(s, '.')
  {
    RemoveAllKeepsOthers(s, '.', ',');
    ReplaceAllCount(RemoveAll(s, '.'), ',', '.');
  }

  /** `p` occurs in `s` starting at position `i`. */
  predicate OccursAt(s: string, p: string, i: nat) {
    i + |p| <= |s| && s[i..i + |p|] == p
  }

  /** The rewrite of `1.5` and `abc`: a lone point is deleted as if it grouped thousands. */
  lemma RewriteExamplesShort()
    ensures Rewrite("1.5") == "15"
    ensures Rewrite("abc") == "abc"
  {
  }

  /** Python's `p in s` for strings: `p` occurs in `s` at some position. */
  function Contains(s: string, p: string): (b: bool)
    ensures b <==> exists i: nat :: OccursAt(s, p, i)
    decreases |s|
  {
    if |p| > |s| then false
    else if OccursAt(s, p, 0) then true
    else
      var b := Contains(s[1..], p);
      assert b ==> exists i: nat :: OccursAt(s, p, i) by {
        if b {
          var i: nat :| OccursAt(s[1..], p, i);
          assert s[1..][i..i + |p|] == s[i + 1..i + 1 + |p|];
          assert OccursAt(s, p, i + 1);
        }
      }
      assert (exists i: nat :: OccursAt(s, p, i)) ==> b by {
        if exists i: nat :: OccursAt(s, p, i) {
          var i: nat :| OccursAt(s, p, i);
          assert i != 0;
          assert s[1..][i - 1..i - 1 + |p|] == s[i..i + |p|];
          assert OccursAt(s[1..], p, i - 1);
        }
      }
      b
  }

  /** Upper-case letters of Latin-1 (A-Z and the accented capitals U+00C0..U+00DE except U+00D7). */
  predicate IsUpper(c: char) {
    ('A' <= c <= 'Z') || ('\U{C0}' <= c <= '\U{DE}' && c != '\U{D7}')
  }

  /**
   * Python's `str.lower` on one character of Latin-1: each capital becomes
   * the small letter 32 code points above it, every other character stays.
   */
  function LowerChar(c: char): (r: char)
    ensures !IsUpper(r)
    ensures IsUpper(c) ==> r as int == c as int + 32
    ensures !IsUpper(c) ==> r == c
  {
    if IsUpper(c) then (c as int + 32) as char else c
  }

  /** Python's `str.lower`, character by character. */
  function Lower(s: string): (r: string)
    ensures |r| == |s|
    ensures forall i :: 0 <= i < |s| ==> r[i] == LowerChar(s[i])
  {
    seq(|s|, i requires 0 <= i < |s| => LowerChar(s[i]))
  }

  /** Lowering twice is lowering once. */
  lemma LowerIdempotent(s: string)
    ensures Lower(Lower(s)) == Lower(s)
  {
  }
}
