/**
 * The JavaScript string operations the application relies on, restricted to
 * ASCII where the browser's versions are Unicode-aware: `toLowerCase`,
 * `includes`, `split` on one character, `join`, `trim` and number formatting.
 */
module Strings {

  /** `toLowerCase` on one character (ASCII letters only). */
  function LowerChar(c: char): (r: char)
    ensures !('A' <= r <= 'Z')
    ensures !('A' <= c <= 'Z') ==> r == c
    ensures 'A' <= c <= 'Z' ==> r as int - c as int == 32
  {
    if 'A' <= c <= 'Z' then (c as int + 32) as char else c
  }

  /** `s.toLowerCase()`, character by character. */
  function Lower(s: string): (r: string)
    ensures |r| == |s|
    ensures forall i :: 0 <= i < |s| ==> r[i] == LowerChar(s[i])
  {
    seq(|s|, i requires 0 <= i < |s| => LowerChar(s[i]))
  }

  /** Lower-casing twice is lower-casing once. */
  lemma LowerIdempotent(s: string)
    ensures Lower(Lower(s)) == Lower(s)
  {
  }

  /** `needle` sits in `hay` starting at position `i`. */
  predicate OccursAt(hay: string, needle: string, i: int) {
    0 <= i && i + |needle| <= |hay| && hay[i..i + |needle|] == needle
  }

  /** `hay.includes(needle)`: never true of a needle longer than the hay. */
  predicate Contains(hay: string, needle: string)
    ensures Contains(hay, needle) ==> |needle| <= |hay|
  {
    exists i | 0 <= i <= |hay| - |needle| :: OccursAt(hay, needle, i)
  }

  /** What occurs in a part occurs in the whole. */
  lemma ContainsTransitive(a: string, b: string, c: string)
    requires Contains(a, b) && Contains(b, c)
    ensures Contains(a, c)
  {
    var i :| 0 <= i <= |a| - |b| && OccursAt(a, b, i);
    var j :| 0 <= j <= |b| - |c| && OccursAt(b, c, j);
    forall k | 0 <= k < |c| ensures a[i + j + k] == c[k] {
      assert b[j..j + |c|][k] == c[k];
      assert a[i..i + |b|][j + k] == b[j + k];
    }
    assert a[i + j..i + j + |c|] == c;
    assert OccursAt(a, c, i + j);
  }

  /** Lower-casing both sides keeps an occurrence. */
  lemma ContainsLower(a: string, b: string)
    requires Contains(a, b)
    ensures Contains(Lower(a), Lower(b))
  {
    var i :| 0 <= i <= |a| - |b| && OccursAt(a, b, i);
    assert Lower(a)[i..i + |b|] == Lower(b) by {
      forall k | 0 <= k < |b| ensures Lower(a)[i..i + |b|][k] == Lower(b)[k] {
        assert a[i..i + |b|][k] == b[k];
      }
    }
    assert OccursAt(Lower(a), Lower(b), i);
  }

  /** Every string includes the empty string, and itself. */
  lemma ContainsTrivial(s: string)
    ensures Contains(s, "")
    ensures Contains(s, s)
  {
    assert OccursAt(s, "", 0);
    assert OccursAt(s, s, 0);
  }

  /** A string includes each part it is built from. */
  lemma ContainsMiddle(a: string, b: string, c: string)
    ensures Contains(a + b + c, b)
  {
    assert (a + b + c)[|a|..|a| + |b|] == b;
    assert OccursAt(a + b + c, b, |a|);
  }

  /** `pieces.join(sep)`: an empty array joins to "", one piece to itself. */
  function Join(pieces: seq<string>, sep: string): (r: string)
    ensures |pieces| > 0 ==> |pieces[0]| <= |r| && r[..|pieces[0]|] == pieces[0]
  {
    if |pieces| == 0 then ""
    else if |pieces| == 1 then pieces[0]
    else pieces[0] + sep + Join(pieces[1..], sep)
  }

  /** What occurs in a string occurs in any longer string ending with it. */
  lemma ContainsInSuffix(a: string, b: string, w: string)
    requires Contains(b, w)
    ensures Contains(a + b, w)
  {
    var i :| 0 <= i <= |b| - |w| && OccursAt(b, w, i);
    assert (a + b)[|a| + i..|a| + i + |w|] == b[i..i + |w|];
    assert OccursAt(a + b, w, |a| + i);
  }

  /** What occurs in a string occurs in any longer string starting with it. */
  lemma ContainsInPrefix(a: string, b: string, w: string)
    requires Contains(a, w)
    ensures Contains(a + b, w)
  {
    var i :| 0 <= i <= |a| - |w| && OccursAt(a, w, i);
    assert (a + b)[i..i + |w|] == a[i..i + |w|];
    assert OccursAt(a + b, w, i);
  }

  /** Every piece occurs in the joined string. */
  lemma {:induction false} JoinContainsPiece(pieces: seq<string>, sep: string, k: nat)
    requires k < |pieces|
    ensures Contains(Join(pieces, sep), pieces[k])
  {
    if |pieces| == 1 {
      ContainsTrivial(pieces[0]);
    } else if k == 0 {
      var rest := Join(pieces[1..], sep);
      ContainsMiddle("", pieces[0], sep + rest);
      assert "" + pieces[0] + (sep + rest) == pieces[0] + sep + rest;
    } else {
      JoinContainsPiece(pieces[1..], sep, k - 1);
      ContainsInSuffix(pieces[0] + sep, Join(pieces[1..], sep), pieces[k]);
    }
  }

  /**
   * `s.split(sep)` for a one-character separator: the pieces between
   * consecutive separators, so "" splits into [""] and "a  b" on ' ' into
   * ["a", "", "b"].
   */
  function Split(s: string, sep: char): (pieces: seq<string>)
    ensures |pieces| > 0
    ensures forall k :: 0 <= k < |pieces| ==> sep !in pieces[k]
    ensures Join(pieces, [sep]) == s
    decreases |s|
  {
    if s == [] then [""]
    else
      var rest := Split(s[1..], sep);
      if s[0] == sep then
        assert [sep] + Join(rest, [sep]) == s;
        [""] + rest
      else
        JoinConsFirst(s[0], rest, [sep]);
        assert [s[0]] + Join(rest, [sep]) == s;
        [[s[0]] + rest[0]] + rest[1..]
  }

  /** Prefixing the first piece prefixes the joined string. */
  lemma JoinConsFirst(c: char, pieces: seq<string>, sep: string)
    requires |pieces| > 0
    ensures Join([[c] + pieces[0]] + pieces[1..], sep) == [c] + Join(pieces, sep)
  {
    var p := [[c] + pieces[0]] + pieces[1..];
    assert p[1..] == pieces[1..];
  }

  /**
   * Splitting undoes joining: any non-empty list of pieces free of the
   * separator comes back from `split` unchanged.
   */
  lemma {:induction false} SplitJoin(pieces: seq<string>, sep: char)
    requires |pieces| > 0
    requires forall k :: 0 <= k < |pieces| ==> sep !in pieces[k]
    ensures Split(Join(pieces, [sep]), sep) == pieces
    decreases |pieces|, |pieces[0]|
  {
    var p0 := pieces[0];
    if p0 == [] {
      if |pieces| == 1 {
      } else {
        var tail := pieces[1..];
        SplitJoin(tail, sep);
        assert Join(pieces, [sep]) == [sep] + Join(tail, [sep]);
        assert pieces == [""] + tail;
      }
    } else {
      var shorter := [p0[1..]] + pieces[1..];
      assert shorter[1..] == pieces[1..];
      assert forall k :: 0 <= k < |shorter| ==> sep !in shorter[k] by {
        forall k | 0 <= k < |shorter| ensures sep !in shorter[k] {
          if k == 0 {
            assert forall x :: x in p0[1..] ==> x in p0;
          }
        }
      }
      SplitJoin(shorter, sep);
      JoinConsFirst(p0[0], shorter, [sep]);
      assert [p0[0]] + shorter[0] == p0;
      assert [[p0[0]] + shorter[0]] + shorter[1..] == pieces;
      var s := Join(pieces, [sep]);
      assert s == [p0[0]] + Join(shorter, [sep]);
      assert s[1..] == Join(shorter, [sep]);
      assert s[0] == p0[0] && s[0] != sep;
    }
  }

  /** The white-space characters `trim` removes (ASCII: space, \t, \n, \v, \f, \r). */
  predicate IsSpace(c: char) {
    c == ' ' || '\t' <= c <= '\r'
  }

  /** Number of white-space characters at the start of `s`. */
  function LeadingSpaces(s: string): (n: nat)
    ensures n <= |s|
    ensures forall i :: 0 <= i < n ==> IsSpace(s[i])
    ensures n < |s| ==> !IsSpace(s[n])
  {
    if s != [] && IsSpace(s[0]) then 1 + LeadingSpaces(s[1..]) else 0
  }

  /** Number of white-space characters at the end of `s`. */
  function TrailingSpaces(s: string): (n: nat)
    ensures n <= |s|
    ensures forall i :: |s| - n <= i < |s| ==> IsSpace(s[i])
    ensures n < |s| ==> !IsSpace(s[|s| - n - 1])
  {
    if s != [] && IsSpace(s[|s| - 1]) then 1 + TrailingSpaces(s[..|s| - 1]) else 0
  }

  /**
   * `s.trim()`: `s` without leading and trailing white space. It is empty
   * exactly when `s` is all white space; otherwise it starts and ends with
   * a character that is not white space. It sits in `s` with only white
   * space before and after it.
   */
  function Trim(s: string): (r: string)
    ensures r == "" <==> forall i :: 0 <= i < |s| ==> IsSpace(s[i])
    ensures r != "" ==> !IsSpace(r[0]) && !IsSpace(r[|r| - 1])
    ensures exists i :: OccursAt(s, r, i)
    ensures exists i :: OccursAt(s, r, i) && (forall j :: 0 <= j < i ==> IsSpace(s[j]))
                        && (forall j :: i + |r| <= j < |s| ==> IsSpace(s[j]))
  {
    var a := LeadingSpaces(s);
    var rest := s[a..];
    var r := rest[..|rest| - TrailingSpaces(rest)];
    assert OccursAt(s, r, a);
    r
  }

  /** The decimal digit for 0 <= d < 10. */
  function DigitChar(d: nat): (c: char)
    requires d < 10
    ensures '0' <= c <= '9'
    ensures c as int - '0' as int == d
  {
    ('0' as int + d) as char
  }

  /** The value of a string of decimal digits. */
  function DecimalValue(s: string): nat
    requires forall i :: 0 <= i < |s| ==> '0' <= s[i] <= '9'
  {
    if s == [] then 0
    else 10 * DecimalValue(s[..|s| - 1]) + (s[|s| - 1] as int - '0' as int)
  }

  /** A natural number in decimal, as a template literal renders it (no leading zeros). */
  function NatToString(n: nat): (r: string)
    ensures |r| > 0
    ensures forall i :: 0 <= i < |r| ==> '0' <= r[i] <= '9'
    ensures DecimalValue(r) == n
    ensures r[0] == '0' ==> n == 0 && r == "0"
  {
    if n < 10 then [DigitChar(n)]
    else
      var r := NatToString(n / 10) + [DigitChar(n % 10)];
      assert r[..|r| - 1] == NatToString(n / 10);
      r
  }

  /** An integer in decimal, with a leading '-' when negative. */
  function IntToString(i: int): (r: string)
    ensures |r| > 0
    ensures r[0] == '-' <==> i < 0
    ensures i >= 0 ==> (forall k :: 0 <= k < |r| ==> '0' <= r[k] <= '9') && DecimalValue(r) == i
    ensures i < 0 ==> (forall k :: 1 <= k < |r| ==> '0' <= r[k] <= '9') && DecimalValue(r[1..]) == -i
    ensures i >= 0 && r[0] == '0' ==> r == "0"
    ensures i < 0 ==> |r| >= 2 && r[1] != '0'
  {
    if i < 0 then
      var r := "-" + NatToString(-i);
      assert r[1..] == NatToString(-i);
      r
    else NatToString(i)
  }
}
