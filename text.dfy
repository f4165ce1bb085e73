/**
 * The two string operations the source relies on: `lowercased()` applied to a
 * path extension, and `contains` of one string in another.
 */
module Text {

  /** Lower-cases the ASCII capital letters and leaves every other character alone. */
  function ToLowerAscii(c: char): (d: char)
  {
    if 'A' <= c <= 'Z' then (c as int + 32) as char else c
  }

  /** The lower-cased form of a path extension. */
  function Lowercased(s: string): (r: string)
    ensures |r| == |s|
  {
    if s == [] then [] else [ToLowerAscii(s[0])] + Lowercased(s[1..])
  }

  /** The lower-cased form keeps every non-capital and maps each capital to its small letter. */
  lemma {:induction false} LowercasedAt(s: string, i: nat)
    requires i < |s|
    ensures Lowercased(s)[i] == ToLowerAscii(s[i])
    ensures !('A' <= Lowercased(s)[i] <= 'Z')
  {
    if i > 0 {
      LowercasedAt(s[1..], i - 1);
    }
  }

  /** `t` occurs in `s` starting at index `i`. */
  predicate OccursAt<T(==)>(s: seq<T>, t: seq<T>, i: int)
  {
    0 <= i && i + |t| <= |s| && s[i .. i + |t|] == t
  }

  /** `s.contains(t)`: `t` is a contiguous part of `s`, found by trying each start position in turn. */
  function Contains<T(==)>(s: seq<T>, t: seq<T>): (b: bool)
    ensures b <==> exists i :: OccursAt(s, t, i)
    decreases |s|
  {
    if |t| <= |s| && s[..|t|] == t then
      assert OccursAt(s, t, 0);
      true
    else if s == [] then
      false
    else
      var r := Contains(s[1..], t);
      OccurrencesShift(s, t);
      r
  }

  /** Without an occurrence at the head, the occurrences in `s` are those in its tail, one position on. */
  lemma OccurrencesShift<T>(s: seq<T>, t: seq<T>)
    requires s != [] && !(|t| <= |s| && s[..|t|] == t)
    ensures (exists i :: OccursAt(s, t, i)) <==> (exists j :: OccursAt(s[1..], t, j))
  {
    if exists i :: OccursAt(s, t, i) {
      var i :| OccursAt(s, t, i);
      assert i != 0;
      assert s[1..][i - 1 .. i - 1 + |t|] == s[i .. i + |t|];
      assert OccursAt(s[1..], t, i - 1);
    }
    if exists j :: OccursAt(s[1..], t, j) {
      var j :| OccursAt(s[1..], t, j);
      assert s[j + 1 .. j + 1 + |t|] == s[1..][j .. j + |t|];
      assert OccursAt(s, t, j + 1);
    }
  }

  /** An occurrence of `t` in `s` is one in every sequence that has `s` as a part. */
  lemma ContainsInLarger<T>(pre: seq<T>, s: seq<T>, post: seq<T>, t: seq<T>)
    requires Contains(s, t)
    ensures Contains(pre + s + post, t)
  {
    var i :| OccursAt(s, t, i);
    assert (pre + s + post)[|pre| + i .. |pre| + i + |t|] == s[i .. i + |t|];
    assert OccursAt(pre + s + post, t, |pre| + i);
  }

  /** Every element of an occurring part is an element of the whole. */
  lemma ContainsElements<T>(s: seq<T>, t: seq<T>, x: T)
    requires Contains(s, t) && x in t
    ensures x in s
  {
    var i :| OccursAt(s, t, i);
    var k :| 0 <= k < |t| && t[k] == x;
    assert s[i + k] == s[i .. i + |t|][k];
  }

  /** A part of an occurring part occurs. */
  lemma ContainsTransitive<T>(s: seq<T>, t: seq<T>, u: seq<T>)
    requires Contains(s, t) && Contains(t, u)
    ensures Contains(s, u)
  {
    var i :| OccursAt(s, t, i);
    var j :| OccursAt(t, u, j);
    forall k | 0 <= k < |u| ensures s[i + j + k] == u[k] {
      assert s[i + j + k] == s[i .. i + |t|][j + k];
      assert u[k] == t[j .. j + |u|][k];
    }
    assert s[i + j .. i + j + |u|] == u;
    assert OccursAt(s, u, i + j);
  }

  /** A part that has an element the whole lacks does not occur in it. */
  lemma MissingElement<T>(s: seq<T>, t: seq<T>, x: T)
    requires x in t && x !in s
    ensures !Contains(s, t)
  {
    if Contains(s, t) {
      ContainsElements(s, t, x);
    }
  }

  /** A two-element part occurs only where its two elements stand side by side. */
  lemma PairAt<T>(s: seq<T>, a: T, b: T, i: int)
    ensures OccursAt(s, [a, b], i) ==> 0 <= i < |s| - 1 && s[i] == a && s[i + 1] == b
  {
    if OccursAt(s, [a, b], i) {
      assert s[i] == s[i .. i + 2][0] && s[i + 1] == s[i .. i + 2][1];
    }
  }

  lemma NoAdjacentPair<T>(s: seq<T>, a: T, b: T)
    requires forall i :: 0 <= i < |s| - 1 ==> !(s[i] == a && s[i + 1] == b)
    ensures !Contains(s, [a, b])
  {
    forall i ensures !OccursAt(s, [a, b], i) {
      PairAt(s, a, b, i);
    }
  }
}
