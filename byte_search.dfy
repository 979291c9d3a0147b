/**
 * Byte strings and the two searches the extractor relies on: Go's
 * `bytes.Index` (first occurrence) and a suffix-array lookup of every
 * occurrence, sorted ascending (`index/suffixarray` followed by `sort.Ints`).
 * The library algorithms themselves are not modelled, only what they return.
 */
module ByteSearch {

  newtype byte = x: int | 0 <= x < 256

  /** The pattern p occurs in s starting at offset i. */
  predicate MatchAt(s: seq<byte>, p: seq<byte>, i: int)
  {
    0 <= i && i + |p| <= |s| && s[i..i + |p|] == p
  }

  /** Every element is smaller than the next one. */
  predicate StrictlyAscending(xs: seq<nat>)
  {
    forall i, j :: 0 <= i < j < |xs| ==> xs[i] < xs[j]
  }

  /** Go's `bytes.Index(s, sep)`: the first offset at which sep occurs in s, or -1. */
  function Index(s: seq<byte>, sep: seq<byte>): (r: int)
    ensures r == -1 <==> forall j :: !MatchAt(s, sep, j)
    ensures r != -1 ==> 0 <= r && MatchAt(s, sep, r)
    ensures forall j :: 0 <= j < r ==> !MatchAt(s, sep, j)
  {
    IndexFrom(s, sep, 0)
  }

  /** The first occurrence of sep in s at an offset of at least i, or -1. */
  function IndexFrom(s: seq<byte>, sep: seq<byte>, i: nat): (r: int)
    ensures r == -1 ==> forall j :: i <= j ==> !MatchAt(s, sep, j)
    ensures r != -1 ==> i <= r && MatchAt(s, sep, r)
    ensures forall j :: i <= j < r ==> !MatchAt(s, sep, j)
    decreases |s| - i
  {
    if i + |sep| > |s| then -1
    else if s[i..i + |sep|] == sep then i
    else IndexFrom(s, sep, i + 1)
  }

  /**
   * The offsets returned by a suffix-array lookup of every occurrence of p,
   * after sorting. An empty pattern has no occurrences, as the lookup returns nil for it.
   */
  function Occurrences(s: seq<byte>, p: seq<byte>): seq<nat>
  {
    if |p| == 0 then [] else OccurrencesFrom(s, p, 0)
  }

  /** The offsets of p in s that are at least i, ascending. */
  function OccurrencesFrom(s: seq<byte>, p: seq<byte>, i: nat): seq<nat>
    requires |p| > 0
    decreases |s| - i
  {
    if i + |p| > |s| then []
    else (if s[i..i + |p|] == p then [i] else []) + OccurrencesFrom(s, p, i + 1)
  }

  lemma {:induction false} OccurrencesFromSpec(s: seq<byte>, p: seq<byte>, i: nat)
    requires |p| > 0
    ensures forall x :: x in OccurrencesFrom(s, p, i) <==> i <= x && MatchAt(s, p, x)
    ensures StrictlyAscending(OccurrencesFrom(s, p, i))
    decreases |s| - i
  {
    if i + |p| <= |s| {
      OccurrencesFromSpec(s, p, i + 1);
      var rest := OccurrencesFrom(s, p, i + 1);
      var r := OccurrencesFrom(s, p, i);
      assert r == (if s[i..i + |p|] == p then [i] else []) + rest;
      assert forall k :: 0 <= k < |rest| ==> i < rest[k] by {
        forall k | 0 <= k < |rest| ensures i < rest[k] {
          assert rest[k] in rest;
        }
      }
    }
  }

  /**
   * The occurrences are exactly the offsets at which a non-empty p matches,
   * strictly ascending, and there are none exactly when p matches nowhere.
   */
  lemma OccurrencesSpec(s: seq<byte>, p: seq<byte>)
    ensures forall x :: x in Occurrences(s, p) <==> |p| > 0 && MatchAt(s, p, x)
    ensures StrictlyAscending(Occurrences(s, p))
    ensures Occurrences(s, p) == [] <==> |p| == 0 || forall x :: !MatchAt(s, p, x)
  {
    if |p| > 0 {
      OccurrencesFromSpec(s, p, 0);
      if Occurrences(s, p) != [] {
        assert Occurrences(s, p)[0] in Occurrences(s, p);
      }
    }
  }

  /** Two strictly ascending sequences with the same elements are equal. */
  lemma {:induction false} AscendingUnique(a: seq<nat>, b: seq<nat>)
    requires StrictlyAscending(a) && StrictlyAscending(b)
    requires forall x :: x in a <==> x in b
    ensures a == b
    decreases |a|
  {
    if b != [] {
      assert b[0] in a;
    }
    if a != [] {
      assert a[0] in b;
      assert a[0] == b[0];
      forall x
        ensures x in a[1..] <==> x in b[1..]
      {
        if x in a[1..] {
          assert x in a && x != a[0];
        }
        if x in b[1..] {
          assert x in b && x != b[0];
        }
      }
      AscendingUnique(a[1..], b[1..]);
      assert a == [a[0]] + a[1..];
      assert b == [b[0]] + b[1..];
    }
  }

  /** The occurrences of p in s are xs, given exactly where p matches. */
  lemma OccurrencesAre(s: seq<byte>, p: seq<byte>, xs: seq<nat>)
    requires |p| > 0 && StrictlyAscending(xs)
    requires forall x :: MatchAt(s, p, x) <==> x in xs
    ensures Occurrences(s, p) == xs
  {
    OccurrencesSpec(s, p);
    AscendingUnique(Occurrences(s, p), xs);
  }

  /** A pattern with a byte that s does not contain occurs nowhere in s. */
  lemma AbsentByteNoMatch(s: seq<byte>, p: seq<byte>, k: nat)
    requires k < |p| && p[k] !in s
    ensures forall i :: !MatchAt(s, p, i)
  {
    forall i
      ensures !MatchAt(s, p, i)
    {
      if 0 <= i && i + |p| <= |s| {
        assert s[i..i + |p|][k] == s[i + k];
      }
    }
  }

  /**
   * The occurrences of p in s are xs when p matches at every offset of xs
   * and the first byte of p appears in s only at offsets of xs.
   */
  lemma OccurrencesByFirstByte(s: seq<byte>, p: seq<byte>, xs: seq<nat>)
    requires |p| > 0 && StrictlyAscending(xs)
    requires forall x :: x in xs ==> MatchAt(s, p, x)
    requires forall j :: 0 <= j < |s| && s[j] == p[0] ==> j in xs
    ensures Occurrences(s, p) == xs
  {
    forall x
      ensures MatchAt(s, p, x) <==> x in xs
    {
      if MatchAt(s, p, x) {
        assert s[x..x + |p|][0] == s[x];
      }
    }
    OccurrencesAre(s, p, xs);
  }
}
