/**
 * Literal first-occurrence search with the semantics of Python's
 * `bytes.find` (and of the substring test `needle in hay` on `str`):
 * the least index where the needle occurs verbatim, `0` for an empty
 * needle, `-1` when it never occurs.
 */
module Search {

  /** `needle` occurs verbatim in `hay` starting at index `i`. */
  predicate OccursAt<T(==)>(hay: seq<T>, needle: seq<T>, i: int) {
    0 <= i && i + |needle| <= |hay| && hay[i..i + |needle|] == needle
  }

  /** `needle` occurs somewhere in `hay`. */
  ghost predicate Occurs<T>(hay: seq<T>, needle: seq<T>) {
    exists i :: OccursAt(hay, needle, i)
  }

  /** Scans `hay` from index `start` onwards for the first occurrence of `needle`. */
  function FindFrom<T(==)>(hay: seq<T>, needle: seq<T>, start: nat): (r: int)
    requires start <= |hay|
    ensures r == -1 || start <= r
    ensures r >= 0 ==> OccursAt(hay, needle, r)
    ensures forall j :: start <= j < r ==> !OccursAt(hay, needle, j)
    ensures r == -1 ==> forall j :: start <= j ==> !OccursAt(hay, needle, j)
    decreases |hay| - start
  {
    if start + |needle| > |hay| then -1
    else if hay[start..start + |needle|] == needle then start
    else FindFrom(hay, needle, start + 1)
  }

  /** Python's `hay.find(needle)`. */
  function Find<T(==)>(hay: seq<T>, needle: seq<T>): (r: int)
    ensures -1 <= r
    ensures r >= 0 ==> OccursAt(hay, needle, r)
    ensures forall j :: 0 <= j < r ==> !OccursAt(hay, needle, j)
    ensures r == -1 <==> !Occurs(hay, needle)
  {
    FindFrom(hay, needle, 0)
  }

  /** An empty needle is found at index 0, as in Python. */
  lemma FindEmptyNeedle<T>(hay: seq<T>)
    ensures Find(hay, []) == 0
  {
  }

  /**
   * A needle placed after a prefix, where no occurrence starts inside the
   * prefix, is reported exactly at the prefix length.
   */
  lemma FindAfterPrefix<T>(prefix: seq<T>, needle: seq<T>, suffix: seq<T>)
    requires forall j :: 0 <= j < |prefix| ==> !OccursAt(prefix + needle + suffix, needle, j)
    ensures Find(prefix + needle + suffix, needle) == |prefix|
  {
    var hay := prefix + needle + suffix;
    assert hay[|prefix|..|prefix| + |needle|] == needle;
    assert OccursAt(hay, needle, |prefix|);
  }

  /** A non-empty needle whose first element never appears in the prefix is found right after it. */
  lemma FindAfterForeignPrefix<T>(prefix: seq<T>, needle: seq<T>, suffix: seq<T>)
    requires |needle| > 0
    requires forall j :: 0 <= j < |prefix| ==> prefix[j] != needle[0]
    ensures Find(prefix + needle + suffix, needle) == |prefix|
  {
    var hay := prefix + needle + suffix;
    forall j | 0 <= j < |prefix|
      ensures !OccursAt(hay, needle, j)
    {
      if j + |needle| <= |hay| {
        assert hay[j..j + |needle|][0] == prefix[j];
      }
    }
    FindAfterPrefix(prefix, needle, suffix);
  }
}
