/** The record ids the patient and doctor pages generate: a prefix ("PT-",
    "DR-") followed by 1000 + k, where k is the list length after the addition. */
module Serials {
  import opened Text

  function SerialId(prefix: string, k: nat): string
  {
    prefix + NatToString(1000 + k)
  }

  /** Two serial ids with the same prefix are equal exactly when their numbers are. */
  lemma SerialIdInjective(prefix: string, j: nat, k: nat)
    ensures SerialId(prefix, j) == SerialId(prefix, k) <==> j == k
  {
    if SerialId(prefix, j) == SerialId(prefix, k) {
      assert SerialId(prefix, j)[|prefix|..] == NatToString(1000 + j);
      assert SerialId(prefix, k)[|prefix|..] == NatToString(1000 + k);
      NatToStringInjective(1000 + j, 1000 + k);
    }
  }

  /** The ids prefix-1001, ..., prefix-(1000 + n), in ascending order. */
  function SerialRange(prefix: string, n: nat): seq<string>
  {
    if n == 0 then [] else SerialRange(prefix, n - 1) + [SerialId(prefix, n)]
  }

  lemma {:induction false} SerialRangeMembers(prefix: string, n: nat)
    ensures |SerialRange(prefix, n)| == n
    ensures forall x :: x in SerialRange(prefix, n) <==> exists k :: 1 <= k <= n && x == SerialId(prefix, k)
  {
    if n > 0 {
      SerialRangeMembers(prefix, n - 1);
    }
  }

  ghost predicate Distinct(ids: seq<string>)
  {
    forall i, j :: 0 <= i < j < |ids| ==> ids[i] != ids[j]
  }

  /** No id occurs twice in the range. */
  lemma {:induction false} SerialRangeOnce(prefix: string, n: nat)
    ensures forall x :: multiset(SerialRange(prefix, n))[x] <= 1
  {
    if n > 0 {
      SerialRangeOnce(prefix, n - 1);
      SerialRangeMembers(prefix, n - 1);
      forall k | 1 <= k <= n - 1
        ensures SerialId(prefix, k) != SerialId(prefix, n)
      {
        SerialIdInjective(prefix, k, n);
      }
      assert SerialId(prefix, n) !in SerialRange(prefix, n - 1);
    }
  }

  /** A list whose every element occurs at most once has pairwise distinct entries. */
  lemma OnceIsDistinct(ids: seq<string>)
    requires forall x :: multiset(ids)[x] <= 1
    ensures Distinct(ids)
  {
    forall i, j | 0 <= i < j < |ids|
      ensures ids[i] != ids[j]
    {
      var before, between, after := ids[..i], ids[i + 1..j], ids[j + 1..];
      assert ids == before + [ids[i]] + between + [ids[j]] + after;
      assert multiset(ids) == multiset(before) + multiset{ids[i]} + multiset(between) + multiset{ids[j]} + multiset(after);
      assert multiset(ids)[ids[i]] <= 1;
    }
  }

  /** The list of ids is, up to order, exactly prefix-1001 .. prefix-(1000 + |ids|). */
  ghost predicate Numbered(prefix: string, ids: seq<string>)
  {
    multiset(ids) == multiset(SerialRange(prefix, |ids|))
  }

  /** A numbered list has pairwise distinct ids, and they are exactly the
      serials 1..|ids|. */
  lemma NumberedDistinct(prefix: string, ids: seq<string>)
    requires Numbered(prefix, ids)
    ensures Distinct(ids)
    ensures forall x :: x in ids <==> exists k :: 1 <= k <= |ids| && x == SerialId(prefix, k)
  {
    SerialRangeOnce(prefix, |ids|);
    SerialRangeMembers(prefix, |ids|);
    OnceIsDistinct(ids);
    forall x
      ensures x in ids <==> x in SerialRange(prefix, |ids|)
    {
      assert x in ids <==> x in multiset(ids);
    }
  }

  /** The next generated id is not yet taken. */
  lemma NextIsFresh(prefix: string, ids: seq<string>)
    requires Numbered(prefix, ids)
    ensures SerialId(prefix, |ids| + 1) !in ids
  {
    NumberedDistinct(prefix, ids);
    forall k | 1 <= k <= |ids|
      ensures SerialId(prefix, k) != SerialId(prefix, |ids| + 1)
    {
      SerialIdInjective(prefix, k, |ids| + 1);
    }
  }

  /** Putting the next id in front keeps the list numbered. */
  lemma NumberedPrepend(prefix: string, ids: seq<string>)
    requires Numbered(prefix, ids)
    ensures Numbered(prefix, [SerialId(prefix, |ids| + 1)] + ids)
  {
  }

  /** Putting the next id at the end keeps the list numbered. */
  lemma NumberedAppend(prefix: string, ids: seq<string>)
    requires Numbered(prefix, ids)
    ensures Numbered(prefix, ids + [SerialId(prefix, |ids| + 1)])
  {
  }

  /** The seed ids prefix-1001 .. prefix-1009. */
  lemma SeedId(prefix: string, k: nat)
    requires 1 <= k <= 9
    ensures SerialId(prefix, k) == prefix + "100" + [DigitChar(k)]
  {
    NatToStringSmall(k);
  }

  /** The ids 1001..1000+n in ascending order are numbered. */
  lemma RangeIsNumbered(prefix: string, n: nat)
    ensures Numbered(prefix, SerialRange(prefix, n))
  {
    SerialRangeMembers(prefix, n);
  }

  /** A list holding serial k at position k - 1 is the ascending range. */
  lemma {:induction false} AscendingIsRange(prefix: string, ids: seq<string>)
    requires forall i :: 0 <= i < |ids| ==> ids[i] == SerialId(prefix, i + 1)
    ensures ids == SerialRange(prefix, |ids|)
    decreases |ids|
  {
    if ids != [] {
      AscendingIsRange(prefix, ids[..|ids| - 1]);
    }
  }
}
