/**
 * The point-set filter of the swap engine: a 68-point landmark set loses
 * 24 fixed indices (the two outer jaw points, both brows and both eyes)
 * and keeps the other 44 in their original order.
 */
module LandmarkFilter {
  import opened Wrappers
  import opened IndexLists

  /** The 24 indices the filter drops, as the engine lists them. */
  const IndicesToRemove: seq<nat> :=
    [0, 16, 17, 18, 19, 20, 21, 22, 23, 24, 25, 26, 36, 37, 38, 39, 40, 41, 42, 43, 44, 45, 46, 47]

  /** The 44 indices that survive, in increasing order: 1-15, 27-35 and 48-67. */
  const KeptIndices: seq<nat> := Range(1, 16) + Range(27, 36) + Range(48, 68)

  const LengthMessage: string := "Input list must have exactly 68 elements"

  /** The items `s[k]` for `k >= i` whose index is not in `removed` (the comprehension over `enumerate`). */
  function KeepUnlisted<T>(s: seq<T>, removed: seq<nat>, i: nat): seq<T>
    decreases |s| - i
  {
    if i >= |s| then []
    else (if i in removed then [] else [s[i]]) + KeepUnlisted(s, removed, i + 1)
  }

  /** The indices in `[i, n)` that are not in `removed`, in increasing order. */
  function KeptBetween(removed: seq<nat>, i: nat, n: nat): seq<nat>
    decreases n - i
  {
    if i >= n then []
    else (if i in removed then [] else [i]) + KeptBetween(removed, i + 1, n)
  }

  /**
   * `remove_specific_elements`: fails unless the input has exactly 68
   * items; otherwise returns the 44 items at `KeptIndices`, in order.
   */
  function RemoveSpecificElements<T>(input: seq<T>): (r: Result<seq<T>, string>)
    ensures r.Failure? <==> |input| != 68
    ensures r.Failure? ==> r.error == LengthMessage
    ensures r.Success? ==>
              |r.value| == 44 && forall i :: 0 <= i < 44 ==> r.value[i] == input[KeptIndices[i]]
  {
    if |input| != 68 then Failure(LengthMessage)
    else
      KeepUnlistedSelects(input, IndicesToRemove, 0);
      KeptIndicesComputed();
      Success(KeepUnlisted(input, IndicesToRemove, 0))
  }

  /** The comprehension picks exactly the items at the kept indices, in the kept order. */
  lemma {:induction false} KeepUnlistedSelects<T>(s: seq<T>, removed: seq<nat>, i: nat)
    ensures var ks := KeptBetween(removed, i, |s|);
            |KeepUnlisted(s, removed, i)| == |ks| &&
            forall j :: 0 <= j < |ks| ==> ks[j] < |s| && KeepUnlisted(s, removed, i)[j] == s[ks[j]]
    decreases |s| - i
  {
    if i < |s| {
      KeepUnlistedSelects(s, removed, i + 1);
      KeptBetweenBounds(removed, i + 1, |s|);
    }
  }

  /** Every index `KeptBetween(removed, i, n)` lists lies in `[i, n)`. */
  lemma {:induction false} KeptBetweenBounds(removed: seq<nat>, i: nat, n: nat)
    ensures forall j :: 0 <= j < |KeptBetween(removed, i, n)| ==> i <= KeptBetween(removed, i, n)[j] < n
    decreases n - i
  {
    if i < n {
      KeptBetweenBounds(removed, i + 1, n);
    }
  }

  /**
   * `KeptBetween` lists an index exactly when it is in range and not
   * removed, and lists them in strictly increasing order.
   */
  lemma {:induction false} KeptBetweenMembers(removed: seq<nat>, i: nat, n: nat)
    ensures forall k :: k in KeptBetween(removed, i, n) <==> i <= k < n && k !in removed
    ensures Increasing(KeptBetween(removed, i, n))
    decreases n - i
  {
    if i < n {
      KeptBetweenMembers(removed, i + 1, n);
      KeptBetweenBounds(removed, i + 1, n);
      var head := if i in removed then [] else [i];
      assert KeptBetween(removed, i, n) == head + KeptBetween(removed, i + 1, n);
    }
  }

  /** Two strictly increasing index lists with the same members are equal. */
  lemma {:induction false} IncreasingUnique(s: seq<nat>, t: seq<nat>)
    requires Increasing(s) && Increasing(t)
    requires forall k :: k in s <==> k in t
    ensures s == t
    decreases |s|
  {
    if s != [] { assert s[0] in t; }
    if t != [] { assert t[0] in s; }
    if s != [] && t != [] {
      assert s[0] in t && t[0] in s;
      assert s[0] == t[0];
      forall k ensures k in s[1..] <==> k in t[1..] {
        if k in s[1..] { assert k in s && k != t[0]; }
        if k in t[1..] { assert k in t && k != s[0]; }
      }
      IncreasingUnique(s[1..], t[1..]);
      assert s == [s[0]] + s[1..] && t == [t[0]] + t[1..];
    }
  }

  /** The removal list, read as ranges: 0, 16-26 and 36-47. */
  lemma RemovedRanges()
    ensures forall k: nat :: k in IndicesToRemove <==> k == 0 || 16 <= k < 27 || 36 <= k < 48
  {
    forall k: nat ensures k in IndicesToRemove <==> k == 0 || 16 <= k < 27 || 36 <= k < 48 {
      if k in IndicesToRemove {
        var j :| 0 <= j < |IndicesToRemove| && IndicesToRemove[j] == k;
      }
    }
  }

  /**
   * The kept indices are exactly the indices below 68 that are not listed
   * for removal, in strictly increasing order: so the filter's output keeps
   * the original relative order of the landmarks.
   */
  lemma KeptIndicesAreComplement()
    ensures |KeptIndices| == 44 && |IndicesToRemove| == 24
    ensures Increasing(KeptIndices)
    ensures forall k: nat :: k in KeptIndices <==> k < 68 && k !in IndicesToRemove
  {
    RangeMembers(1, 16);
    RangeMembers(27, 36);
    RangeMembers(48, 68);
    RemovedRanges();
    forall k: nat ensures k in KeptIndices <==> k < 68 && k !in IndicesToRemove {
      assert k in KeptIndices <==> k in Range(1, 16) || k in Range(27, 36) || k in Range(48, 68);
    }
  }

  lemma KeptIndicesComputed()
    ensures KeptBetween(IndicesToRemove, 0, 68) == KeptIndices
  {
    KeptBetweenMembers(IndicesToRemove, 0, 68);
    KeptIndicesAreComplement();
    IncreasingUnique(KeptBetween(IndicesToRemove, 0, 68), KeptIndices);
  }

  /** An item of a 68-point set survives the filter exactly when its index is not listed for removal. */
  lemma RemoveSpecificElementsKeeps<T>(input: seq<T>, k: nat)
    requires |input| == 68 && k < 68
    ensures k !in IndicesToRemove <==>
              exists i :: 0 <= i < 44 && KeptIndices[i] == k &&
                          RemoveSpecificElements(input).value[i] == input[k]
  {
    KeptIndicesAreComplement();
    if k !in IndicesToRemove {
      assert k in KeptIndices;
      var i :| 0 <= i < |KeptIndices| && KeptIndices[i] == k;
    }
  }
}
