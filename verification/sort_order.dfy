// Orders, and sequences in which a range has been permuted.
module SortOrder {
  import opened Common

  // A comparison between values that are known by a number.
  type Less = (int, int) -> bool

  ghost predicate Asymmetric(lt: Less) {
    forall x, y :: lt(x, y) ==> !lt(y, x)
  }

  ghost predicate NegTransitive(lt: Less) {
    forall x, y, z :: !lt(x, y) && !lt(y, z) ==> !lt(x, z)
  }

  // A strict weak order, such as '<' on numbers or on keys of records.
  ghost predicate StrictWeak(lt: Less) {
    Asymmetric(lt) && NegTransitive(lt)
  }

  lemma NotBoth(lt: Less, x: int, y: int)
    requires Asymmetric(lt) && lt(x, y)
    ensures !lt(y, x)
  {
  }

  lemma NotSelf(lt: Less, x: int)
    requires Asymmetric(lt)
    ensures !lt(x, x)
  {
  }

  lemma NotThrough(lt: Less, x: int, y: int, z: int)
    requires NegTransitive(lt) && !lt(x, y) && !lt(y, z)
    ensures !lt(x, z)
  {
  }

  ghost predicate NoneAbove(lt: Less, s: seq<int>, lo: int, up: int, pivot: int)
    requires 0 <= lo && up < |s|
  {
    forall k :: lo <= k <= up ==> !lt(pivot, s[k])
  }

  ghost predicate NoneBelow(lt: Less, s: seq<int>, lo: int, up: int, pivot: int)
    requires 0 <= lo && up < |s|
  {
    forall k :: lo <= k <= up ==> !lt(s[k], pivot)
  }

  ghost predicate Sorted(lt: Less, s: seq<int>, lo: int, up: int)
    requires 0 <= lo && up < |s|
  {
    forall i, j :: lo <= i < j <= up ==> !lt(s[j], s[i])
  }

  // 't' is 's' with the values between 'lo' and 'up' in another order.
  ghost predicate Permuted(s: seq<int>, t: seq<int>, lo: int, up: int)
    requires 0 <= lo <= up + 1 <= |s|
  {
    && |t| == |s| && multiset(t[lo..up + 1]) == multiset(s[lo..up + 1])
    && (forall k :: 0 <= k < |s| && (k < lo || up < k) ==> t[k] == s[k])
  }

  lemma PermutedSame(s: seq<int>, lo: int, up: int)
    requires 0 <= lo <= up + 1 <= |s|
    ensures Permuted(s, s, lo, up)
  {
  }

  lemma PermutedTrans(s: seq<int>, t: seq<int>, u: seq<int>, lo: int, up: int)
    requires 0 <= lo <= up + 1 <= |s| && Permuted(s, t, lo, up) && Permuted(t, u, lo, up)
    ensures Permuted(s, u, lo, up)
  {
  }

  // A permutation of a part of a range permutes the range.
  lemma PermutedWider(s: seq<int>, t: seq<int>, l: int, u: int, lo: int, up: int)
    requires 0 <= lo <= l <= u + 1 && u <= up < |s| && Permuted(s, t, l, u)
    ensures Permuted(s, t, lo, up)
  {
    WiderMultiset(s, t, l, u + 1, lo, up + 1);
  }

  lemma WiderMultiset(s: seq<int>, t: seq<int>, l: int, u: int, lo: int, up: int)
    requires 0 <= lo <= l <= u <= up <= |s| == |t| && multiset(t[l..u]) == multiset(s[l..u])
    requires forall k :: lo <= k < l || u <= k < up ==> t[k] == s[k]
    ensures multiset(t[lo..up]) == multiset(s[lo..up])
  {
    ThreeParts(s, lo, l, u, up);
    ThreeParts(t, lo, l, u, up);
    SamePart(s, t, lo, l);
    SamePart(s, t, u, up);
    JoinPermutes(s[lo..l], s[l..u], t[l..u], s[u..up]);
  }

  lemma ThreeParts(s: seq<int>, a: int, b: int, c: int, d: int)
    requires 0 <= a <= b <= c <= d <= |s|
    ensures s[a..d] == s[a..b] + s[b..c] + s[c..d]
  {
  }

  lemma JoinPermutes(a: seq<int>, b: seq<int>, b2: seq<int>, c: seq<int>)
    requires multiset(b) == multiset(b2)
    ensures multiset(a + b + c) == multiset(a + b2 + c)
  {
  }

  lemma SamePart(s: seq<int>, t: seq<int>, a: int, b: int)
    requires 0 <= a <= b <= |s| == |t| && forall k :: a <= k < b ==> t[k] == s[k]
    ensures t[a..b] == s[a..b]
  {
  }

  function Swapped(s: seq<int>, i: int, j: int): seq<int>
    requires 0 <= i < |s| && 0 <= j < |s|
  {
    s[i := s[j]][j := s[i]]
  }

  lemma SwapPermutes(s: seq<int>, i: int, j: int, lo: int, up: int)
    requires 0 <= lo <= i <= up < |s| && lo <= j <= up
    ensures Permuted(s, Swapped(s, i, j), lo, up)
  {
    var a, b := s[lo..up + 1], Swapped(s, i, j)[lo..up + 1];
    assert b == a[i - lo := a[j - lo]][j - lo := a[i - lo]];
  }

  // What holds of all values in a range holds after permuting it.
  lemma PermutedMember(s: seq<int>, t: seq<int>, lo: int, up: int, k: int) returns (m: int)
    requires 0 <= lo <= up + 1 <= |s| && Permuted(s, t, lo, up) && lo <= k <= up
    ensures lo <= m <= up && t[k] == s[m]
  {
    assert t[k] == t[lo..up + 1][k - lo];
    assert t[k] in multiset(s[lo..up + 1]);
    assert t[k] in s[lo..up + 1];
    var i :| 0 <= i < |s[lo..up + 1]| && s[lo..up + 1][i] == t[k];
    m := lo + i;
  }

  lemma PermutedNoneAbove(lt: Less, s: seq<int>, t: seq<int>, lo: int, up: int, pivot: int)
    requires 0 <= lo <= up + 1 <= |s| && Permuted(s, t, lo, up) && NoneAbove(lt, s, lo, up, pivot)
    ensures NoneAbove(lt, t, lo, up, pivot)
  {
    forall k | lo <= k <= up ensures !lt(pivot, t[k]) {
      var m := PermutedMember(s, t, lo, up, k);
    }
  }

  lemma PermutedNoneBelow(lt: Less, s: seq<int>, t: seq<int>, lo: int, up: int, pivot: int)
    requires 0 <= lo <= up + 1 <= |s| && Permuted(s, t, lo, up) && NoneBelow(lt, s, lo, up, pivot)
    ensures NoneBelow(lt, t, lo, up, pivot)
  {
    forall k | lo <= k <= up ensures !lt(t[k], pivot) {
      var m := PermutedMember(s, t, lo, up, k);
    }
  }

  // --- Partition ---

  // Up to 'i' nothing is above the pivot s[up - 1], from 'j' on nothing below.
  ghost predicate Parted(lt: Less, s: seq<int>, lo: int, i: int, j: int, up: int)
    requires 0 <= lo && 0 < up < |s| && i < |s| && 0 <= j
  {
    NoneAbove(lt, s, lo, i, s[up - 1]) && NoneBelow(lt, s, j, up, s[up - 1])
  }

  lemma PartedStart(lt: Less, s: seq<int>, lo: int, up: int)
    requires 0 <= lo && lo + 2 < up < |s| && StrictWeak(lt) && !lt(s[up - 1], s[lo]) && !lt(s[up], s[up - 1])
    ensures Parted(lt, s, lo, lo, up - 1, up) && !lt(s[up - 1], s[up - 1])
  {
    NotSelf(lt, s[up - 1]);
  }

  // Two values on the wrong sides change places.
  lemma PartedSwap(lt: Less, s: seq<int>, lo: int, i: int, j: int, up: int)
    requires 0 <= lo < i <= j < up - 1 && up < |s| && Parted(lt, s, lo, i - 1, j + 1, up)
    requires !lt(s[i], s[up - 1]) && !lt(s[up - 1], s[j])
    ensures Parted(lt, Swapped(s, i, j), lo, i, j, up) && Swapped(s, i, j)[up - 1] == s[up - 1]
  {
  }

  // The scans have met, and the pivot goes between the parts.
  lemma PartedDone(lt: Less, s: seq<int>, lo: int, i: int, j: int, up: int)
    requires 0 <= lo < i < up < |s| && 0 <= j < i && Parted(lt, s, lo, i - 1, j + 1, up) && !lt(s[i], s[up - 1])
    ensures var t := Swapped(s, up - 1, i);
            NoneAbove(lt, t, lo, i - 1, t[i]) && NoneBelow(lt, t, i + 1, up, t[i])
  {
  }

  lemma SortedThree(lt: Less, s: seq<int>, lo: int, up: int)
    requires 0 <= lo && up == lo + 2 < |s|
    requires !lt(s[lo + 1], s[lo]) && !lt(s[up], s[lo + 1]) && !lt(s[up], s[lo])
    ensures Sorted(lt, s, lo, up)
  {
  }

  // The pivot moves next to the upper end.
  lemma MovedPivot(lt: Less, s: seq<int>, lo: int, p: int, up: int)
    requires 0 <= lo < p < up < |s| && lo + 2 < up && !lt(s[p], s[lo]) && !lt(s[up], s[p])
    ensures var t := Swapped(s, p, up - 1);
            !lt(t[up - 1], t[lo]) && !lt(t[up], t[up - 1])
  {
  }

  // --- The loop of auxsort ---

  // The parts below 'lo' and above 'up' are sorted, and every value between
  // them belongs between them.
  ghost predicate Around(lt: Less, s: seq<int>, lo0: int, lo: int, up: int, up0: int)
    requires 0 <= lo0 <= lo <= up + 1 <= up0 + 1 && up0 < |s|
  {
    && (forall i, j :: lo0 <= i < j <= up0 && (i < lo || up < j) ==> !lt(s[j], s[i]))
  }

  lemma AroundPermuted(lt: Less, s: seq<int>, t: seq<int>, lo0: int, lo: int, up: int, up0: int)
    requires 0 <= lo0 <= lo <= up + 1 <= up0 + 1 && up0 < |s| && Around(lt, s, lo0, lo, up, up0)
    requires Permuted(s, t, lo, up)
    ensures Around(lt, t, lo0, lo, up, up0)
  {
    forall i, j | lo0 <= i < j <= up0 && (i < lo || up < j) ensures !lt(t[j], t[i]) {
      var m, k := i, j;
      if lo <= i <= up { m := PermutedMember(s, t, lo, up, i); }
      if lo <= j <= up { k := PermutedMember(s, t, lo, up, j); }
      assert t[i] == s[m] && t[j] == s[k] && m < k;
    }
  }

  lemma AroundSorted(lt: Less, s: seq<int>, lo0: int, lo: int, up: int, up0: int)
    requires 0 <= lo0 <= lo <= up + 1 <= up0 + 1 && up0 < |s| && Around(lt, s, lo0, lo, up, up0) && Sorted(lt, s, lo, up)
    ensures Sorted(lt, s, lo0, up0)
  {
  }

  lemma AroundEmpty(lt: Less, s: seq<int>, lo0: int, lo: int, up: int, up0: int)
    requires 0 <= lo0 <= lo <= up + 1 <= up0 + 1 && up0 < |s| && Around(lt, s, lo0, lo, up, up0) && lo >= up
    ensures Sorted(lt, s, lo0, up0)
  {
  }

  // The lower part has been sorted, and the upper part is left.
  lemma AroundLower(lt: Less, s: seq<int>, t: seq<int>, lo0: int, lo: int, p: int, up: int, up0: int)
    requires 0 <= lo0 <= lo < p < up <= up0 < |s| && StrictWeak(lt)
    requires Around(lt, s, lo0, lo, up, up0) && NoneAbove(lt, s, lo, p - 1, s[p]) && NoneBelow(lt, s, p + 1, up, s[p])
    requires Permuted(s, t, lo, p - 1) && Sorted(lt, t, lo, p - 1)
    ensures Around(lt, t, lo0, p + 1, up, up0)
  {
    PermutedWider(s, t, lo, p - 1, lo, up);
    AroundPermuted(lt, s, t, lo0, lo, up, up0);
    PermutedNoneAbove(lt, s, t, lo, p - 1, s[p]);
    forall i, j | lo0 <= i < j <= up0 && (i < p + 1 || up < j) ensures !lt(t[j], t[i]) {
      if lo <= i && j <= up && p <= j && i < p && j > p { NotThrough(lt, t[j], t[p], t[i]); }
    }
  }

  lemma AroundUpper(lt: Less, s: seq<int>, t: seq<int>, lo0: int, lo: int, p: int, up: int, up0: int)
    requires 0 <= lo0 <= lo < p < up <= up0 < |s| && StrictWeak(lt)
    requires Around(lt, s, lo0, lo, up, up0) && NoneAbove(lt, s, lo, p - 1, s[p]) && NoneBelow(lt, s, p + 1, up, s[p])
    requires Permuted(s, t, p + 1, up) && Sorted(lt, t, p + 1, up)
    ensures Around(lt, t, lo0, lo, p - 1, up0)
  {
    PermutedWider(s, t, p + 1, up, lo, up);
    AroundPermuted(lt, s, t, lo0, lo, up, up0);
    PermutedNoneBelow(lt, s, t, p + 1, up, s[p]);
    forall i, j | lo0 <= i < j <= up0 && (i < lo || p - 1 < j) ensures !lt(t[j], t[i]) {
      if lo <= i && j <= up && i < p && j > p { NotThrough(lt, t[j], t[p], t[i]); }
    }
  }

  // --- Depth ---

  // A call for the smaller part, of 'n' values at most half of 'size'.
  lemma DepthGrows(d: nat, n: int, size: int, whole: int)
    requires d > 0 ==> Pow2(d) <= n
    requires 2 <= size <= whole && n <= size / 2
    ensures Pow2(d + 1) <= whole
  {
  }
}
