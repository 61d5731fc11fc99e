// The buckets of the string table: chains of strings through their 'hnext'
// fields.
module StringChains {
  import opened Common

  // A pointer to a string, which is known by a number.
  datatype Link = Null | To(h: nat)

  // The chain that starts at 'p' consists of the strings 'list'.
  ghost predicate Chain(p: Link, next: map<nat, Link>, list: seq<nat>)
    decreases |list|
  {
    if list == [] then p == Null
    else p == To(list[0]) && list[0] in next && Chain(next[list[0]], next, list[1..])
  }

  // Changing the link of a string that is not in a chain leaves the chain.
  lemma {:induction false} ChainKept(p: Link, next: map<nat, Link>, list: seq<nat>, h: nat, q: Link)
    requires Chain(p, next, list) && h !in list
    ensures Chain(p, next[h := q], list)
    decreases |list|
  {
    if list != [] {
      assert list[0] in list;
      ChainKept(next[list[0]], next, list[1..], h, q);
    }
  }

  // Taking 'h' out of a chain, by making what links to it skip it.
  lemma {:induction false} ChainWithout(p: Link, next: map<nat, Link>, list: seq<nat>, i: nat)
    requires Chain(p, next, list) && NoDup(list) && 0 < i < |list| && list[i] in next
    ensures Chain(p, next[list[i - 1] := next[list[i]]], list[..i] + list[i + 1..])
    decreases |list|
  {
    var next2 := next[list[i - 1] := next[list[i]]];
    var list2 := list[..i] + list[i + 1..];
    if i == 1 {
      var after := next[list[1]];
      assert list[1..][0] == list[1] && list[1..][1..] == list[2..];
      assert Chain(after, next, list[2..]);
      assert list[0] !in list[2..];
      ChainKept(after, next, list[2..], list[0], after);
      assert list2[1..] == list[2..];
    } else {
      assert list[1..][i - 1] == list[i] && list[1..][i - 2] == list[i - 1];
      ChainWithout(next[list[0]], next, list[1..], i - 1);
      assert list2[1..] == list[1..][..i - 1] + list[1..][i..];
      assert list2[0] == list[0];
    }
  }

  lemma {:induction false} ChainLinked(p: Link, next: map<nat, Link>, list: seq<nat>)
    requires Chain(p, next, list)
    ensures forall h :: h in list ==> h in next
    decreases |list|
  {
    if list != [] {
      ChainLinked(next[list[0]], next, list[1..]);
      forall h | h in list ensures h in next { assert h == list[0] || h in list[1..]; }
    }
  }

  // --- The whole table ---

  // Where every string is: bucket 'j' is the chain of the strings that are at
  // 'j'; those at -1 are in the list 'rest' that is being moved.
  ghost predicate BucketOk(vect: seq<Link>, next: map<nat, Link>, chains: seq<seq<nat>>, home: map<nat, int>, j: int)
    requires 0 <= j < |vect| == |chains|
  {
    && Chain(vect[j], next, chains[j]) && NoDup(chains[j])
    && (forall h :: h in chains[j] <==> h in home && home[h] == j)
  }

  ghost predicate Buckets(vect: seq<Link>, next: map<nat, Link>, chains: seq<seq<nat>>, home: map<nat, int>) {
    |chains| == |vect| && forall j :: 0 <= j < |vect| ==> BucketOk(vect, next, chains, home, j)
  }

  // The strings of bucket 'j' belong there in a table of size 'n'.
  ghost predicate Placed(chains: seq<seq<nat>>, hash: map<nat, nat>, n: nat, j: int)
    requires 0 <= j < |chains| && n > 0
  {
    forall h :: h in chains[j] ==> h in hash && hash[h] % n == j
  }

  // A string that is in no bucket is put at the head of bucket 'j'.
  lemma PushBucket(vect: seq<Link>, next: map<nat, Link>, chains: seq<seq<nat>>, home: map<nat, int>, h: nat, j: int)
    requires Buckets(vect, next, chains, home) && 0 <= j < |vect|
    requires h !in home || home[h] < 0
    ensures Buckets(vect[j := To(h)], next[h := vect[j]], chains[j := [h] + chains[j]], home[h := j])
  {
    var vect2, next2 := vect[j := To(h)], next[h := vect[j]];
    var chains2, home2 := chains[j := [h] + chains[j]], home[h := j];
    forall i | 0 <= i < |vect2| ensures BucketOk(vect2, next2, chains2, home2, i) {
      assert BucketOk(vect, next, chains, home, i);
      assert h !in chains[i];
      ChainKept(vect[i], next, chains[i], h, vect[j]);
      if i == j { assert chains2[j][1..] == chains[j]; }
    }
  }

  // All of bucket 'j' is taken out.
  lemma EmptyBucket(vect: seq<Link>, next: map<nat, Link>, chains: seq<seq<nat>>, home: map<nat, int>, j: int, home2: map<nat, int>)
    requires Buckets(vect, next, chains, home) && 0 <= j < |vect|
    requires home2 == map h | h in home :: if home[h] == j then -1 else home[h]
    ensures Buckets(vect[j := Null], next, chains[j := []], home2)
  {
    var vect2, chains2 := vect[j := Null], chains[j := []];
    forall i | 0 <= i < |vect2| ensures BucketOk(vect2, next, chains2, home2, i) {
      assert BucketOk(vect, next, chains, home, i);
    }
  }

  // String 'h' is taken out of bucket 'j', where it was first.
  lemma DropFirst(vect: seq<Link>, next: map<nat, Link>, chains: seq<seq<nat>>, home: map<nat, int>, h: nat, j: int)
    requires Buckets(vect, next, chains, home) && 0 <= j < |vect| && vect[j] == To(h) && chains[j] != []
    ensures h in next && Buckets(vect[j := next[h]], next, chains[j := chains[j][1..]], home - {h})
  {
    assert BucketOk(vect, next, chains, home, j);
    assert chains[j][0] == h && h in chains[j];
    var vect2, chains2, home2 := vect[j := next[h]], chains[j := chains[j][1..]], home - {h};
    forall i | 0 <= i < |vect2| ensures BucketOk(vect2, next, chains2, home2, i) {
      assert BucketOk(vect, next, chains, home, i);
      if i == j {
        forall x ensures x in chains2[j] <==> x in home2 && home2[x] == j {
          assert x in chains[j] <==> x == h || x in chains[j][1..];
        }
      }
    }
  }

  // String 'h' is taken out of bucket 'j', where it was at 'k'.
  lemma DropLater(vect: seq<Link>, next: map<nat, Link>, chains: seq<seq<nat>>, home: map<nat, int>, h: nat, j: int, k: int)
    requires Buckets(vect, next, chains, home) && 0 <= j < |vect| && 0 < k < |chains[j]| && chains[j][k] == h && h in next
    ensures Buckets(vect, next[chains[j][k - 1] := next[h]], chains[j := chains[j][..k] + chains[j][k + 1..]], home - {h})
  {
    assert BucketOk(vect, next, chains, home, j);
    var c := chains[j];
    var q := c[k - 1];
    assert q in c && h in c;
    var next2, chains2, home2 := next[q := next[h]], chains[j := c[..k] + c[k + 1..]], home - {h};
    forall i | 0 <= i < |vect| ensures BucketOk(vect, next2, chains2, home2, i) {
      assert BucketOk(vect, next, chains, home, i);
      if i == j {
        ChainWithout(vect[j], next, c, k);
        WithoutMembers(c, k);
      } else {
        assert q !in chains[i];
        ChainKept(vect[i], next, chains[i], q, next[h]);
      }
    }
  }

  lemma WithoutMembers(c: seq<nat>, k: int)
    requires NoDup(c) && 0 <= k < |c|
    ensures NoDup(c[..k] + c[k + 1..])
    ensures forall x :: x in c[..k] + c[k + 1..] <==> x in c && x != c[k]
  {
    var d := c[..k] + c[k + 1..];
    forall x | x in c && x != c[k] ensures x in d {
      var i :| 0 <= i < |c| && c[i] == x;
      assert d[if i < k then i else i - 1] == x;
    }
    forall x | x in d ensures x in c && x != c[k] {
      var i :| 0 <= i < |d| && d[i] == x;
      assert c[if i < k then i else i + 1] == x;
    }
  }

  // The buckets from 'n' on are empty, and can be cut off.
  lemma CutBuckets(vect: seq<Link>, next: map<nat, Link>, chains: seq<seq<nat>>, home: map<nat, int>, n: nat)
    requires Buckets(vect, next, chains, home) && n <= |vect|
    ensures Buckets(vect[..n], next, chains[..n], home)
  {
    var vect2, chains2 := vect[..n], chains[..n];
    forall i | 0 <= i < n ensures BucketOk(vect2, next, chains2, home, i) {
      assert BucketOk(vect, next, chains, home, i);
    }
  }

  // --- Strings and their contents ---

  type Str = seq<int>

  // The strings of the table and the index tell each other.
  ghost predicate OneToOne(contents: map<nat, Str>, home: map<nat, int>, index: map<Str, nat>) {
    && (forall h :: h in home ==> h in contents && contents[h] in index && index[contents[h]] == h)
    && (forall s :: s in index ==> index[s] in home && index[s] in contents && contents[index[s]] == s)
  }

  // The contents of some strings.
  ghost function Texts(contents: map<nat, Str>, hs: seq<nat>): set<Str> {
    set h | h in hs && h in contents :: contents[h]
  }

  lemma TextsParts(contents: map<nat, Str>, a: seq<nat>, b: seq<nat>)
    ensures Texts(contents, a + b) == Texts(contents, a) + Texts(contents, b)
    ensures Texts(contents, []) == {}
  {
  }

  lemma OneToOneKeys(contents: map<nat, Str>, home: map<nat, int>, home2: map<nat, int>, index: map<Str, nat>)
    requires OneToOne(contents, home, index) && OneToOne(contents, home2, index)
    ensures home.Keys == home2.Keys
  {
  }

  lemma OneToOneAdd(contents: map<nat, Str>, home: map<nat, int>, index: map<Str, nat>, h: nat, j: int, str: Str)
    requires OneToOne(contents, home, index) && h !in home && h in contents && contents[h] == str && str !in index
    ensures OneToOne(contents, home[h := j], index[str := h]) && |home[h := j]| == |home| + 1
  {
    var home2 := home[h := j];
    assert home2.Keys == home.Keys + {h} && |home2| == |home2.Keys| && |home| == |home.Keys|;
  }

  // Where the strings are does not matter to the index.
  lemma OneToOneMoved(contents: map<nat, Str>, home: map<nat, int>, home2: map<nat, int>, index: map<Str, nat>)
    requires OneToOne(contents, home, index) && home2.Keys == home.Keys
    ensures OneToOne(contents, home2, index) && |home2| == |home|
  {
    assert |home| == |home.Keys| && |home2| == |home2.Keys|;
    assert forall h :: h in home2 <==> h in home.Keys;
  }

  lemma OneToOneMore(contents: map<nat, Str>, home: map<nat, int>, index: map<Str, nat>, h: nat, str: Str)
    requires OneToOne(contents, home, index) && h !in contents
    ensures OneToOne(contents[h := str], home, index)
  {
  }

  lemma OneToOneDrop(contents: map<nat, Str>, home: map<nat, int>, index: map<Str, nat>, h: nat)
    requires OneToOne(contents, home, index) && h in home
    ensures OneToOne(contents, home - {h}, index - {contents[h]}) && |home - {h}| == |home| - 1
  {
    var home2 := home - {h};
    assert home2.Keys == home.Keys - {h} && |home2| == |home2.Keys| && |home| == |home.Keys|;
  }

  ghost predicate Hashed(contents: map<nat, Str>, hashes: map<nat, nat>, created: nat, hashOf: Str -> nat) {
    && contents.Keys == hashes.Keys
    && (forall h :: h in contents ==> h < created && hashes[h] == hashOf(contents[h]))
  }

  lemma HashedAdd(contents: map<nat, Str>, hashes: map<nat, nat>, created: nat, hashOf: Str -> nat, str: Str)
    requires Hashed(contents, hashes, created, hashOf)
    ensures Hashed(contents[created := str], hashes[created := hashOf(str)], created + 1, hashOf)
  {
  }

  // A string that is new to the table changes no bucket, and fits in the one
  // its hash gives.
  lemma PlacedMore(chains: seq<seq<nat>>, hashes: map<nat, nat>, n: nat, h: nat, v: nat, b: int)
    requires n > 0 && 0 <= b < |chains| && h !in hashes && Placed(chains, hashes, n, b)
    ensures Placed(chains, hashes[h := v], n, b)
  {
  }

  lemma PlacedPush(chains: seq<seq<nat>>, hashes: map<nat, nat>, n: nat, h: nat, b: int)
    requires n > 0 && |chains| == n && 0 <= b < n && h in hashes && Placed(chains, hashes, n, b)
    ensures Placed(chains[hashes[h] % n := [h] + chains[hashes[h] % n]], hashes, n, b)
  {
  }
}
