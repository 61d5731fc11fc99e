// The table of short strings: interning, removal, and resizing in place.
module StringTable {
  import opened Common
  import opened StringChains

  const MINSTRTABSIZE: int := 128
  const MAX_INT: int := 0x7FFF_FFFF
  const MAXSTRTB: int := 0x0FFF_FFFF

  datatype Result = Interned(h: nat) | Raised(message: string)

  class Table {
    // The strings that were ever created, by number.
    var contents: map<nat, Str>
    var hashes: map<nat, nat>
    var hnext: map<nat, Link>
    var created: nat

    var hash: seq<Link>
    var size: nat
    var nuse: nat
    const hashOf: Str -> nat

    // The chains of the buckets, where each string of the table is, and which
    // one has given contents.
    ghost var chains: seq<seq<nat>>
    ghost var home: map<nat, int>
    ghost var index: map<Str, nat>

    ghost predicate Objects()
      reads this`contents, this`hashes, this`created
    {
      Hashed(contents, hashes, created, hashOf)
    }

    // The table and its index have the same strings, each with other contents.
    ghost predicate Indexed()
      reads this`contents, this`home, this`index, this`nuse
    {
      OneToOne(contents, home, index) && nuse == |home|
    }

    ghost predicate InPlace()
      reads this`hash, this`size, this`hnext, this`chains, this`home, this`hashes
    {
      && size > 0 && |hash| == size
      && Buckets(hash, hnext, chains, home)
      && (forall j :: 0 <= j < size ==> Placed(chains, hashes, size, j))
      && (forall h :: h in home ==> 0 <= home[h] < size)
    }

    ghost predicate Valid()
      reads this
    {
      Objects() && Indexed() && InPlace()
    }

    // Every string is in exactly one bucket, the one its hash gives; and two
    // strings of the table are the same exactly when their contents are.
    lemma UniqueStrings(g: nat, h: nat)
      requires Valid() && g in home && h in home
      ensures g in contents && h in contents && h in hashes && hashes[h] == hashOf(contents[h])
      ensures home[h] == hashOf(contents[h]) % size
      ensures forall j :: 0 <= j < size ==> (h in chains[j] <==> j == hashOf(contents[h]) % size)
      ensures g == h <==> contents[g] == contents[h]
    {
      assert BucketOk(hash, hnext, chains, home, home[h]);
      assert Placed(chains, hashes, size, home[h]);
      forall j | 0 <= j < size ensures h in chains[j] <==> j == home[h] {
        assert BucketOk(hash, hnext, chains, home, j);
      }
    }

    constructor (hashOf: Str -> nat)
      ensures Valid() && index == map[] && size == 128 && this.hashOf == hashOf
    {
      this.hashOf := hashOf;
      contents, hashes, hnext, created := map[], map[], map[], 0;
      hash, size, nuse := seq(MINSTRTABSIZE, i => Null), MINSTRTABSIZE, 0;
      chains, home, index := seq(MINSTRTABSIZE, i => []), map[], map[];
      new;
      forall j | 0 <= j < size ensures BucketOk(hash, hnext, chains, home, j) {}
    }

    // The buckets below 'i' have been done, and those from 'osize' on only
    // got strings that belong there.
    ghost predicate Rehashing(i: int, osize: nat, nsize: nat)
      requires nsize > 0
      reads this`chains, this`hashes
    {
      forall j :: 0 <= j < |chains| && (j < i || osize <= j) ==> Placed(chains, hashes, nsize, j)
    }

    // Moves the strings of 'list' to the buckets that their hashes give.
    method MoveList(list: Link, i: int, osize: nat, nsize: nat, ghost rest0: seq<nat>)
      requires nsize > 0 && nsize <= |hash| && 0 <= i < osize <= |hash|
      requires Buckets(hash, hnext, chains, home) && Chain(list, hnext, rest0) && NoDup(rest0)
      requires forall h :: h in rest0 <==> h in home && home[h] == -1
      requires forall h :: h in home ==> h in hashes && -1 <= home[h] < |hash|
      requires Rehashing(i + 1, osize, nsize)
      modifies this`hash, this`hnext, this`chains, this`home
      ensures |hash| == |old(hash)| && Buckets(hash, hnext, chains, home) && home.Keys == old(home).Keys
      ensures Rehashing(i + 1, osize, nsize)
      ensures forall h :: h in home ==> 0 <= home[h] < |hash|
      ensures forall h :: h in home && h !in rest0 ==> home[h] == old(home)[h]
    {
      var p := list;
      ghost var rest := rest0;
      while p != Null
        invariant |hash| == |old(hash)| && Buckets(hash, hnext, chains, home) && home.Keys == old(home).Keys
        invariant Chain(p, hnext, rest) && NoDup(rest) && (forall h :: h in rest <==> h in home && home[h] == -1)
        invariant forall h :: h in home ==> -1 <= home[h] < |hash|
        invariant Rehashing(i + 1, osize, nsize)
        invariant forall h :: h in home && h !in rest0 ==> home[h] == old(home)[h]
        invariant forall h :: h in rest ==> h in rest0
        decreases |rest|
      {
        var x := p.h;
        assert x == rest[0] && x in rest;
        var next := hnext[x];
        var j := hashes[x] % nsize;
        PushBucket(hash, hnext, chains, home, x, j);
        ghost var tail := rest[1..];
        assert x !in tail;
        ChainKept(next, hnext, tail, x, hash[j]);
        ghost var chains0 := chains;
        hnext := hnext[x := hash[j]];
        hash := hash[j := To(x)];
        chains := chains[j := [x] + chains[j]];
        home := home[x := j];
        forall b | 0 <= b < |chains| && (b < i + 1 || osize <= b) ensures Placed(chains, hashes, nsize, b) {
          assert Placed(chains0, hashes, nsize, b);
        }
        forall h ensures h in tail <==> h in home && home[h] == -1 {
          assert h in rest <==> h == x || h in tail;
        }
        p := next;
        rest := tail;
      }
    }

    // Takes the strings out of bucket 'i' and moves them to where they belong.
    method RehashBucket(i: nat, osize: nat, nsize: nat)
      requires nsize > 0 && nsize <= |hash| && i < osize <= |hash|
      requires Buckets(hash, hnext, chains, home) && (forall h :: h in home ==> h in hashes && 0 <= home[h] < |hash|)
      requires Rehashing(i, osize, nsize)
      modifies this`hash, this`hnext, this`chains, this`home
      ensures |hash| == |old(hash)| && Buckets(hash, hnext, chains, home) && home.Keys == old(home).Keys
      ensures (forall h :: h in home ==> 0 <= home[h] < |hash|) && Rehashing(i + 1, osize, nsize)
    {
      var p := hash[i];
      ghost var rest := chains[i];
      ghost var home2 := map h | h in home :: if home[h] == i then -1 else home[h];
      assert BucketOk(hash, hnext, chains, home, i);
      EmptyBucket(hash, hnext, chains, home, i, home2);
      ghost var chains0 := chains;
      hash := hash[i := Null];
      chains := chains[i := []];
      home := home2;
      forall b | 0 <= b < |chains| && (b < i + 1 || osize <= b) ensures Placed(chains, hashes, nsize, b) {
        assert b != i ==> Placed(chains0, hashes, nsize, b);
      }
      MoveList(p, i, osize, nsize, rest);
    }

    // Rehashes the strings of the first 'osize' buckets in place, for a table
    // of size 'nsize'.
    method Rehash(osize: nat, nsize: nat)
      requires nsize > 0 && nsize <= |hash| && osize <= |hash| == (if osize > nsize then osize else nsize)
      requires |chains| == |hash| && (forall h :: h in home ==> h in hashes && 0 <= home[h] < osize)
      requires forall j :: 0 <= j < osize ==> BucketOk(hash, hnext, chains, home, j)
      modifies this`hash, this`hnext, this`chains, this`home
      ensures |hash| == |old(hash)| && Buckets(hash, hnext, chains, home) && home.Keys == old(home).Keys
      ensures forall j :: 0 <= j < |hash| ==> Placed(chains, hashes, nsize, j)
      ensures forall h :: h in home ==> 0 <= home[h] < nsize
    {
      hide Chain, NoDup;
      ClearNew(osize, nsize);
      var i := 0;
      while i < osize
        invariant 0 <= i <= osize && |hash| == |old(hash)| && home.Keys == old(home).Keys
        invariant Buckets(hash, hnext, chains, home) && (forall h :: h in home ==> 0 <= home[h] < |hash|)
        invariant Rehashing(i, osize, nsize)
      {
        RehashBucket(i, osize, nsize);
        i := i + 1;
      }
      forall h | h in home ensures home[h] < nsize {
        assert BucketOk(hash, hnext, chains, home, home[h]);
        assert Placed(chains, hashes, nsize, home[h]);
      }
    }

    method ClearNew(osize: nat, nsize: nat)
      requires nsize <= |hash| && osize <= |hash| == (if osize > nsize then osize else nsize) && |chains| == |hash|
      requires forall j :: 0 <= j < osize ==> BucketOk(hash, hnext, chains, home, j)
      requires forall h :: h in home ==> h in hashes && 0 <= home[h] < osize
      modifies this`hash, this`chains
      ensures |hash| == |old(hash)| && Buckets(hash, hnext, chains, home)
      ensures forall j :: osize <= j < |hash| ==> chains[j] == []
    {
      var i := osize;
      while i < nsize
        invariant osize <= i && |hash| == |old(hash)| == |chains| && (i <= nsize || i == osize)
        invariant forall j :: 0 <= j < |hash| && j < i ==> BucketOk(hash, hnext, chains, home, j)
        invariant forall j :: osize <= j < i && j < |hash| ==> chains[j] == []
      {
        ghost var hash0, chains0 := hash, chains;
        hash := hash[i := Null];
        chains := chains[i := []];
        forall j | 0 <= j < i ensures BucketOk(hash, hnext, chains, home, j) {
          assert BucketOk(hash0, hnext, chains0, home, j);
        }
        i := i + 1;
      }
    }

    // What the allocator adds holds anything.
    static method Realloc(vect: seq<Link>, n: nat) returns (vect2: seq<Link>)
      ensures |vect2| == n && vect2[..if n < |vect| then n else |vect|] == vect[..if n < |vect| then n else |vect|]
    {
      if n <= |vect| {
        vect2 := vect[..n];
      } else {
        var garbage: Link := *;
        vect2 := vect + seq(n - |vect|, i => garbage);
      }
    }

    // Resizes the vector of buckets; when memory is short it keeps its size.
    method ResizeBuckets(nsize: nat, granted: bool)
      requires InPlace() && nsize > 0 && (forall h :: h in home ==> h in hashes)
      modifies this`hash, this`hnext, this`chains, this`home, this`size
      ensures InPlace() && size == (if granted then nsize else old(size)) && home.Keys == old(home).Keys
    {
      hide Chain, Placed, BucketOk;
      var osize := size;
      if nsize < osize {
        Rehash(osize, nsize);
      }
      if !granted {
        if nsize < osize {
          Rehash(nsize, osize);
        }
      } else {
        var newvect := Realloc(hash, nsize);
        Install(newvect, nsize, osize, if nsize < osize then nsize else osize);
        if nsize > osize {
          Rehash(osize, nsize);
        }
      }
    }

    method Resize(nsize: nat, granted: bool)
      requires Valid() && nsize > 0
      modifies this`hash, this`hnext, this`chains, this`home, this`size
      ensures Valid() && size == if granted then nsize else old(size)
    {
      hide OneToOne, Hashed, InPlace;
      HomeHashed();
      ResizeBuckets(nsize, granted);
      OneToOneMoved(contents, old(home), home, index);
    }

    lemma HomeHashed()
      requires Valid()
      ensures forall h :: h in home ==> h in hashes
    {
    }

    // The new vector takes the place of the old one.
    method Install(newvect: seq<Link>, nsize: nat, osize: nat, ghost m: nat)
      requires 0 < nsize == |newvect| && |hash| == osize && (forall h :: h in home ==> 0 <= home[h] < osize)
      requires m == (if nsize < osize then nsize else osize) > 0 && newvect[..m] == hash[..m]
      requires Buckets(hash, hnext, chains, home)
      requires forall j :: 0 <= j < osize ==> Placed(chains, hashes, m, j)
      modifies this`hash, this`size, this`chains
      ensures hash == newvect && size == nsize && |chains| == nsize
      ensures forall j :: 0 <= j < nsize && j < osize ==> BucketOk(hash, hnext, chains, home, j)
      ensures nsize <= osize ==> Buckets(hash, hnext, chains, home) && forall j :: 0 <= j < nsize ==> Placed(chains, hashes, nsize, j)
    {
      ghost var hash0, chains0 := hash, chains;
      hash := newvect;
      size := nsize;
      chains := chains[..m] + seq(nsize - m, i => []);
      CutBuckets(hash0, hnext, chains0, home, m);
      forall j | 0 <= j < m ensures BucketOk(hash, hnext, chains, home, j) {
        assert BucketOk(hash0[..m], hnext, chains0[..m], home, j);
        assert hash[..m][j] == hash0[..m][j];
      }
      forall j | 0 <= j < m ensures Placed(chains, hashes, m, j) {
        assert Placed(chains0, hashes, m, j);
      }
    }

    // Takes a string out of its bucket.
    method Unlink(ts: nat, j: nat)
      requires j < |hash| && Buckets(hash, hnext, chains, home) && ts in home && home[ts] == j
      modifies this`hash, this`hnext, this`chains, this`home
      ensures |hash| == |old(hash)| && home == old(home) - {ts} && Buckets(hash, hnext, chains, home)
    {
      ghost var c := chains[j];
      assert BucketOk(hash, hnext, chains, home, j);
      ChainLinked(hash[j], hnext, c);
      assert ts in c;
      if hash[j] == To(ts) {
        DropFirst(hash, hnext, chains, home, ts, j);
        hash := hash[j := hnext[ts]];
        chains := chains[j := chains[j][1..]];
      } else {
        var q := hash[j].h;
        ghost var k := 0;
        ghost var at :| 0 <= at < |c| && c[at] == ts;
        while hnext[q] != To(ts)
          invariant 0 <= k < at && c[k] == q && Chain(To(q), hnext, c[k..]) && q in hnext
          decreases |c| - k
        {
          assert c[k..][1..] == c[k + 1..];
          q := hnext[q].h;
          k := k + 1;
          assert c[k] in c;
        }
        assert c[k..][1..] == c[k + 1..];
        assert c[k + 1] == ts;
        DropLater(hash, hnext, chains, home, ts, j, k + 1);
        hnext := hnext[q := hnext[ts]];
        chains := chains[j := c[..k + 1] + c[k + 2..]];
      }
      home := home - {ts};
    }

    // Buckets whose strings are among those of another table are in place
    // when those are.
    lemma StillPlaced(chains0: seq<seq<nat>>, hash0: seq<Link>, next0: map<nat, Link>, home0: map<nat, int>)
      requires size > 0 && |hash| == size && Buckets(hash, hnext, chains, home)
      requires |hash0| == size && Buckets(hash0, next0, chains0, home0)
      requires forall h :: h in home ==> h in home0 && home0[h] == home[h]
      requires forall j :: 0 <= j < size ==> Placed(chains0, hashes, size, j)
      ensures forall j :: 0 <= j < size ==> Placed(chains, hashes, size, j)
    {
      forall b | 0 <= b < size ensures Placed(chains, hashes, size, b) {
        assert Placed(chains0, hashes, size, b);
        assert BucketOk(hash, hnext, chains, home, b) && BucketOk(hash0, next0, chains0, home0, b);
      }
    }

    // Takes a string out of the table.
    method Remove(ts: nat)
      requires Valid() && ts in home
      modifies this`hash, this`hnext, this`nuse, this`chains, this`home, this`index
      ensures Valid() && index == old(index) - {contents[ts]} && home == old(home) - {ts}
    {
      hide Buckets, BucketOk, Placed, OneToOne, Hashed;
      UniqueStrings(ts, ts);
      OneToOneDrop(contents, home, index, ts);
      Unlink(ts, hashes[ts] % size);
      nuse := nuse - 1;
      index := index - {contents[ts]};
      StillPlaced(old(chains), old(hash), old(hnext), old(home));
    }

    // An emergency collection frees the strings it finds dead, one by one.
    method FreeDead(dead: seq<nat>)
      requires Valid() && NoDup(dead) && forall h :: h in dead ==> h in home
      modifies this`hash, this`hnext, this`nuse, this`chains, this`home, this`index
      ensures Valid() && index == old(index) - Texts(contents, dead)
      ensures forall h :: h in home <==> h in old(home) && h !in dead
    {
      hide Objects, Indexed, InPlace;
      for i := 0 to |dead|
        invariant Valid() && index == old(index) - Texts(contents, dead[..i])
        invariant forall h :: h in home <==> h in old(home) && h !in dead[..i]
      {
        assert dead[..i + 1] == dead[..i] + [dead[i]];
        InTable(dead[i]);
        Remove(dead[i]);
        TextsParts(contents, dead[..i], [dead[i]]);
        assert Texts(contents, [dead[i]]) == {contents[dead[i]]};
      }
      assert dead[..|dead|] == dead;
    }

    lemma InTable(h: nat)
      requires Valid() && h in home
      ensures h in contents && contents[h] in index && index[contents[h]] == h
    {
    }

    lemma Indexes(str: Str)
      requires Valid() && str in index
      ensures index[str] in home && index[str] in contents && contents[index[str]] == str
    {
    }

    // Makes room for one more string.
    method Grow(granted: bool) returns (ok: bool)
      requires Valid()
      modifies this`hash, this`hnext, this`chains, this`home, this`size
      ensures Valid() && (ok <==> nuse != 0x7FFF_FFFF) && home.Keys == old(home).Keys
    {
      if nuse == MAX_INT {
        return false;
      }
      if size <= MAXSTRTB / 2 {
        ghost var was := home;
        Resize(size * 2, granted);
        OneToOneKeys(contents, was, home, index);
      }
      ok := true;
    }

    // The string of the table with the given contents, or -1.
    method Find(str: Str) returns (r: int)
      requires Valid()
      ensures r >= 0 ==> str in index && index[str] == r
      ensures r < 0 ==> str !in index
    {
      var j := hashOf(str) % size;
      var p := hash[j];
      ghost var c := chains[j];
      ghost var k := 0;
      assert BucketOk(hash, hnext, chains, home, j);
      ChainLinked(p, hnext, c);
      while p != Null
        invariant 0 <= k <= |c| && Chain(p, hnext, c[k..])
        invariant forall i :: 0 <= i < k ==> contents[c[i]] != str
        decreases |c| - k
      {
        assert c[k] in c && p == To(c[k]);
        if contents[p.h] == str {
          return p.h;
        }
        assert c[k..][1..] == c[k + 1..];
        p := hnext[p.h];
        k := k + 1;
      }
      InItsBucket(str);
      r := -1;
    }

    lemma InItsBucket(str: Str)
      requires Valid()
      ensures str in index ==> index[str] in chains[hashOf(str) % size]
    {
      if str in index { UniqueStrings(index[str], index[str]); }
    }

    // The string with the given contents: the one there is, or a new one. The
    // allocations of the growth and of the object may each start an emergency
    // collection, which frees the strings 'first' and 'second'; 'freed' is what
    // it has freed. 'granted' and 'enough' are what the allocations end with; only
    // a failure of the second, or a full table, is an error.
    method Intern(str: Str, first: seq<nat>, second: seq<nat>, granted: bool, enough: bool) returns (r: Result, ghost freed: seq<nat>)
      requires Valid() && NoDup(first + second) && forall h :: h in first + second ==> h in home
      modifies this
      ensures Valid() && (forall h :: h in freed ==> h in first + second)
      ensures r.Interned? ==> r.h in home && contents[r.h] == str
      ensures r.Raised? ==> !enough || nuse == 0x7FFF_FFFF
      ensures str in old(index) ==> r == Interned(old(index)[str]) && freed == []
      ensures str in old(index) || r.Raised? ==> index == old(index) - Texts(old(contents), freed)
      ensures str !in old(index) && r.Interned? ==>
                r.h !in old(contents) && index == (old(index) - Texts(old(contents), freed))[str := r.h]
      ensures forall h :: h in old(contents) ==> h in contents && contents[h] == old(contents)[h]
    {
      hide Objects, Indexed, InPlace, NoDup, Texts;
      freed := [];
      TwoParts(first, second);
      TextsParts(contents, [], second);
      var found := Find(str);
      if found >= 0 {
        Indexes(str);
        return Interned(found), freed;
      }
      if nuse >= size {
        FreeDead(first);
        freed := first;
        var ok := Grow(granted);
        if !ok {
          return Raised("not enough memory"), freed;
        }
      }
      FreeDead(second);
      TextsParts(contents, freed, second);
      freed := freed + second;
      r := NewString(str, enough);
    }

    // createstrobj may fail; else the new string goes into its bucket.
    method NewString(str: Str, enough: bool) returns (r: Result)
      requires Valid() && str !in index
      modifies this
      ensures Valid() && (r.Interned? <==> enough)
      ensures (r.Raised? ==> index == old(index) && contents == old(contents))
      ensures r.Interned? ==> r.h in home && r.h !in old(contents)
      ensures r.Interned? ==> contents == old(contents)[r.h := str] && index == old(index)[str := r.h]
    {
      hide Objects, Indexed, InPlace;
      if !enough {
        return Raised("not enough memory");
      }
      var h := CreateObject(str);
      LinkNew(h);
      r := Interned(h);
    }

    lemma TwoParts(a: seq<nat>, b: seq<nat>)
      requires NoDup(a + b)
      ensures NoDup(a) && NoDup(b) && forall h :: h in b ==> h !in a
    {
      assert forall i :: 0 <= i < |a| ==> (a + b)[i] == a[i];
      assert forall i :: 0 <= i < |b| ==> (a + b)[|a| + i] == b[i];
    }

    // A new string object, which is in no bucket yet.
    method CreateObject(str: Str) returns (h: nat)
      requires Valid()
      modifies this`contents, this`hashes, this`created
      ensures Valid() && h !in old(contents) && h !in home && contents == old(contents)[h := str]
      ensures h in hashes && hashes[h] == hashOf(str)
    {
      hide OneToOne, Placed, Buckets;
      h := created;
      NotInTable(h);
      OneToOneMore(contents, home, index, h, str);
      HashedAdd(contents, hashes, created, hashOf, str);
      ghost var hashes2 := hashes[h := hashOf(str)];
      forall b | 0 <= b < size ensures Placed(chains, hashes2, size, b) {
        PlacedMore(chains, hashes, size, h, hashOf(str), b);
      }
      created := created + 1;
      contents := contents[h := str];
      hashes := hashes[h := hashOf(str)];
    }

    lemma NotInTable(h: nat)
      requires Valid() && h >= created
      ensures h !in home && h !in contents && h !in hashes && |chains| == size
    {
    }

    // Puts a string at the head of its bucket.
    method LinkNew(h: nat)
      requires Valid() && h in contents && h in hashes && h !in home && contents[h] !in index
      requires hashes[h] == hashOf(contents[h])
      modifies this`hnext, this`hash, this`nuse, this`chains, this`home, this`index
      ensures Valid() && h in home && index == old(index)[contents[h] := h]
    {
      hide OneToOne, Placed, Buckets, Hashed;
      var j := hashes[h] % size;
      assert |chains| == size by { ChainsSized(); }
      ghost var chains2 := chains[j := [h] + chains[j]];
      PushBucket(hash, hnext, chains, home, h, j);
      OneToOneAdd(contents, home, index, h, j, contents[h]);
      forall b | 0 <= b < size ensures Placed(chains2, hashes, size, b) {
        PlacedPush(chains, hashes, size, h, b);
      }
      hnext := hnext[h := hash[j]];
      hash := hash[j := To(h)];
      nuse := nuse + 1;
      chains := chains2;
      home := home[h := j];
      index := index[contents[h] := h];
    }

    lemma ChainsSized()
      requires Valid()
      ensures |chains| == size
    {
    }

    // The collector shrinks a table that has become too large.
    method CheckSize(granted: bool)
      requires Valid()
      modifies this`hash, this`hnext, this`chains, this`home, this`size
      ensures Valid()
    {
      if nuse < size / 4 {
        Resize(size / 2, granted);
      }
    }
  }
}
