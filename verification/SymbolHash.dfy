/**
 The System V hash table of external/elfcopy/hash.c (lines 7-76), one flat array
 of words: the number of buckets, the number of chains, the buckets, the chains
 (System V ABI, chapter 5, section "Hash Table").  The chain building in
 update_hash_table (external/elfcopy/elfcopy.c, lines 1273-1299) is the same.

 The hash function is any function.  Names are those of the symbol table.
*/
module SymbolHash {

  const STN_UNDEF := 0

  ghost function Bucket(hash: string -> nat, name: string, nbuckets: nat): (r: nat)
    requires nbuckets > 0
    ensures r < nbuckets
  {
    hash(name) % nbuckets
  }

  lemma BucketIs(hash: string -> nat, name: string, nbuckets: nat)
    requires nbuckets > 0
    ensures hash(name) % nbuckets == Bucket(hash, name, nbuckets)
  {
  }

  // The symbols and the hash function.
  datatype Symbols = Symbols(names: seq<string>, hash: string -> nat)

  // Those of `added` that go to bucket `k`, in order.
  ghost function InBucket(y: Symbols, nb: nat, added: seq<nat>, k: nat): (r: seq<nat>)
    requires nb > 0 && forall i :: 0 <= i < |added| ==> added[i] < |y.names|
    ensures forall i :: 0 <= i < |r| ==> r[i] in added && Bucket(y.hash, y.names[r[i]], nb) == k
  {
    if added == [] then []
    else
      var x := added[|added| - 1];
      InBucket(y, nb, added[..|added| - 1], k) + if Bucket(y.hash, y.names[x], nb) == k then [x] else []
  }

  // The chain of a bucket holds exactly the symbols whose hash has it as its remainder.
  lemma {:induction false} BucketMeans(y: Symbols, nb: nat, added: seq<nat>, k: nat, x: nat)
    requires nb > 0 && (forall i :: 0 <= i < |added| ==> added[i] < |y.names|) && x < |y.names|
    ensures x in InBucket(y, nb, added, k) <==> x in added && y.hash(y.names[x]) % nb == k
  {
    if added != [] {
      var n := |added| - 1;
      assert added == added[..n] + [added[n]];
      BucketMeans(y, nb, added[..n], k, x);
    }
  }

  ghost predicate Distinct(s: seq<nat>) {
    forall i, j :: 0 <= i < j < |s| ==> s[i] != s[j]
  }

  ghost predicate Proper(y: Symbols, nc: nat, added: seq<nat>) {
    Distinct(added) && forall i :: 0 <= i < |added| ==> added[i] != STN_UNDEF && added[i] < nc && added[i] < |y.names|
  }

  ghost predicate Sized(s: seq<nat>) {
    |s| >= 2 && s[0] > 0 && |s| == 2 + s[0] + s[1]
  }

  // chains[x].
  ghost function Next(s: seq<nat>, x: nat): nat
    requires Sized(s) && x < s[1]
  {
    s[2 + s[0] + x]
  }

  ghost predicate Follows(s: seq<nat>, l: seq<nat>, i: nat)
    requires Sized(s) && i < |l|
  {
    l[i] < s[1] && Next(s, l[i]) == if i + 1 < |l| then l[i + 1] else STN_UNDEF
  }

  // The chain of bucket `k` runs through `l` and ends: it is acyclic.
  ghost predicate Chained(s: seq<nat>, k: nat, l: seq<nat>)
    requires Sized(s) && k < s[0]
  {
    && s[2 + k] == (if l == [] then STN_UNDEF else l[0])
    && (forall i :: 0 <= i < |l| ==> l[i] != STN_UNDEF && l[i] < s[1])
    && (forall i :: 0 <= i < |l| ==> Follows(s, l, i))
    && Distinct(l)
  }

  ghost predicate Rep(s: seq<nat>, y: Symbols, added: seq<nat>) {
    && Sized(s) && Proper(y, s[1], added)
    && (forall k: nat :: k < s[0] ==> Chained(s, k, InBucket(y, s[0], added, k)))
    && (forall x: nat :: x < s[1] && x !in added ==> Next(s, x) == STN_UNDEF)
  }

  lemma InBucketStep(y: Symbols, nb: nat, added: seq<nat>, x: nat, k: nat)
    requires nb > 0 && x < |y.names| && forall i :: 0 <= i < |added| ==> added[i] < |y.names|
    ensures InBucket(y, nb, added + [x], k) == InBucket(y, nb, added, k) + if Bucket(y.hash, y.names[x], nb) == k then [x] else []
  {
    assert (added + [x])[..|added|] == added;
  }

  // ---- Adding ----

  // The word that changes: the bucket itself, or the end of its chain.
  ghost function Place(s: seq<nat>, k: nat, l: seq<nat>): (r: nat)
    requires Sized(s) && k < s[0] && Chained(s, k, l)
    ensures r < |s|
  {
    if l == [] then 2 + k else 2 + s[0] + l[|l| - 1]
  }

  // The chain of the bucket grows by `x` at its end.
  lemma ChainGrows(s: seq<nat>, k: nat, l: seq<nat>, x: nat)
    requires Sized(s) && k < s[0] && Chained(s, k, l) && x != STN_UNDEF && x < s[1] && x !in l && Next(s, x) == STN_UNDEF
    ensures Sized(s[Place(s, k, l) := x]) && Chained(s[Place(s, k, l) := x], k, l + [x])
  {
    var s' := s[Place(s, k, l) := x];
    var l' := l + [x];
    forall i | 0 <= i < |l'| ensures Follows(s', l', i) {
      if i < |l| {
        assert l'[i] == l[i] && Follows(s, l, i);
      }
    }
  }

  // Every other chain stays.
  lemma ChainStays(s: seq<nat>, k: nat, l: seq<nat>, x: nat, k': nat, l': seq<nat>)
    requires Sized(s) && k < s[0] && Chained(s, k, l) && k' < s[0] && k' != k && Chained(s, k', l')
    requires l != [] ==> l[|l| - 1] !in l'
    ensures Sized(s[Place(s, k, l) := x]) && Chained(s[Place(s, k, l) := x], k', l')
  {
    var s' := s[Place(s, k, l) := x];
    forall i | 0 <= i < |l'| ensures Follows(s', l', i) {
      assert Follows(s, l', i);
    }
  }

  lemma AddChains(s: seq<nat>, y: Symbols, added: seq<nat>, x: nat, k: nat, k': nat)
    requires Rep(s, y, added) && x != STN_UNDEF && x < s[1] && x < |y.names| && x !in added
    requires k == Bucket(y.hash, y.names[x], s[0]) && k' < s[0]
    ensures var s' := s[Place(s, k, InBucket(y, s[0], added, k)) := x];
      Sized(s') && s'[0] == s[0] && s'[1] == s[1] && Chained(s', k', InBucket(y, s[0], added + [x], k'))
  {
    hide Chained, Next, Bucket;
    var l, l' := InBucket(y, s[0], added, k), InBucket(y, s[0], added, k');
    InBucketStep(y, s[0], added, x, k');
    if k' == k {
      ChainGrows(s, k, l, x);
    } else {
      assert l' + [] == l';
      ChainStays(s, k, l, x, k', l');
    }
  }

  lemma AddLaw(s: seq<nat>, y: Symbols, added: seq<nat>, x: nat, k: nat)
    requires Rep(s, y, added) && x != STN_UNDEF && x < s[1] && x < |y.names| && x !in added
    requires k == Bucket(y.hash, y.names[x], s[0])
    ensures Rep(s[Place(s, k, InBucket(y, s[0], added, k)) := x], y, added + [x])
  {
    hide Chained, Bucket, Next, Place;
    var l := InBucket(y, s[0], added, k);
    var s' := s[Place(s, k, l) := x];
    forall k': nat | k' < s[0] ensures Sized(s') && s'[0] == s[0] && s'[1] == s[1] && Chained(s', k', InBucket(y, s[0], added + [x], k')) {
      AddChains(s, y, added, x, k, k');
    }
    AddChains(s, y, added, x, k, k);
    AddEnds(s, y, added, x, k);
    assert Proper(y, s[1], added + [x]);
  }

  lemma AddEnds(s: seq<nat>, y: Symbols, added: seq<nat>, x: nat, k: nat)
    requires Rep(s, y, added) && k < s[0]
    ensures var s' := s[Place(s, k, InBucket(y, s[0], added, k)) := x];
      Sized(s') && forall z: nat :: z < s'[1] && z !in added + [x] ==> Next(s', z) == STN_UNDEF
  {
    var l := InBucket(y, s[0], added, k);
    var s' := s[Place(s, k, l) := x];
    if l != [] { assert l[|l| - 1] in added; }
    assert s'[0] == s[0] && s'[1] == s[1];
    forall z: nat | z < s'[1] && z !in added + [x] ensures Next(s', z) == STN_UNDEF {
      assert z !in added;
      assert Next(s, z) == STN_UNDEF;
    }
  }

  // ---- Looking up ----

  // The first of `l` with that name.
  ghost function First(y: Symbols, l: seq<nat>, name: string): (r: nat)
    requires forall i :: 0 <= i < |l| ==> l[i] < |y.names|
  {
    if l == [] then STN_UNDEF else if y.names[l[0]] == name then l[0] else First(y, l[1..], name)
  }

  // STN_UNDEF means that no symbol has the name; anything else is the earliest that has it.
  lemma {:induction false} FirstMeans(y: Symbols, l: seq<nat>, name: string) returns (at: nat)
    requires forall i :: 0 <= i < |l| ==> l[i] < |y.names| && l[i] != STN_UNDEF
    ensures at <= |l| && forall i :: 0 <= i < at ==> y.names[l[i]] != name
    ensures if at == |l| then First(y, l, name) == STN_UNDEF
            else First(y, l, name) == l[at] && y.names[l[at]] == name
  {
    at := 0;
    if l != [] && y.names[l[0]] != name {
      at := FirstMeans(y, l[1..], name);
      at := at + 1;
    }
  }

  lemma {:induction false} FirstAppend(y: Symbols, l: seq<nat>, x: nat, name: string)
    requires x < |y.names| && forall i :: 0 <= i < |l| ==> l[i] < |y.names| && l[i] != STN_UNDEF
    ensures First(y, l + [x], name) == if First(y, l, name) != STN_UNDEF then First(y, l, name)
                                       else if y.names[x] == name then x else STN_UNDEF
  {
    if l != [] {
      assert (l + [x])[1..] == l[1..] + [x];
      FirstAppend(y, l[1..], x, name);
    }
  }

  // Looking in the name's bucket only finds the same symbol.
  lemma {:induction false} FirstInBucket(y: Symbols, nb: nat, added: seq<nat>, name: string)
    requires nb > 0 && forall i :: 0 <= i < |added| ==> added[i] < |y.names| && added[i] != STN_UNDEF
    ensures First(y, InBucket(y, nb, added, Bucket(y.hash, name, nb)), name) == First(y, added, name)
  {
    hide Bucket;
    var k := Bucket(y.hash, name, nb);
    if added != [] {
      var init, x := added[..|added| - 1], added[|added| - 1];
      assert added == init + [x];
      FirstInBucket(y, nb, init, name);
      FirstAppend(y, init, x, name);
      var l := InBucket(y, nb, init, k);
      if Bucket(y.hash, y.names[x], nb) == k {
        FirstAppend(y, l, x, name);
      } else {
        assert l + [] == l;
      }
    }
  }

  // A walk that has passed the first `i` of a chain without a match.
  lemma {:induction false} FirstFrom(y: Symbols, l: seq<nat>, i: nat, name: string)
    requires (forall k :: 0 <= k < |l| ==> l[k] < |y.names|) && i <= |l|
    requires forall k :: 0 <= k < i ==> y.names[l[k]] != name
    ensures First(y, l, name) == First(y, l[i..], name)
  {
    if i > 0 {
      assert l[1..][i - 1..] == l[i..];
      FirstFrom(y, l[1..], i - 1, name);
    } else {
      assert l[0..] == l;
    }
  }

  lemma ChainOf(s: seq<nat>, y: Symbols, added: seq<nat>, k: nat)
    requires Rep(s, y, added) && k < s[0]
    ensures Chained(s, k, InBucket(y, s[0], added, k))
    ensures forall i :: 0 <= i < |InBucket(y, s[0], added, k)| ==> InBucket(y, s[0], added, k)[i] < |y.names|
  {
    hide Chained;
    var l := InBucket(y, s[0], added, k);
    forall i | 0 <= i < |l| ensures l[i] < |y.names| {
      assert l[i] in added;
    }
  }

  lemma HeadOf(s: seq<nat>, k: nat, l: seq<nat>)
    requires Sized(s) && k < s[0] && Chained(s, k, l)
    ensures s[2 + k] == if l == [] then STN_UNDEF else l[0]
    ensures forall i :: 0 <= i < |l| ==> l[i] != STN_UNDEF && l[i] < s[1]
  {
  }

  lemma NextOf(s: seq<nat>, k: nat, l: seq<nat>, i: nat)
    requires Sized(s) && k < s[0] && Chained(s, k, l) && i < |l|
    ensures l[i] < s[1] && s[2 + s[0] + l[i]] == if i + 1 < |l| then l[i + 1] else STN_UNDEF
  {
    assert Follows(s, l, i);
  }

  class HashTable {
    const syms: Symbols
    const d: array<nat>
    ghost var added: seq<nat>

    ghost predicate Valid()
      reads this, d
    {
      Rep(d[..], syms, added)
    }

    // setup_hash.
    constructor (syms: Symbols, nbuckets: nat, nchains: nat)
      requires nbuckets > 0
      ensures Valid() && added == [] && fresh(d) && this.syms == syms && d.Length == 2 + nbuckets + nchains && d[1] == nchains
    {
      this.syms := syms;
      d := new nat[2 + nbuckets + nchains](_ => 0);
      added := [];
      new;
      d[0], d[1] := nbuckets, nchains;
      assert forall k: nat :: k < nbuckets ==> InBucket(syms, nbuckets, [], k) == [];
    }

    // The end of a chain.
    method Last(k: nat) returns (last: nat)
      requires Valid() && d.Length >= 2 && k < d[0] && 2 + k < d.Length && d[2 + k] != STN_UNDEF
      ensures var l := InBucket(syms, d[0], added, k); l != [] && last == l[|l| - 1] && 2 + d[0] + last < d.Length
    {
      hide Rep, Bucket, Chained, InBucket;
      ghost var s := d[..];
      SizedOf(s, syms, added);
      assert s[0] == d[0] && s[2 + k] == d[2 + k];
      ChainOf(s, syms, added, k);
      ghost var l := InBucket(syms, d[0], added, k);
      ghost var i := 0;
      HeadOf(s, k, l);
      last := d[2 + k];
      assert s[1] == d[1];
      while d[2 + d[0] + last] != STN_UNDEF
        invariant i < |l| && last == l[i] && 2 + d[0] + last < d.Length
        decreases |l| - i
      {
        NextOf(s, k, l, i);
        last := d[2 + d[0] + last];
        i := i + 1;
      }
      NextOf(s, k, l, i);
    }

    // The chain building: into the bucket if it is empty, else behind the last of its chain.  Index 0
    // into a table with nothing in it has no effect.
    method Link(symindex: nat)
      requires Valid() && d.Length >= 2 && symindex < d[1] && symindex < |syms.names|
      requires if symindex == STN_UNDEF then added == [] else symindex !in added
      modifies this, d
      ensures Valid() && d.Length >= 2 && d[1] == old(d[1])
      ensures if symindex == STN_UNDEF then added == [] && d[..] == old(d[..]) else added == old(added) + [symindex]
    {
      hide Rep, Bucket, InBucket;
      ghost var s := d[..];
      SizedOf(s, syms, added);
      BucketIs(syms.hash, syms.names[symindex], d[0]);
      var k := syms.hash(syms.names[symindex]) % d[0];
      ChainOf(s, syms, added, k);
      ghost var l := InBucket(syms, d[0], added, k);
      NothingIn(syms, d[0], k);
      if symindex != STN_UNDEF { AddLaw(s, syms, added, symindex, k); }
      if d[2 + k] == STN_UNDEF {
        d[2 + k] := symindex;
      } else {
        var last := Last(k);
        d[2 + d[0] + last] := symindex;
      }
      if symindex != STN_UNDEF {
        added := added + [symindex];
        assert d[..] == s[Place(s, k, l) := symindex];
      } else {
        assert d[..] == s;
      }
    }

    // add_to_hash.
    method Add(symindex: nat)
      requires Valid() && symindex != STN_UNDEF && d.Length >= 2 && symindex < d[1] && symindex < |syms.names| && symindex !in added
      modifies this, d
      ensures Valid() && added == old(added) + [symindex] && d.Length >= 2 && d[1] == old(d[1])
    {
      hide Rep;
      Link(symindex);
    }

    // hash_lookup: the first symbol added that has the name.
    method Lookup(name: string) returns (index: nat)
      requires Valid()
      ensures forall i :: 0 <= i < |added| ==> added[i] < |syms.names|
      ensures index == First(syms, added, name)
    {
      hide Rep, Bucket, InBucket, Chained;
      ghost var s := d[..];
      SizedOf(s, syms, added);
      BucketIs(syms.hash, name, d[0]);
      var k := syms.hash(name) % d[0];
      ChainOf(s, syms, added, k);
      ghost var l := InBucket(syms, d[0], added, k);
      FirstInBucket(syms, d[0], added, name);
      ghost var i := 0;
      HeadOf(s, k, l);
      index := d[2 + k];
      while index != STN_UNDEF
        invariant i <= |l| && index == if i < |l| then l[i] else STN_UNDEF
        invariant forall j :: 0 <= j < i ==> syms.names[l[j]] != name
        decreases |l| - i
      {
        FirstFrom(syms, l, i, name);
        if name == syms.names[index] {
          return;
        }
        NextOf(s, k, l, i);
        index := d[2 + d[0] + index];
        i := i + 1;
      }
      FirstFrom(syms, l, i, name);
    }
  }

  lemma NothingIn(y: Symbols, nb: nat, k: nat)
    requires nb > 0
    ensures InBucket(y, nb, [], k) == []
  {
  }

  lemma SizedOf(s: seq<nat>, y: Symbols, added: seq<nat>)
    requires Rep(s, y, added)
    ensures Sized(s) && Proper(y, s[1], added)
  {
  }

  /** The loop of update_hash_table: the symbols from sh_info on go into a cleared table.  With sh_info
      0, which adjust_elf leaves when no local symbol is kept, its first round adds symbol 0 and so
      nothing. */
  method Rebuild(syms: Symbols, nbuckets: nat, first: nat) returns (t: HashTable)
    requires nbuckets > 0 && first <= |syms.names|
    ensures t.Valid() && t.syms == syms && t.added == From(if first == 0 then 1 else first, |syms.names|)
  {
    hide Rep;
    t := new HashTable(syms, nbuckets, |syms.names|);
    var inner := first;
    ghost var low := if first == 0 then 1 else first;
    while inner < |syms.names|
      invariant first <= inner <= |syms.names| && t.Valid() && t.syms == syms && t.d.Length >= 2 && t.d[1] == |syms.names|
      invariant t.added == From(low, inner)
      invariant fresh(t) && fresh(t.d)
    {
      t.Link(inner);
      inner := inner + 1;
    }
  }

  // The indices from `low` up to `high`.
  ghost function From(low: nat, high: nat): seq<nat> {
    seq(if low < high then high - low else 0, i => low + i)
  }
}
