/** What a guest reads from a catalog: the descent by "last key not above the
    target", and why it finds exactly the records beneath the root. */
module HfsSearch {
  import opened Units
  import opened HfsRecord
  import opened HfsNode

  predicate Sorted(s: seq<Rec>) {
    forall i, j :: 0 <= i <= j < |s| ==> AtMost(s[i].key, s[j].key)
  }

  predicate Holds(s: seq<Rec>, key: Key, payload: Bytes) {
    exists i :: 0 <= i < |s| && Same(s[i].key, key) && s[i].payload == payload
  }

  predicate Has(s: seq<Rec>, key: Key) {
    exists i :: 0 <= i < |s| && Same(s[i].key, key)
  }

  // ---- the reader -----------------------------------------------------------

  function LeafOf(b: Bytes): Rec {
    match ReadLeaf(b)
    case Some(r) => r
    case None => Rec(Key(0, []), [])
  }

  function PointerOf(b: Bytes): Word {
    match ReadPointer(b)
    case Some(c) => c
    case None => 0
  }

  /** The last of the first n records whose key is not above the target, or -1. */
  function LastNotAbove(rs: seq<Bytes>, n: nat, key: Key): (k: int)
    requires n <= |rs|
    ensures -1 <= k < n
  {
    if n == 0 then -1
    else if ReadKey(rs[n - 1]).Some? && AtMost(ReadKey(rs[n - 1]).value, key) then n - 1
    else LastNotAbove(rs, n - 1, key)
  }

  /** The search from a node at height h down to its leaf. */
  function Find(nodes: seq<Bytes>, num: nat, h: nat, key: Key): Option<Bytes>
    decreases h
  {
    if num >= |nodes| || h == 0 then None
    else
      var rs := Records(nodes[num]);
      var k := LastNotAbove(rs, |rs|, key);
      if k < 0 then None
      else if h > 1 then Find(nodes, PointerOf(rs[k]), h - 1, key)
      else if Same(LeafOf(rs[k]).key, key) then Some(LeafOf(rs[k]).payload)
      else None
  }

  // ---- what lies beneath a node ---------------------------------------------

  function Decoded(rs: seq<Bytes>): (s: seq<Rec>)
    ensures |s| == |rs| && forall i :: 0 <= i < |rs| ==> s[i] == LeafOf(rs[i])
  {
    seq(|rs|, i requires 0 <= i < |rs| => LeafOf(rs[i]))
  }

  function Parts(nodes: seq<Bytes>, rs: seq<Bytes>, h: nat): (ps: seq<seq<Rec>>)
    ensures |ps| == |rs| && forall i :: 0 <= i < |rs| ==> ps[i] == Under(nodes, PointerOf(rs[i]), h)
    decreases h, 1
  {
    seq(|rs|, i requires 0 <= i < |rs| => Under(nodes, PointerOf(rs[i]), h))
  }

  /** The leaf records beneath a node of height h, left to right. */
  function Under(nodes: seq<Bytes>, num: nat, h: nat): seq<Rec>
    decreases h, 0
  {
    if num >= |nodes| || h == 0 then []
    else if h == 1 then Decoded(Records(nodes[num]))
    else Flat(Parts(nodes, Records(nodes[num]), h - 1))
  }

  /** An index record carries the first key beneath its child. */
  predicate Guides(nodes: seq<Bytes>, b: Bytes, h: nat) {
    && ReadPointer(b).Some? && Under(nodes, PointerOf(b), h) != []
    && ReadKey(b) == Some(Under(nodes, PointerOf(b), h)[0].key)
  }

  predicate LeafSound(n: Bytes) {
    && |n| == NODE_SIZE && n[8] == 0xFF && n[9] == 1 && Records(n) != []
    && forall k :: 0 <= k < |Records(n)| ==> ReadLeaf(Records(n)[k]).Some?
  }

  /** A well-formed subtree: leaves at the bottom, every index key the first key
      of its child, heights as recorded. */
  predicate Sound(nodes: seq<Bytes>, num: nat, h: nat)
    decreases h
  {
    && 1 <= num < |nodes| && h >= 1
    && if h == 1 then LeafSound(nodes[num])
       else
         && |nodes[num]| == NODE_SIZE && nodes[num][8] == 0 && nodes[num][9] == h && Records(nodes[num]) != []
         && forall k :: 0 <= k < |Records(nodes[num])| ==>
              Guides(nodes, Records(nodes[num])[k], h - 1) && Sound(nodes, PointerOf(Records(nodes[num])[k]), h - 1)
  }

  /** More nodes, and a new header in slot 0, change nothing beneath. */
  predicate Extends(nodes: seq<Bytes>, more: seq<Bytes>) {
    |nodes| <= |more| && forall i :: 1 <= i < |nodes| ==> more[i] == nodes[i]
  }

  lemma {:induction false} SoundGrows(nodes: seq<Bytes>, more: seq<Bytes>, num: nat, h: nat)
    requires Sound(nodes, num, h) && Extends(nodes, more)
    ensures Sound(more, num, h) && Under(more, num, h) == Under(nodes, num, h)
    decreases h
  {
    hide Records, Flat, LeafSound, PointerOf, ReadKey, ReadPointer;
    if h > 1 {
      var rs := Records(nodes[num]);
      forall k | 0 <= k < |rs|
        ensures Guides(more, rs[k], h - 1) && Sound(more, PointerOf(rs[k]), h - 1)
        ensures Under(more, PointerOf(rs[k]), h - 1) == Under(nodes, PointerOf(rs[k]), h - 1)
      {
        SoundGrows(nodes, more, PointerOf(rs[k]), h - 1);
      }
      assert Parts(more, rs, h - 1) == Parts(nodes, rs, h - 1);
    }
  }

  // ---- places in a concatenation --------------------------------------------

  function Before<T>(gs: seq<seq<T>>, j: nat): nat
    requires j <= |gs|
  {
    |Flat(gs[..j])|
  }

  lemma BeforeStep<T>(gs: seq<seq<T>>, j: nat)
    requires j < |gs|
    ensures Before(gs, j + 1) == Before(gs, j) + |gs[j]|
    ensures Flat(gs[..j + 1]) == Flat(gs[..j]) + gs[j]
  {
    assert gs[..j + 1] == gs[..j] + [gs[j]];
    FlatSnoc(gs[..j], gs[j]);
  }

  lemma {:induction false} BeforeGrows<T>(gs: seq<seq<T>>, j: nat, k: nat)
    requires j <= k <= |gs|
    ensures Before(gs, j) <= Before(gs, k)
    ensures Flat(gs[..j]) <= Flat(gs[..k])
    decreases k - j
  {
    if j < k {
      BeforeGrows(gs, j, k - 1);
      BeforeStep(gs, k - 1);
    }
  }

  /** Element t of part j sits at Before(j) + t. */
  lemma FlatAt<T>(gs: seq<seq<T>>, j: nat, t: nat)
    requires j < |gs| && t < |gs[j]|
    ensures Before(gs, j) + t < |Flat(gs)| && Flat(gs)[Before(gs, j) + t] == gs[j][t]
  {
    BeforeStep(gs, j);
    BeforeGrows(gs, j + 1, |gs|);
    assert gs[..|gs|] == gs;
    assert Flat(gs[..j + 1])[Before(gs, j) + t] == gs[j][t];
  }

  /** Every element comes from some part. */
  lemma {:induction false} FlatFrom<T>(gs: seq<seq<T>>, i: nat) returns (j: nat, t: nat)
    requires i < |Flat(gs)|
    ensures j < |gs| && t < |gs[j]| && gs[j][t] == Flat(gs)[i]
    decreases |gs|
  {
    var front := gs[..|gs| - 1];
    if i < |Flat(front)| {
      j, t := FlatFrom(front, i);
    } else {
      j, t := |gs| - 1, i - |Flat(front)|;
    }
  }

  lemma PartsOrdered(ps: seq<seq<Rec>>, j: nat, t: nat, k: nat, u: nat)
    requires Sorted(Flat(ps)) && j < k < |ps| && t < |ps[j]| && u < |ps[k]|
    ensures AtMost(ps[j][t].key, ps[k][u].key)
  {
    hide AtMost, Flat;
    FlatAt(ps, j, t);
    FlatAt(ps, k, u);
    BeforeStep(ps, j);
    BeforeGrows(ps, j + 1, k);
  }

  lemma PartSorted(ps: seq<seq<Rec>>, j: nat)
    requires Sorted(Flat(ps)) && j < |ps|
    ensures Sorted(ps[j])
  {
    hide AtMost, Flat;
    forall a, b | 0 <= a <= b < |ps[j]|
      ensures AtMost(ps[j][a].key, ps[j][b].key)
    {
      FlatAt(ps, j, a);
      FlatAt(ps, j, b);
    }
  }

  // ---- the search is right --------------------------------------------------

  lemma {:induction false} LastIs(rs: seq<Bytes>, n: nat, key: Key)
    requires n <= |rs|
    ensures var k := LastNotAbove(rs, n, key);
      && (k >= 0 ==> ReadKey(rs[k]).Some? && AtMost(ReadKey(rs[k]).value, key))
      && forall j :: k < j < n ==> !(ReadKey(rs[j]).Some? && AtMost(ReadKey(rs[j]).value, key))
  {
    hide ReadKey, AtMost;
    if n > 0 {
      LastIs(rs, n - 1, key);
    }
  }

  lemma SameMeans(a: Key, key: Key)
    ensures Same(a, key) <==> AtMost(a, key) && AtMost(key, a)
  {
    Total(a, key);
  }

  lemma LeafKey(b: Bytes)
    requires ReadLeaf(b).Some?
    ensures ReadKey(b) == Some(LeafOf(b).key)
  {
  }

  /** In a sorted leaf the last key not above the target decides. */
  lemma LeafSearch(nodes: seq<Bytes>, num: nat, key: Key)
    requires Sound(nodes, num, 1) && Sorted(Under(nodes, num, 1))
    ensures Find(nodes, num, 1, key).Some? <==> Has(Under(nodes, num, 1), key)
    ensures Find(nodes, num, 1, key).Some? ==> Holds(Under(nodes, num, 1), key, Find(nodes, num, 1, key).value)
  {
    hide ReadKey, ReadLeaf, AtMost, Same, Records, LastNotAbove;
    var rs, s := Records(nodes[num]), Under(nodes, num, 1);
    var k := LastNotAbove(rs, |rs|, key);
    LastIs(rs, |rs|, key);
    forall i | 0 <= i < |rs|
      ensures ReadKey(rs[i]) == Some(s[i].key)
    {
      LeafKey(rs[i]);
    }
    if Has(s, key) {
      var i :| 0 <= i < |s| && Same(s[i].key, key);
      SameMeans(s[i].key, key);
      assert i <= k;
      Transitive(key, s[i].key, s[k].key);
      SameMeans(s[k].key, key);
    }
  }

  lemma IndexPicks(nodes: seq<Bytes>, rs: seq<Bytes>, h: nat, key: Key, k: int)
    requires forall i :: 0 <= i < |rs| ==> Guides(nodes, rs[i], h)
    requires Sorted(Flat(Parts(nodes, rs, h)))
    requires k == LastNotAbove(rs, |rs|, key) && Has(Flat(Parts(nodes, rs, h)), key)
    ensures 0 <= k < |rs| && Has(Parts(nodes, rs, h)[k], key)
  {
    hide ReadKey, AtMost, Same, LastNotAbove, Flat, Sorted, Under, PointerOf;
    var ps: seq<seq<Rec>> := Parts(nodes, rs, h);
    LastIs(rs, |rs|, key);
    var i :| 0 <= i < |Flat(ps)| && Same(Flat(ps)[i].key, key);
    var j, t := FlatFrom(ps, i);
    var first, hit := ps[j][0].key, ps[j][t].key;
    assert Guides(nodes, rs[j], h);
    SameMeans(hit, key);
    PartSorted(ps, j);
    FirstAtMost(ps[j], t);
    Transitive(first, hit, key);
    assert j <= k;
    if j < k {
      assert Guides(nodes, rs[k], h);
      var next := ps[k][0].key;
      PartsOrdered(ps, j, t, k, 0);
      Transitive(key, hit, next);
      SameMeans(next, key);
    }
  }

  lemma FirstAtMost(s: seq<Rec>, t: nat)
    requires Sorted(s) && t < |s|
    ensures AtMost(s[0].key, s[t].key)
  {
  }

  /** Descending by the last index key not above the target finds a record
      exactly when one with that key lies beneath. */
  lemma {:induction false} FindIs(nodes: seq<Bytes>, num: nat, h: nat, key: Key)
    requires Sound(nodes, num, h) && Sorted(Under(nodes, num, h))
    ensures Find(nodes, num, h, key).Some? <==> Has(Under(nodes, num, h), key)
    ensures Find(nodes, num, h, key).Some? ==> Holds(Under(nodes, num, h), key, Find(nodes, num, h, key).value)
    decreases h
  {
    hide Records, AtMost, Same, LastNotAbove, Flat, Sorted, PointerOf, ReadKey, LeafOf;
    if h == 1 {
      LeafSearch(nodes, num, key);
    } else {
      var rs := Records(nodes[num]);
      var ps: seq<seq<Rec>>, k := Parts(nodes, rs, h - 1), LastNotAbove(rs, |rs|, key);
      if Has(Flat(ps), key) {
        IndexPicks(nodes, rs, h - 1, key, k);
      }
      if k >= 0 {
        PartSorted(ps, k);
        FindIs(nodes, PointerOf(rs[k]), h - 1, key);
        Lifts(ps, k, key);
      }
    }
  }

  lemma Lifts(ps: seq<seq<Rec>>, k: nat, key: Key)
    requires k < |ps|
    ensures Has(ps[k], key) ==> Has(Flat(ps), key)
    ensures forall payload :: Holds(ps[k], key, payload) ==> Holds(Flat(ps), key, payload)
  {
    hide Same, Flat;
    forall i | 0 <= i < |ps[k]| && Same(ps[k][i].key, key)
      ensures Has(Flat(ps), key) && Holds(Flat(ps), key, ps[k][i].payload)
    {
      FlatAt(ps, k, i);
    }
  }

  /** Keys that compare equal find the same thing. */
  lemma {:induction false} FindFolds(nodes: seq<Bytes>, num: nat, h: nat, a: Key, b: Key)
    requires Same(a, b)
    ensures Find(nodes, num, h, a) == Find(nodes, num, h, b)
    decreases h
  {
    if num < |nodes| && h > 0 {
      hide Records, AtMost, Same, PointerOf, ReadKey, LeafOf, LastNotAbove;
      var rs := Records(nodes[num]);
      LastFolds(rs, |rs|, a, b);
      var k := LastNotAbove(rs, |rs|, a);
      if k >= 0 {
        FindFolds(nodes, PointerOf(rs[k]), h - 1, a, b);
        SameFolds(LeafOf(rs[k]).key, a, b);
      }
    }
  }

  lemma SameFolds(x: Key, a: Key, b: Key)
    requires Same(a, b)
    ensures AtMost(x, a) <==> AtMost(x, b)
    ensures Same(x, a) <==> Same(x, b)
  {
    hide AtMost, Same;
    Total(a, b);
    Total(x, a);
    Total(x, b);
    if AtMost(x, a) {
      Transitive(x, a, b);
    }
    if AtMost(x, b) {
      Transitive(x, b, a);
    }
    if AtMost(a, x) {
      Transitive(b, a, x);
    }
    if AtMost(b, x) {
      Transitive(a, b, x);
    }
  }

  lemma {:induction false} LastFolds(rs: seq<Bytes>, n: nat, a: Key, b: Key)
    requires n <= |rs| && Same(a, b)
    ensures LastNotAbove(rs, n, a) == LastNotAbove(rs, n, b)
  {
    hide AtMost, Same, ReadKey;
    if n > 0 {
      LastFolds(rs, n - 1, a, b);
      if ReadKey(rs[n - 1]).Some? {
        SameFolds(ReadKey(rs[n - 1]).value, a, b);
      }
    }
  }

  // ---- the leaf chain -------------------------------------------------------

  /** The records met by following forward links from a leaf. */
  function Chain(nodes: seq<Bytes>, num: nat): seq<Rec>
    decreases |nodes| - num
  {
    if num == 0 || num >= |nodes| || |nodes[num]| != NODE_SIZE then []
    else Decoded(Records(nodes[num])) + if Get32(nodes[num], 0) > num then Chain(nodes, Get32(nodes[num], 0)) else []
  }

  /** The records met by following backward links, in the order of the list. */
  function BackChain(nodes: seq<Bytes>, num: nat): seq<Rec>
    decreases num
  {
    if num == 0 || num >= |nodes| || |nodes[num]| != NODE_SIZE then []
    else (if Get32(nodes[num], 4) < num then BackChain(nodes, Get32(nodes[num], 4)) else []) + Decoded(Records(nodes[num]))
  }
}
