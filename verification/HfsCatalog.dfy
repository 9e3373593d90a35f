/** The catalog builder: sort, pack the leaves, raise the index levels, write the
    header; and the space the volume reserves for it. */
module HfsCatalog {
  import opened Units
  import opened HfsRecord
  import opened HfsNode
  import opened HfsSearch

  // ---- sorting --------------------------------------------------------------

  method SortRecs(recs: seq<Rec>) returns (s: seq<Rec>)
    ensures Sorted(s) && multiset(s) == multiset(recs)
  {
    s := [];
    for i := 0 to |recs|
      invariant Sorted(s) && multiset(s) == multiset(recs[..i])
    {
      hide AtMost;
      s := Inserted(s, recs[i]);
      assert recs[..i + 1] == recs[..i] + [recs[i]];
    }
    assert recs[..|recs|] == recs;
  }

  method Inserted(s: seq<Rec>, r: Rec) returns (t: seq<Rec>)
    requires Sorted(s)
    ensures Sorted(t) && multiset(t) == multiset(s) + multiset{r}
  {
    hide AtMost;
    var k := |s|;
    while k > 0 && !AtMost(s[k - 1].key, r.key)
      invariant 0 <= k <= |s|
      invariant forall j :: k <= j < |s| ==> AtMost(r.key, s[j].key)
    {
      Total(s[k - 1].key, r.key);
      k := k - 1;
    }
    t := s[..k] + [r] + s[k..];
    InsertedSorted(s, r, k);
    assert s == s[..k] + s[k..];
  }

  lemma InsertedSorted(s: seq<Rec>, r: Rec, k: nat)
    requires Sorted(s) && k <= |s| && (k > 0 ==> AtMost(s[k - 1].key, r.key))
    requires forall j :: k <= j < |s| ==> AtMost(r.key, s[j].key)
    ensures Sorted(s[..k] + [r] + s[k..])
  {
    hide AtMost;
    Total(r.key, r.key);
    forall j | 0 <= j < k
      ensures AtMost(s[j].key, r.key)
    {
      Transitive(s[j].key, s[k - 1].key, r.key);
    }
  }

  // ---- shape of the tree ----------------------------------------------------

  /** Index levels above n nodes, eleven children to a node. */
  function Levels(n: nat): (r: nat)
    decreases n
  {
    if n <= 1 then 0 else 1 + Levels((n + 10) / 11)
  }

  function IndexNodes(n: nat): nat
    decreases n
  {
    if n <= 1 then 0 else (n + 10) / 11 + IndexNodes((n + 10) / 11)
  }

  lemma {:induction false} IndexNodesBound(n: nat)
    ensures 4 * IndexNodes(n) <= n + 6
    decreases n
  {
    if n > 1 {
      IndexNodesBound((n + 10) / 11);
    }
  }

  lemma {:induction false} LevelsTo11(n: nat)
    requires n <= 11
    ensures Levels(n) <= 1
  {
    if n > 1 {
      assert (n + 10) / 11 == 1;
      assert Levels(1) == 0;
    }
  }

  lemma {:induction false} LevelsTo121(n: nat)
    requires n <= 121
    ensures Levels(n) <= 2
  {
    if n > 1 {
      LevelsTo11((n + 10) / 11);
    }
  }

  lemma {:induction false} LevelsTo1331(n: nat)
    requires n <= 1331
    ensures Levels(n) <= 3
  {
    if n > 1 {
      LevelsTo121((n + 10) / 11);
    }
  }

  /** A catalog of at most 2048 leaves is at most five levels deep. */
  lemma {:induction false} LevelsBound(n: nat)
    requires n <= 2048
    ensures Levels(n) <= 4
  {
    if n > 1 {
      LevelsTo1331((n + 10) / 11);
    }
  }

  // ---- one level ------------------------------------------------------------

  datatype Child = Child(node: Word, firstKey: Bytes)

  function Spans(nodes: seq<Bytes>, level: seq<Child>, h: nat): (ps: seq<seq<Rec>>)
    ensures |ps| == |level| && forall i :: 0 <= i < |level| ==> ps[i] == Under(nodes, level[i].node, h)
  {
    seq(|level|, i requires 0 <= i < |level| => Under(nodes, level[i].node, h))
  }

  /** A child roots a sound subtree and carries its first key. */
  predicate Rooted(nodes: seq<Bytes>, c: Child, h: nat) {
    && Sound(nodes, c.node, h) && Under(nodes, c.node, h) != []
    && ReadKey(c.firstKey) == Some(Under(nodes, c.node, h)[0].key)
  }

  predicate AllRooted(nodes: seq<Bytes>, level: seq<Child>, h: nat) {
    forall i :: 0 <= i < |level| ==> Rooted(nodes, level[i], h)
  }

  predicate Whole(nodes: seq<Bytes>) {
    forall i :: 0 <= i < |nodes| ==> |nodes[i]| == NODE_SIZE
  }

  lemma LevelGrows(nodes: seq<Bytes>, more: seq<Bytes>, level: seq<Child>, h: nat)
    requires AllRooted(nodes, level, h) && Extends(nodes, more)
    ensures AllRooted(more, level, h) && Spans(more, level, h) == Spans(nodes, level, h)
  {
    hide Sound, Under, ReadKey, Extends;
    forall i | 0 <= i < |level|
      ensures Rooted(more, level[i], h) && Under(more, level[i].node, h) == Under(nodes, level[i].node, h)
    {
      assert Rooted(nodes, level[i], h);
      SoundGrows(nodes, more, level[i].node, h);
    }
  }

  lemma LevelAdd(nodes: seq<Bytes>, level: seq<Child>, c: Child, h: nat)
    requires AllRooted(nodes, level, h) && Rooted(nodes, c, h)
    ensures AllRooted(nodes, level + [c], h)
    ensures Flat(Spans(nodes, level + [c], h)) == Flat(Spans(nodes, level, h)) + Under(nodes, c.node, h)
  {
    hide Rooted, Under;
    assert Spans(nodes, level + [c], h) == Spans(nodes, level, h) + [Under(nodes, c.node, h)];
    FlatSnoc(Spans(nodes, level, h), Under(nodes, c.node, h));
  }

  // ---- leaves ---------------------------------------------------------------

  function Images(recs: seq<Rec>): (r: seq<Bytes>)
    ensures |r| == |recs| && forall i :: 0 <= i < |recs| ==> r[i] == LeafImage(recs[i])
  {
    seq(|recs|, i requires 0 <= i < |recs| => LeafImage(recs[i]))
  }

  lemma ImagesBack(recs: seq<Rec>)
    ensures Decoded(Images(recs)) == recs
  {
    hide LeafImage;
    forall i | 0 <= i < |recs|
      ensures LeafOf(LeafImage(recs[i])) == recs[i]
    {
      LeafBack(recs[i]);
    }
  }

  function ForwardLink(i: nat, n: nat): nat {
    if i + 1 < n then i + 2 else 0
  }

  function BackLink(i: nat): nat {
    i
  }

  /** Leaf i is node i + 1, linked to its neighbours. */
  predicate LeavesLaid(nodes: seq<Bytes>, groups: seq<seq<Bytes>>, n: nat) {
    && n <= |groups| < 0x1_0000 && n < |nodes|
    && forall i :: 0 <= i < n ==> Laid(nodes[i + 1], 0xFF, 1, groups[i], ForwardLink(i, |groups|), BackLink(i))
  }

  /** A record image: what a leaf record's bytes are. */
  ghost predicate IsImage(b: Bytes) {
    exists r: Rec :: b == LeafImage(r)
  }

  lemma GroupImages(recs: seq<Rec>, groups: seq<seq<Bytes>>, i: nat)
    requires Flat(groups) == Images(recs) && i < |groups|
    ensures forall k :: 0 <= k < |groups[i]| ==> IsImage(groups[i][k])
  {
    hide Flat, LeafImage;
    forall k | 0 <= k < |groups[i]|
      ensures IsImage(groups[i][k])
    {
      FlatAt(groups, i, k);
      var j := Before(groups, i) + k;
      assert groups[i][k] == LeafImage(recs[j]);
    }
  }

  lemma ImageReads(b: Bytes)
    requires IsImage(b)
    ensures ReadLeaf(b).Some? && b != [] && b[0] + 1 <= |b| && ReadKey(b[..b[0] + 1]) == Some(LeafOf(b).key)
  {
    var r: Rec :| b == LeafImage(r);
    LeafBack(r);
    FirstKeyBack(r);
  }

  /** A leaf made from record images is a sound subtree holding those records. */
  lemma LeafRooted(nodes: seq<Bytes>, num: Word, g: seq<Bytes>, f: Word, b: Word)
    requires 1 <= num < |nodes| && g != [] && Laid(nodes[num], 0xFF, 1, g, f, b)
    requires forall k :: 0 <= k < |g| ==> IsImage(g[k])
    ensures Under(nodes, num, 1) == Decoded(g)
    ensures g[0] != [] && g[0][0] + 1 <= |g[0]| && Rooted(nodes, Child(num, g[0][..g[0][0] + 1]), 1)
  {
    RecordsBack(nodes[num], 0xFF, 1, g, f, b);
    hide Records, IsImage, ReadLeaf, ReadKey, LeafOf, Laid;
    assert |nodes[num]| == NODE_SIZE && nodes[num][8] == 0xFF && nodes[num][9] == 1 by {
      LaidHead(nodes[num], 0xFF, 1, g, f, b);
    }
    ImageReads(g[0]);
    forall k | 0 <= k < |g|
      ensures ReadLeaf(g[k]).Some?
    {
      ImageReads(g[k]);
    }
  }

  lemma LaidHead(n: Bytes, kind: Byte, height: Byte, recs: seq<Bytes>, f: Word, b: Word)
    requires Laid(n, kind, height, recs, f, b)
    ensures |n| == NODE_SIZE && n[8] == kind && n[9] == height && Get32(n, 0) == f && Get32(n, 4) == b
  {
  }

  lemma DecodedSplit(a: seq<Bytes>, b: seq<Bytes>)
    ensures Decoded(a + b) == Decoded(a) + Decoded(b)
  {
  }

  predicate AllFit(gs: seq<seq<Bytes>>) {
    forall i :: 0 <= i < |gs| ==> Fits(gs[i])
  }

  lemma PackedFit(recs: seq<Bytes>, gs: seq<seq<Bytes>>)
    requires Packed(recs, gs) && forall i :: 0 <= i < |recs| ==> |recs[i]| <= 494
    ensures AllFit(gs)
  {
    hide Flat, Fits, Full;
    forall i | 0 <= i < |gs|
      ensures Fits(gs[i])
    {
      FlatAt(gs, i, 0);
      if |gs[i]| == 1 {
        AloneFits(gs[i]);
      }
    }
  }

  method BuildLeaves(recs: seq<Rec>, groups: seq<seq<Bytes>>) returns (nodes: seq<Bytes>, level: seq<Child>)
    requires Packed(Images(recs), groups) && |groups| < 0x1_0000 && AllFit(groups)
    ensures |nodes| == 1 + |groups| && |level| == |groups|
    ensures LeavesLaid(nodes, groups, |groups|) && Whole(nodes)
    ensures AllRooted(nodes, level, 1) && Flat(Spans(nodes, level, 1)) == recs
  {
    hide Images, Laid, Rooted, Under, Decoded, Flat, IsImage, Fits, Full;
    nodes, level := [Zeros(NODE_SIZE)], [];
    NoSpans(nodes, groups);
    for i := 0 to |groups|
      invariant |nodes| == 1 + i && |level| == i && Whole(nodes) && LeavesLaid(nodes, groups, i) && AllRooted(nodes, level, 1)
      invariant Flat(Spans(nodes, level, 1)) == Decoded(Flat(groups[..i]))
    {
      var num := 1 + i;
      var fl := if i + 1 < |groups| then num + 1 else 0;
      var bl := if i != 0 then num - 1 else 0;
      var n := MakeNode(0xFF, 1, groups[i], fl, bl);
      LaidHead(n, 0xFF, 1, groups[i], fl, bl);
      ghost var before := nodes;
      nodes := nodes + [n];
      GroupImages(recs, groups, i);
      LeafRooted(nodes, num, groups[i], fl, bl);
      var fr := groups[i][0];
      var child := Child(num, fr[..fr[0] + 1]);
      LevelGrows(before, nodes, level, 1);
      LevelAdd(nodes, level, child, 1);
      BeforeStep(groups, i);
      DecodedSplit(Flat(groups[..i]), groups[i]);
      level := level + [child];
    }
    assert groups[..|groups|] == groups;
    ImagesBack(recs);
  }

  lemma NoSpans(nodes: seq<Bytes>, groups: seq<seq<Bytes>>)
    ensures Flat(Spans(nodes, [], 1)) == Decoded(Flat(groups[..0]))
  {
  }

  // ---- index levels ---------------------------------------------------------

  function KeyOf(c: Child): Key {
    match ReadKey(c.firstKey)
    case Some(k) => k
    case None => Key(0, [])
  }

  function IndexImages(level: seq<Child>): (r: seq<Bytes>)
    ensures |r| == |level| && forall i :: 0 <= i < |level| ==> r[i] == IndexImage(KeyOf(level[i]), level[i].node)
  {
    seq(|level|, i requires 0 <= i < |level| => IndexImage(KeyOf(level[i]), level[i].node))
  }

  /** Re-encodes every child's first key at the fixed index width. */
  method IndexRecords(level: seq<Child>) returns (idx: seq<Bytes>)
    requires forall i :: 0 <= i < |level| ==> ReadKey(level[i].firstKey).Some?
    ensures idx == IndexImages(level)
  {
    idx := [];
    for i := 0 to |level|
      invariant |idx| == i && forall j :: 0 <= j < i ==> idx[j] == IndexImage(KeyOf(level[j]), level[j].node)
    {
      hide KeyImage, Word32;
      var c := level[i];
      var parent := Get32(c.firstKey, 2);
      var nm := c.firstKey[7..7 + c.firstKey[6]];
      var k := KeyBytes(Key(parent, nm), true);
      idx := idx + [k + Word32(c.node)];
    }
  }

  lemma {:induction false} FlatAppend<T>(a: seq<seq<T>>, b: seq<seq<T>>)
    ensures Flat(a + b) == Flat(a) + Flat(b)
    decreases |b|
  {
    if b == [] {
      assert a + b == a;
    } else {
      var front, last := b[..|b| - 1], b[|b| - 1];
      FlatAppend(a, front);
      assert a + b == a + front + [last];
      FlatSnoc(a + front, last);
    }
  }

  lemma ChildGuides(nodes: seq<Bytes>, c: Child, h: nat)
    requires Rooted(nodes, c, h)
    ensures Guides(nodes, IndexImage(KeyOf(c), c.node), h)
    ensures PointerOf(IndexImage(KeyOf(c), c.node)) == c.node && Sound(nodes, c.node, h)
  {
    hide Sound, Under, IndexImage, ReadKey, ReadPointer;
    IndexBack(KeyOf(c), c.node);
  }

  /** An index node made from rooted children is a sound subtree over them. */
  lemma IndexRooted(nodes: seq<Bytes>, num: Word, height: Byte, level: seq<Child>)
    requires 1 <= num < |nodes| && level != [] && height > 1 && AllRooted(nodes, level, height - 1)
    requires Laid(nodes[num], 0, height, IndexImages(level), 0, 0)
    ensures Under(nodes, num, height) == Flat(Spans(nodes, level, height - 1))
    ensures Rooted(nodes, Child(num, level[0].firstKey), height)
  {
    var g := IndexImages(level);
    RecordsBack(nodes[num], 0, height, g, 0, 0);
    LaidHead(nodes[num], 0, height, g, 0, 0);
    hide Laid, Records, Flat, Rooted, IndexImage, KeyOf, Guides, Get32, PointerOf;
    forall k | 0 <= k < |g|
      ensures Guides(nodes, g[k], height - 1) && Sound(nodes, PointerOf(g[k]), height - 1)
      ensures PointerOf(g[k]) == level[k].node
    {
      ChildGuides(nodes, level[k], height - 1);
    }
    var ps: seq<seq<Rec>> := Spans(nodes, level, height - 1);
    assert Parts(nodes, g, height - 1) == ps;
    assert Under(nodes, num, height) == Flat(ps);
    assert Sound(nodes, num, height);
    IndexFirst(nodes, num, height, level, ps);
  }

  lemma IndexFirst(nodes: seq<Bytes>, num: Word, height: nat, level: seq<Child>, ps: seq<seq<Rec>>)
    requires level != [] && height > 1 && AllRooted(nodes, level, height - 1) && ps == Spans(nodes, level, height - 1)
    requires Sound(nodes, num, height) && Under(nodes, num, height) == Flat(ps)
    ensures Rooted(nodes, Child(num, level[0].firstKey), height)
  {
    hide Flat, Sound, Under, ReadKey;
    assert Rooted(nodes, level[0], height - 1);
    FlatAt(ps, 0, 0);
    NothingBefore(ps);
  }

  lemma NothingBefore<T>(ps: seq<seq<T>>)
    ensures Before(ps, 0) == 0
  {
  }

  /** One index level over the level below. */
  method BuildIndex(nodes0: seq<Bytes>, level: seq<Child>, height: Byte) returns (nodes: seq<Bytes>, next: seq<Child>)
    requires nodes0 != [] && height > 1 && AllRooted(nodes0, level, height - 1)
    requires |nodes0| + (|level| + 10) / 11 < 0x1_0000 && Whole(nodes0)
    ensures Whole(nodes) && nodes0 <= nodes && |next| == (|level| + 10) / 11 && |nodes| == |nodes0| + |next|
    ensures AllRooted(nodes, next, height)
    ensures Flat(Spans(nodes, next, height)) == Flat(Spans(nodes0, level, height - 1))
  {
    hide Laid, Rooted, Under, Flat, Fits, Full, IndexImage, KeyOf, ReadKey, Before, Get32;
    LevelKeys(nodes0, level, height - 1);
    var idxRecs := IndexRecords(level);
    var groups := PackLevel(idxRecs);
    LevelCount(level, groups);
    nodes, next := nodes0, [];
    var at := 0;
    ghost var below := Spans(nodes0, level, height - 1);
    NoNext(nodes, below, groups, height);
    for i := 0 to |groups|
      invariant at == Before(groups, i) && at <= |level|
      invariant Whole(nodes) && nodes0 <= nodes && |nodes| == |nodes0| + i && |next| == i
      invariant AllRooted(nodes, next, height)
      invariant Flat(Spans(nodes, next, height)) == Flat(below[..at])
    {
      ghost var before := nodes;
      var g := groups[i];
      GroupIs(level, groups, i);
      var num := |nodes|;
      var n := MakeNode(0, height, g, 0, 0);
      LaidHead(n, 0, height, g, 0, 0);
      nodes := nodes + [n];
      LevelGrows(nodes0, nodes, level, height - 1);
      LevelGrows(before, nodes, next, height);
      ghost var mine := level[at..at + |g|];
      IndexRooted(nodes, num, height, mine);
      var child := Child(num, level[at].firstKey);
      LevelAdd(nodes, next, child, height);
      assert below[..at + |g|] == below[..at] + Spans(nodes, mine, height - 1);
      FlatAppend(below[..at], Spans(nodes, mine, height - 1));
      BeforeStep(groups, i);
      next := next + [child];
      at := at + |g|;
    }
    AllPacked(level, groups);
    assert below[..at] == below;
  }

  lemma LevelKeys(nodes: seq<Bytes>, level: seq<Child>, h: nat)
    requires AllRooted(nodes, level, h)
    ensures forall i :: 0 <= i < |level| ==> ReadKey(level[i].firstKey).Some?
  {
    hide Sound, Under, ReadKey;
    forall i | 0 <= i < |level|
      ensures ReadKey(level[i].firstKey).Some?
    {
      assert Rooted(nodes, level[i], h);
    }
  }

  lemma LevelCount(level: seq<Child>, groups: seq<seq<Bytes>>)
    requires Packed(IndexImages(level), groups)
    ensures |groups| == (|level| + 10) / 11
  {
    hide IndexImage, Flat, Groups;
    forall i, j | 0 <= i < |groups| && 0 <= j < |groups[i]|
      ensures |groups[i][j]| == 42
    {
      FlatAt(groups, i, j);
    }
    IndexGroups(groups, |groups|);
  }

  lemma GroupIs(level: seq<Child>, groups: seq<seq<Bytes>>, i: nat)
    requires Packed(IndexImages(level), groups) && i < |groups|
    ensures groups[i] != [] && Fits(groups[i])
    ensures var at := Before(groups, i); at + |groups[i]| <= |level| && groups[i] == IndexImages(level[at..at + |groups[i]|])
  {
    hide Flat, IndexImage, Fits, Full, Before;
    var at, g := Before(groups, i), groups[i];
    PackedFit(IndexImages(level), groups);
    FlatAt(groups, i, |g| - 1);
    forall k | 0 <= k < |g|
      ensures at + k < |level| && g[k] == IndexImages(level)[at + k]
    {
      FlatAt(groups, i, k);
    }
  }

  lemma AllPacked(level: seq<Child>, groups: seq<seq<Bytes>>)
    requires Packed(IndexImages(level), groups)
    ensures Before(groups, |groups|) == |level|
  {
    assert groups[..|groups|] == groups;
  }

  lemma NoNext(nodes: seq<Bytes>, below: seq<seq<Rec>>, groups: seq<seq<Bytes>>, h: nat)
    ensures Before(groups, 0) == 0 && Flat(Spans(nodes, [], h)) == Flat(below[..0])
  {
  }
}
