/** The catalog of a volume: built from any list of records, inside the space
    reserved for it, and searchable by the guest. */
module HfsVolume {
  import opened Units
  import opened HfsRecord
  import opened HfsNode
  import opened HfsSearch
  import opened HfsHeader
  import opened HfsCatalog

  // ---- reservation ----------------------------------------------------------

  /** The bytes the estimate counts for one record. */
  function Estimate(r: Rec): nat {
    8 + |r.key.name| + |r.payload| + 4
  }

  function Estimates(recs: seq<Rec>): nat {
    if recs == [] then 0 else Estimates(recs[..|recs| - 1]) + Estimate(recs[|recs| - 1])
  }

  /** Nodes reserved for the catalog file. */
  function Reserved(bytes: nat): nat {
    (bytes + 479) / 480 * 2 + 8
  }

  lemma ReservedIs(bytes: nat)
    ensures Reserved(bytes) == (bytes + 479) / 480 * 2 + 8
  {
  }

  predicate AllOk(recs: seq<Rec>) {
    forall i :: 0 <= i < |recs| ==> recs[i].Ok()
  }

  lemma EstimatesSnoc(s: seq<Rec>, r: Rec)
    ensures Estimates(s + [r]) == Estimates(s) + Estimate(r)
  {
    assert (s + [r])[..|s|] == s;
  }

  lemma {:induction false} EstimatesSplit(a: seq<Rec>, b: seq<Rec>)
    ensures Estimates(a + b) == Estimates(a) + Estimates(b)
    decreases |b|
  {
    if b == [] {
      assert a + b == a;
    } else {
      var front, last := b[..|b| - 1], b[|b| - 1];
      EstimatesSplit(a, front);
      assert a + b == a + front + [last];
      EstimatesSnoc(a + front, last);
    }
  }

  /** A permutation of a holds a's last record somewhere, and the rest around it. */
  lemma {:induction false} Without(a: seq<Rec>, b: seq<Rec>) returns (left: seq<Rec>, right: seq<Rec>)
    requires multiset(a) == multiset(b) && a != []
    ensures b == left + [a[|a| - 1]] + right && multiset(a[..|a| - 1]) == multiset(left + right)
  {
    var front, x := a[..|a| - 1], a[|a| - 1];
    assert a == front + [x];
    assert x in multiset(b);
    var j :| 0 <= j < |b| && b[j] == x;
    left, right := b[..j], b[j + 1..];
    assert b == left + [x] + right;
    assert multiset(a) == multiset(front) + multiset{x};
    assert multiset(b) == multiset(left + right) + multiset{x};
    assert multiset(front) == multiset(a) - multiset{x} == multiset(left + right);
  }

  /** The estimate does not depend on the order of the records. */
  lemma {:induction false} EstimatesPermute(a: seq<Rec>, b: seq<Rec>)
    requires multiset(a) == multiset(b)
    ensures Estimates(a) == Estimates(b)
    decreases |a|
  {
    if a == [] {
      assert |multiset(b)| == 0;
    } else {
      hide Estimate;
      var front, x := a[..|a| - 1], a[|a| - 1];
      var left, right := Without(a, b);
      EstimatesPermute(front, left + right);
      EstimatesSplit(left + [x], right);
      EstimatesSnoc(left, x);
      EstimatesSplit(left, right);
    }
  }

  lemma {:induction false} ImagesSize(recs: seq<Rec>)
    ensures Size(Images(recs)) + 2 * |recs| <= Estimates(recs)
    ensures 12 * |recs| <= Estimates(recs)
    decreases |recs|
  {
    if recs != [] {
      var front, r := recs[..|recs| - 1], recs[|recs| - 1];
      ImagesSize(front);
      assert Images(recs) == Images(front) + [LeafImage(r)];
      SizeSnoc(Images(front), LeafImage(r));
    }
  }

  lemma OkPermutes(a: seq<Rec>, b: seq<Rec>)
    requires multiset(a) == multiset(b) && AllOk(a)
    ensures AllOk(b) && |a| == |b|
  {
    assert |multiset(a)| == |a| && |multiset(b)| == |b|;
    forall i | 0 <= i < |b|
      ensures b[i].Ok()
    {
      assert b[i] in multiset(a);
    }
  }

  /** Leaves filled greedily are few against the estimate. */
  lemma LeafCount(recs: seq<Rec>, groups: seq<seq<Bytes>>)
    requires AllOk(recs) && Packed(Images(recs), groups)
    ensures groups != [] ==> 355 * (|groups| - 1) <= Estimates(recs)
  {
    if groups != [] {
      hide Flat, Size, Estimates, LeafImage;
      forall i | 0 <= i < |groups|
        ensures groups[i] != [] && |groups[i][0]| <= 140
      {
        FlatAt(groups, i, 0);
      }
      var m := |groups| - 1;
      LeafWeight(groups, m);
      BeforeStep(groups, m);
      assert groups[..m + 1] == groups;
      SizeSplit(Flat(groups[..m]), groups[m]);
      ImagesSize(recs);
    }
  }

  /** Header, leaves and index nodes always fit the reservation. */
  lemma ReservationSuffices(recs: seq<Rec>, groups: seq<seq<Bytes>>)
    requires AllOk(recs) && Packed(Images(recs), groups)
    ensures 1 + |groups| + IndexNodes(|groups|) <= Reserved(Estimates(recs))
  {
    hide Packed, Images, Estimates, IndexNodes;
    LeafCount(recs, groups);
    IndexNodesBound(|groups|);
  }

  // ---- the tree -------------------------------------------------------------

  /** What the guest does with a key: the header's root and depth, then down. */
  function Lookup(nodes: seq<Bytes>, key: Key): Option<Bytes> {
    if |nodes| == 0 || |nodes[0]| != NODE_SIZE || Get32(nodes[0], 16) == 0 then None
    else Find(nodes, Get32(nodes[0], 16), Get16(nodes[0], 14), key)
  }

  /** The leaf chain from the header's first leaf. */
  function Listing(nodes: seq<Bytes>): seq<Rec> {
    if |nodes| == 0 || |nodes[0]| != NODE_SIZE then [] else Chain(nodes, Get32(nodes[0], 24))
  }

  /** The same leaves from the header's last one, backward. */
  function BackListing(nodes: seq<Bytes>): seq<Rec> {
    if |nodes| == 0 || |nodes[0]| != NODE_SIZE then [] else BackChain(nodes, Get32(nodes[0], 28))
  }

  /** A key is found exactly when some record has it, with such a record's data. */
  predicate Answers(nodes: seq<Bytes>, recs: seq<Rec>, key: Key) {
    && (Lookup(nodes, key).Some? <==> Has(recs, key))
    && (Lookup(nodes, key).Some? ==> Holds(recs, key, Lookup(nodes, key).value))
  }

  ghost predicate Searchable(nodes: seq<Bytes>, recs: seq<Rec>) {
    forall key :: Answers(nodes, recs, key)
  }

  /** The leaves are the nodes from first to last, each linked to its neighbours. */
  predicate Linked(nodes: seq<Bytes>, first: nat, last: nat) {
    forall num :: first <= num <= last ==>
      && 1 <= num < |nodes| && |nodes[num]| == NODE_SIZE && nodes[num][8] == 0xFF && nodes[num][9] == 1
      && Get32(nodes[num], 0) == (if num < last then num + 1 else 0)
      && Get32(nodes[num], 4) == (if first < num then num - 1 else 0)
  }

  lemma {:induction false} ChainIs(nodes: seq<Bytes>, groups: seq<seq<Bytes>>, i: nat)
    requires LeavesLaid(nodes, groups, |groups|) && i < |groups|
    ensures Chain(nodes, i + 1) == Decoded(Flat(groups[i..]))
    decreases |groups| - i
  {
    hide Laid, Records, Flat, Decoded, Get32;
    assert Laid(nodes[i + 1], 0xFF, 1, groups[i], ForwardLink(i, |groups|), BackLink(i));
    RecordsBack(nodes[i + 1], 0xFF, 1, groups[i], ForwardLink(i, |groups|), BackLink(i));
    LaidHead(nodes[i + 1], 0xFF, 1, groups[i], ForwardLink(i, |groups|), BackLink(i));
    assert groups[i..] == [groups[i]] + groups[i + 1..];
    FlatAppend([groups[i]], groups[i + 1..]);
    FlatOne(groups[i]);
    DecodedSplit(groups[i], Flat(groups[i + 1..]));
    if i + 1 < |groups| {
      ChainIs(nodes, groups, i + 1);
    } else {
      assert groups[i + 1..] == [];
      Nothing();
      assert Decoded([]) == [];
    }
  }

  lemma {:induction false} BackChainIs(nodes: seq<Bytes>, groups: seq<seq<Bytes>>, i: nat)
    requires LeavesLaid(nodes, groups, |groups|) && i <= |groups|
    ensures BackChain(nodes, i) == Decoded(Flat(groups[..i]))
    decreases i
  {
    hide Laid, Records, Flat, Decoded, Get32;
    if i == 0 {
      assert groups[..0] == [];
      Nothing();
      assert Decoded([]) == [];
    } else {
      var g := groups[i - 1];
      assert Laid(nodes[i - 1 + 1], 0xFF, 1, g, ForwardLink(i - 1, |groups|), BackLink(i - 1));
      RecordsBack(nodes[i], 0xFF, 1, g, ForwardLink(i - 1, |groups|), BackLink(i - 1));
      LaidHead(nodes[i], 0xFF, 1, g, ForwardLink(i - 1, |groups|), BackLink(i - 1));
      BeforeStep(groups, i - 1);
      DecodedSplit(Flat(groups[..i - 1]), g);
      BackChainIs(nodes, groups, i - 1);
    }
  }

  lemma FlatOne<T>(g: seq<T>)
    ensures Flat([g]) == g
  {
    assert [g][..0] == [];
  }

  lemma SamePool(a: seq<Rec>, b: seq<Rec>, key: Key)
    requires multiset(a) == multiset(b)
    ensures Has(a, key) ==> Has(b, key)
    ensures forall payload :: Holds(a, key, payload) ==> Holds(b, key, payload)
  {
    hide Same;
    forall i | 0 <= i < |a| && Same(a[i].key, key)
      ensures Has(b, key) && Holds(b, key, a[i].payload)
    {
      assert a[i] in multiset(b);
      var j :| 0 <= j < |b| && b[j] == a[i];
    }
  }

  method BuildCatalogTree(recs: seq<Rec>, fileNodes: nat) returns (nodes: seq<Bytes>, t: Tree)
    requires AllOk(recs) && Reserved(Estimates(recs)) <= fileNodes <= 2048
    ensures 0 < |nodes| <= fileNodes && Whole(nodes)
    ensures HeaderLaid(nodes[0], t, fileNodes, |nodes|) && t.leafRecs == |recs|
    ensures Searchable(nodes, recs)
    ensures Sorted(Listing(nodes)) && multiset(Listing(nodes)) == multiset(recs) && BackListing(nodes) == Listing(nodes)
    ensures Linked(nodes, t.firstLeaf, t.lastLeaf)
  {
    hide Sorted, Packed, AllFit, AllRooted, LeavesLaid, Flat, Estimates, Reserved, Whole, IndexNodes, Levels, HeaderLaid, Answers;
    var sorted := SortRecs(recs);
    OkPermutes(recs, sorted);
    EstimatesPermute(recs, sorted);
    var leafRecs := LeafBytes(sorted);
    var groups := PackLevel(leafRecs);
    PackedFit(leafRecs, groups);
    ReservationSuffices(sorted, groups);
    var level;
    nodes, level := BuildLeaves(sorted, groups);
    var height := 1;
    LevelsBound(|groups|);
    while |level| > 1
      invariant Whole(nodes) && nodes != [] && LeavesLaid(nodes, groups, |groups|)
      invariant AllRooted(nodes, level, height) && Flat(Spans(nodes, level, height)) == sorted
      invariant 1 <= height && height + Levels(|level|) == 1 + Levels(|groups|)
      invariant |nodes| + IndexNodes(|level|) == 1 + |groups| + IndexNodes(|groups|)
      invariant |level| == 0 <==> |groups| == 0
      decreases |level|
    {
      height := height + 1;
      ghost var before := nodes;
      LevelsStep(|level|);
      nodes, level := BuildIndex(nodes, level, height);
      LeavesKept(before, nodes, groups);
    }
    var root := if |level| == 0 then 0 else level[0].node;
    ImagesSize(sorted);
    Bounded(sorted, fileNodes);
    t := Tree(height, root, |sorted|, 1, |groups|);
    var hdr := HeaderNode(t, fileNodes, |nodes|);
    ghost var before := nodes;
    nodes := nodes[0 := hdr];
    WholeWith(before, hdr, t, fileNodes);
    LeavesKept(before, nodes, groups);
    LevelGrows(before, nodes, level, height);
    Done(nodes, recs, sorted, groups, level, t, fileNodes);
  }

  method LeafBytes(recs: seq<Rec>) returns (leafRecs: seq<Bytes>)
    requires AllOk(recs)
    ensures leafRecs == Images(recs) && forall i :: 0 <= i < |leafRecs| ==> |leafRecs[i]| <= 140
  {
    leafRecs := [];
    for i := 0 to |recs|
      invariant |leafRecs| == i && forall j :: 0 <= j < i ==> leafRecs[j] == LeafImage(recs[j])
    {
      hide KeyImage;
      var k := KeyBytes(recs[i].key, false);
      leafRecs := leafRecs + [k + recs[i].payload];
    }
  }

  lemma LevelsStep(n: nat)
    requires n > 1
    ensures Levels(n) == 1 + Levels((n + 10) / 11) && IndexNodes(n) == (n + 10) / 11 + IndexNodes((n + 10) / 11)
    ensures 0 < (n + 10) / 11 < n
  {
  }

  lemma LeavesKept(nodes: seq<Bytes>, more: seq<Bytes>, groups: seq<seq<Bytes>>)
    requires LeavesLaid(nodes, groups, |groups|) && Extends(nodes, more)
    ensures LeavesLaid(more, groups, |groups|)
  {
    hide Laid;
  }

  lemma Bounded(recs: seq<Rec>, fileNodes: nat)
    requires Reserved(Estimates(recs)) <= fileNodes <= 2048 && 12 * |recs| <= Estimates(recs)
    ensures |recs| < 0x1_0000
  {
    hide Estimates;
  }

  lemma WholeWith(nodes: seq<Bytes>, hdr: Bytes, t: Tree, fileNodes: nat)
    requires nodes != [] && Whole(nodes) && HeaderLaid(hdr, t, fileNodes, |nodes|)
    ensures Whole(nodes[0 := hdr])
  {
    hide TreeRecord, MapIs;
  }

  /** The finished tree answers every search and lists every record. */
  lemma Done(nodes: seq<Bytes>, recs: seq<Rec>, sorted: seq<Rec>, groups: seq<seq<Bytes>>, level: seq<Child>, t: Tree, fileNodes: nat)
    requires nodes != [] && HeaderLaid(nodes[0], t, fileNodes, |nodes|) && |level| <= 1
    requires Sorted(sorted) && multiset(sorted) == multiset(recs)
    requires AllRooted(nodes, level, t.depth) && Flat(Spans(nodes, level, t.depth)) == sorted
    requires LeavesLaid(nodes, groups, |groups|) && Packed(Images(sorted), groups) && (groups == [] ==> |nodes| == 1)
    requires t.root == (if |level| == 0 then 0 else level[0].node) && t.firstLeaf == 1 && t.lastLeaf == |groups|
    ensures Searchable(nodes, recs) && Sorted(Listing(nodes)) && multiset(Listing(nodes)) == multiset(recs)
    ensures BackListing(nodes) == Listing(nodes)
    ensures Linked(nodes, t.firstLeaf, t.lastLeaf)
  {
    HeaderReads(nodes[0], t, fileNodes, |nodes|);
    hide HeaderLaid, Get16, Get32, Sorted, AllRooted, LeavesLaid, Packed, Images;
    forall key
      ensures Answers(nodes, recs, key)
    {
      Answered(nodes, recs, sorted, level, t, key);
    }
    Listed(nodes, sorted, groups);
    LinksHold(nodes, groups);
  }

  lemma HeaderReads(hdr: Bytes, t: Tree, fileNodes: nat, count: nat)
    requires HeaderLaid(hdr, t, fileNodes, count)
    ensures |hdr| == NODE_SIZE && Get32(hdr, 16) == t.root && Get16(hdr, 14) == t.depth && Get32(hdr, 24) == t.firstLeaf
    ensures Get32(hdr, 28) == t.lastLeaf
  {
  }

  lemma Answered(nodes: seq<Bytes>, recs: seq<Rec>, sorted: seq<Rec>, level: seq<Child>, t: Tree, key: Key)
    requires nodes != [] && |nodes[0]| == NODE_SIZE && Get32(nodes[0], 16) == t.root && Get16(nodes[0], 14) == t.depth
    requires |level| <= 1 && Sorted(sorted) && multiset(sorted) == multiset(recs)
    requires AllRooted(nodes, level, t.depth) && Flat(Spans(nodes, level, t.depth)) == sorted
    requires t.root == (if |level| == 0 then 0 else level[0].node)
    ensures Answers(nodes, recs, key)
  {
    hide Get16, Get32, Sorted, Find, Has, Holds, Sound, Under, Rooted, Flat;
    SamePool(sorted, recs, key);
    SamePool(recs, sorted, key);
    if |level| == 0 {
      NoneHeld(nodes, level, t.depth, key);
    } else {
      OneRoot(nodes, level, t.depth);
      FindIs(nodes, t.root, t.depth, key);
    }
  }

  lemma NoneHeld(nodes: seq<Bytes>, level: seq<Child>, h: nat, key: Key)
    requires level == []
    ensures !Has(Flat(Spans(nodes, level, h)), key)
  {
  }

  lemma OneRoot(nodes: seq<Bytes>, level: seq<Child>, h: nat)
    requires |level| == 1 && AllRooted(nodes, level, h)
    ensures level[0].node != 0 && Sound(nodes, level[0].node, h)
    ensures Flat(Spans(nodes, level, h)) == Under(nodes, level[0].node, h)
  {
    hide Flat, Under, ReadKey;
    assert Rooted(nodes, level[0], h);
    FlatOne(Under(nodes, level[0].node, h));
    assert Spans(nodes, level, h) == [Under(nodes, level[0].node, h)];
  }

  lemma Listed(nodes: seq<Bytes>, sorted: seq<Rec>, groups: seq<seq<Bytes>>)
    requires LeavesLaid(nodes, groups, |groups|) && Packed(Images(sorted), groups) && (groups == [] ==> |nodes| == 1)
    ensures Chain(nodes, 1) == sorted && BackChain(nodes, |groups|) == sorted
  {
    hide Laid, Images, Groups, Get32, Records;
    ImagesBack(sorted);
    BackChainIs(nodes, groups, |groups|);
    assert groups[..|groups|] == groups;
    if |groups| > 0 {
      ChainIs(nodes, groups, 0);
      assert groups[0..] == groups;
    }
  }

  lemma LinksHold(nodes: seq<Bytes>, groups: seq<seq<Bytes>>)
    requires LeavesLaid(nodes, groups, |groups|)
    ensures Linked(nodes, 1, |groups|)
  {
    hide Laid, Get32;
    forall num | 1 <= num <= |groups|
      ensures |nodes[num]| == NODE_SIZE && nodes[num][8] == 0xFF && nodes[num][9] == 1
      ensures Get32(nodes[num], 0) == if num < |groups| then num + 1 else 0
      ensures Get32(nodes[num], 4) == if 1 < num then num - 1 else 0
    {
      var i := num - 1;
      assert Laid(nodes[i + 1], 0xFF, 1, groups[i], ForwardLink(i, |groups|), BackLink(i));
      LaidHead(nodes[num], 0xFF, 1, groups[i], ForwardLink(i, |groups|), BackLink(i));
    }
  }

  // ---- the catalog file -----------------------------------------------------

  datatype Refusal = TooManyNodes | OutgrewReservation

  datatype Outcome = Built(nodes: seq<Bytes>) | Refused(why: Refusal)

  method EstimateBytes(recs: seq<Rec>) returns (bytes: nat)
    ensures bytes == Estimates(recs)
  {
    bytes := 0;
    for i := 0 to |recs|
      invariant bytes == Estimates(recs[..i])
    {
      assert recs[..i + 1] == recs[..i] + [recs[i]];
      EstimatesSnoc(recs[..i], recs[i]);
      bytes := bytes + 8 + |recs[i].key.name| + |recs[i].payload| + 4;
    }
    assert recs[..|recs|] == recs;
  }

  /** The node count of a catalog file of whole allocation blocks. */
  function FileNodes(bytes: nat, abSize: nat): nat
    requires abSize > 0
  {
    (Reserved(bytes) * 512 + abSize - 1) / abSize * abSize / 512
  }

  /** Rounding up to allocation blocks never loses a node. */
  lemma FileHolds(bytes: nat, abSize: nat)
    requires abSize > 0
    ensures FileNodes(bytes, abSize) >= Reserved(bytes)
    ensures (Reserved(bytes) * 512 + abSize - 1) / abSize * abSize >= 512 * Reserved(bytes)
  {
    hide Reserved;
    var x := Reserved(bytes) * 512;
    assert (x + abSize - 1) / abSize * abSize + (x + abSize - 1) % abSize == x + abSize - 1;
  }

  /** The catalog part of hfsBuildImage. Only the 2048-node map can refuse; the
      reservation never overflows. */
  method Catalog(recs: seq<Rec>, abSize: nat) returns (r: Outcome)
    requires AllOk(recs) && abSize > 0
    ensures r.Built? <==> FileNodes(Estimates(recs), abSize) <= 2048
    ensures r == Refused(TooManyNodes) <==> FileNodes(Estimates(recs), abSize) > 2048
    ensures r != Refused(OutgrewReservation)
    ensures r.Built? ==>
      && 0 < |r.nodes| <= FileNodes(Estimates(recs), abSize) && Whole(r.nodes)
      && Searchable(r.nodes, recs) && Sorted(Listing(r.nodes)) && multiset(Listing(r.nodes)) == multiset(recs) && BackListing(r.nodes) == Listing(r.nodes)
  {
    hide Estimates, Reserved, Searchable, Sorted, Whole, Listing, HeaderLaid, Linked;
    var bytes := EstimateBytes(recs);
    var catNodesUB := (bytes + 479) / 480 * 2 + 8;
    assert catNodesUB == Reserved(bytes) by {
      ReservedIs(bytes);
    }
    var catBlocks := (catNodesUB * 512 + abSize - 1) / abSize;
    var catFileNodes := catBlocks * abSize / 512;
    FileHolds(bytes, abSize);
    if catFileNodes > 2048 {
      return Refused(TooManyNodes);
    }
    var nodes, t := BuildCatalogTree(recs, catFileNodes);
    if |nodes| * 512 > catBlocks * abSize {
      return Refused(OutgrewReservation);
    }
    r := Built(nodes);
  }

  // ---- names that fold together ---------------------------------------------

  /** Every record is found under its own key. */
  predicate AllFound(nodes: seq<Bytes>, recs: seq<Rec>) {
    forall i :: 0 <= i < |recs| ==> Lookup(nodes, recs[i].key) == Some(recs[i].payload)
  }

  /** No two records whose keys fold together differ in their data. */
  predicate Unambiguous(recs: seq<Rec>) {
    forall i, j :: 0 <= i < |recs| && 0 <= j < |recs| && Same(recs[i].key, recs[j].key) ==> recs[i].payload == recs[j].payload
  }

  /** The guest can reach every record exactly when folded keys tell them apart. */
  lemma FoundIffUnambiguous(nodes: seq<Bytes>, recs: seq<Rec>)
    requires Searchable(nodes, recs)
    ensures AllFound(nodes, recs) <==> Unambiguous(recs)
  {
    hide Find, Same, Get16, Get32;
    forall i | 0 <= i < |recs| && Unambiguous(recs)
      ensures Lookup(nodes, recs[i].key) == Some(recs[i].payload)
    {
      var key := recs[i].key;
      Total(key, key);
      SameMeans(key, key);
      assert Answers(nodes, recs, key) && Has(recs, key);
      var j :| 0 <= j < |recs| && Same(recs[j].key, key) && recs[j].payload == Lookup(nodes, key).value;
    }
    forall i, j | 0 <= i < |recs| && 0 <= j < |recs| && Same(recs[i].key, recs[j].key) && AllFound(nodes, recs)
      ensures recs[i].payload == recs[j].payload
    {
      LookupFolds(nodes, recs[i].key, recs[j].key);
    }
  }

  lemma LookupFolds(nodes: seq<Bytes>, a: Key, b: Key)
    requires Same(a, b)
    ensures Lookup(nodes, a) == Lookup(nodes, b)
  {
    hide Find, Same, Get16, Get32;
    if |nodes| > 0 && |nodes[0]| == NODE_SIZE {
      FindFolds(nodes, Get32(nodes[0], 16), Get16(nodes[0], 14), a, b);
    }
  }

  /** The scan of one folder: a name already seen, byte for byte, is refused. */
  method ScanFolder(names: seq<Name>) returns (ok: bool)
    ensures ok <==> forall i, j :: 0 <= i < j < |names| ==> names[i] != names[j]
  {
    var seen: set<Name> := {};
    for i := 0 to |names|
      invariant forall n :: n in seen <==> n in names[..i]
      invariant forall j, k :: 0 <= j < k < i ==> names[j] != names[k]
    {
      if names[i] in seen {
        return false;
      }
      seen := seen + {names[i]};
      assert names[..i + 1] == names[..i] + [names[i]];
    }
    ok := true;
  }

  /** A file record's 102 bytes: type 2, and the file's number at 20. */
  function FilePayload(cnid: Word): (r: Bytes)
    ensures |r| == 102
  {
    [2] + Zeros(19) + Word32(cnid) + Zeros(78)
  }

  /** The files "a" and "A" in the root folder, numbered 16 and 17. */
  function ClashingFiles(): (r: seq<Rec>)
    ensures AllOk(r) && |r| == 2
  {
    [Rec(Key(2, [97]), FilePayload(16)), Rec(Key(2, [65]), FilePayload(17))]
  }

  lemma ClashingFold()
    ensures !Unambiguous(ClashingFiles())
  {
    var recs := ClashingFiles();
    assert Same(recs[0].key, recs[1].key);
    assert recs[0].payload[23] == 16 && recs[1].payload[23] == 17;
  }

  /** "a" and "A" pass the scan, the catalog is built, and one file hides the other. */
  method CaseClash() returns (ok: bool, r: Outcome)
    ensures ok && r.Built? && !AllFound(r.nodes, ClashingFiles())
  {
    hide AllFound, Unambiguous, Searchable, Listing, Sorted, Whole;
    var recs := ClashingFiles();
    ok := ScanFolder([recs[0].key.name, recs[1].key.name]);
    r := Catalog(recs, 512);
    ClashingFit();
    ClashingFold();
    FoundIffUnambiguous(r.nodes, recs);
  }

  lemma ClashingFit()
    ensures FileNodes(Estimates(ClashingFiles()), 512) == 10
  {
    var recs := ClashingFiles();
    assert recs[..1] == [recs[0]] && recs[..1][..0] == [];
    assert Estimates([recs[0]]) == 115;
  }
}
