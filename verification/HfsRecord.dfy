/** Catalog keys and records of an HFS volume: their order and their bytes. */
module HfsRecord {
  import opened Units

  /** A Str31. */
  type Name = s: seq<Byte> | |s| <= 31

  datatype Option<T> = None | Some(value: T)
  datatype Key = Key(parent: Word, name: Name)
  datatype Rec = Rec(key: Key, payload: seq<Byte>) {
    /** The three record kinds carry 46, 70 or 102 bytes. */
    predicate Ok() {
      |payload| <= 102
    }
  }

  // ---- order ----------------------------------------------------------------

  function Fold(c: Byte): Byte {
    if 97 <= c <= 122 then c - 32 else c
  }

  /** Folding identifies a capital with its small letter and nothing else; what is
      not a small letter stays. */
  lemma FoldCase(c: Byte, d: Byte)
    ensures Fold(c) == Fold(d) <==> c == d || (65 <= c <= 90 && d == c + 32) || (65 <= d <= 90 && c == d + 32)
    ensures !(97 <= c <= 122) ==> Fold(c) == c
  {
  }

  function Folded(s: seq<Byte>): (r: seq<Byte>)
    ensures |r| == |s| && forall i :: 0 <= i < |s| ==> r[i] == Fold(s[i])
  {
    seq(|s|, i requires 0 <= i < |s| => Fold(s[i]))
  }

  /** Lexicographic order of the folded names: -1, 0 or 1. */
  function NameOrder(a: seq<Byte>, b: seq<Byte>): int {
    if a == [] && b == [] then 0
    else if a == [] then -1
    else if b == [] then 1
    else if Fold(a[0]) != Fold(b[0]) then if Fold(a[0]) < Fold(b[0]) then -1 else 1
    else NameOrder(a[1..], b[1..])
  }

  method NameCompare(a: seq<Byte>, b: seq<Byte>) returns (r: int)
    ensures r == NameOrder(a, b)
  {
    var n := if |a| < |b| then |a| else |b|;
    for i := 0 to n
      invariant NameOrder(a[i..], b[i..]) == NameOrder(a, b)
    {
      var fa, fb := Fold(a[i]), Fold(b[i]);
      if fa != fb {
        return if fa < fb then -1 else 1;
      }
      assert a[i..][1..] == a[i + 1..] && b[i..][1..] == b[i + 1..];
    }
    if |a| != |b| {
      return if |a| < |b| then -1 else 1;
    }
    r := 0;
  }

  /** Names compare equal exactly when they differ only in the case of a..z. */
  lemma {:induction false} NameOrderZero(a: seq<Byte>, b: seq<Byte>)
    ensures NameOrder(a, b) == 0 <==> Folded(a) == Folded(b)
    decreases |a|
  {
    if a != [] && b != [] {
      NameOrderZero(a[1..], b[1..]);
      assert Folded(a) == [Fold(a[0])] + Folded(a[1..]);
      assert Folded(b) == [Fold(b[0])] + Folded(b[1..]);
      if Fold(a[0]) == Fold(b[0]) && Folded(a) == Folded(b) {
        assert Folded(a[1..]) == Folded(a)[1..] && Folded(b[1..]) == Folded(b)[1..];
      }
    } else if |a| != |b| {
      assert |Folded(a)| != |Folded(b)|;
    }
  }

  lemma {:induction false} NameOrderFlips(a: seq<Byte>, b: seq<Byte>)
    ensures NameOrder(b, a) == -NameOrder(a, b)
    decreases |a|
  {
    if a != [] && b != [] {
      NameOrderFlips(a[1..], b[1..]);
    }
  }

  lemma {:induction false} NameOrderTransitive(a: seq<Byte>, b: seq<Byte>, c: seq<Byte>)
    requires NameOrder(a, b) <= 0 && NameOrder(b, c) <= 0
    ensures NameOrder(a, c) <= 0
    ensures NameOrder(a, c) == 0 ==> NameOrder(a, b) == 0 && NameOrder(b, c) == 0
    decreases |a|
  {
    if a != [] && b != [] && c != [] && Fold(a[0]) == Fold(b[0]) == Fold(c[0]) {
      NameOrderTransitive(a[1..], b[1..], c[1..]);
    }
  }

  /** Parent first, then the folded name: the order of the catalog. */
  function KeyOrder(a: Key, b: Key): int {
    if a.parent != b.parent then if a.parent < b.parent then -1 else 1 else NameOrder(a.name, b.name)
  }

  predicate AtMost(a: Key, b: Key) {
    KeyOrder(a, b) <= 0
  }

  predicate Same(a: Key, b: Key) {
    KeyOrder(a, b) == 0
  }

  lemma Total(a: Key, b: Key)
    ensures AtMost(a, b) || AtMost(b, a)
    ensures Same(a, b) <==> AtMost(a, b) && AtMost(b, a)
    ensures Same(a, b) <==> Same(b, a)
    ensures AtMost(a, a)
  {
    NameOrderFlips(a.name, b.name);
    NameOrderFlips(a.name, a.name);
  }

  lemma Transitive(a: Key, b: Key, c: Key)
    requires AtMost(a, b) && AtMost(b, c)
    ensures AtMost(a, c)
  {
    if a.parent == b.parent == c.parent {
      NameOrderTransitive(a.name, b.name, c.name);
    }
  }

  // ---- bytes ----------------------------------------------------------------

  function Word32(v: Word): (r: seq<Byte>)
    ensures |r| == 4
  {
    [v / 256 / 256 / 256, v / 256 / 256 % 256, v / 256 % 256, v % 256]
  }

  function Get32(b: seq<Byte>, at: nat): (r: Word)
    requires at + 4 <= |b|
  {
    256 * (256 * (256 * (b[at] as int) + b[at + 1]) + b[at + 2]) + b[at + 3]
  }

  function Get16(b: seq<Byte>, at: nat): (r: nat)
    requires at + 2 <= |b|
    ensures r < 0x1_0000
  {
    256 * (b[at] as int) + b[at + 1]
  }

  lemma Word32Back(v: Word, b: seq<Byte>, at: nat)
    requires at + 4 <= |b| && b[at..at + 4] == Word32(v)
    ensures Get32(b, at) == v
  {
    var w := Word32(v);
    assert b[at] == w[0] && b[at + 1] == w[1] && b[at + 2] == w[2] && b[at + 3] == w[3];
  }

  function Zeros(n: nat): (r: seq<Byte>)
    ensures |r| == n && forall i :: 0 <= i < n ==> r[i] == 0
  {
    seq(n, _ => 0)
  }

  function KeyLength(key: Key, fixed: bool): Byte {
    if fixed then 37 else 6 + |key.name|
  }

  /** A key as it lies in a record: length, reserved byte, parent, Pascal string
      name; padded to the fixed width in index nodes and to an even size always. */
  function KeyImage(key: Key, fixed: bool): (r: seq<Byte>)
    ensures |r| == if fixed then 38 else (8 + |key.name|) / 2 * 2
    ensures r[0] == KeyLength(key, fixed)
  {
    var k := [KeyLength(key, fixed), 0] + Word32(key.parent) + [|key.name|] + key.name;
    k + Zeros((if fixed then 38 else (8 + |key.name|) / 2 * 2) - |k|)
  }

  method KeyBytes(key: Key, padFixed: bool) returns (k: seq<Byte>)
    ensures k == KeyImage(key, padFixed)
  {
    var kl: Byte := if padFixed then 37 else 6 + |key.name|;
    k := [kl, 0] + Word32(key.parent) + [|key.name|];
    for i := 0 to |key.name|
      invariant k == [kl, 0] + Word32(key.parent) + [|key.name|] + key.name[..i]
    {
      k := k + [key.name[i]];
    }
    ghost var plain := k;
    while |k| < kl + 1
      invariant |plain| <= |k| && (|k| <= kl + 1 || k == plain) && k == plain + Zeros(|k| - |plain|)
    {
      k := k + [0];
    }
    if |k| % 2 == 1 {
      k := k + [0];
    }
  }

  function LeafImage(r: Rec): (b: seq<Byte>)
    ensures |b| == (8 + |r.key.name|) / 2 * 2 + |r.payload|
    ensures r.Ok() ==> |b| <= 140
  {
    KeyImage(r.key, false) + r.payload
  }

  function IndexImage(key: Key, node: Word): (b: seq<Byte>)
    ensures |b| == 42
  {
    KeyImage(key, true) + Word32(node)
  }

  // ---- what a reader sees ---------------------------------------------------

  /** The key at the head of a record. */
  function ReadKey(b: seq<Byte>): Option<Key> {
    if |b| >= 7 && b[6] <= 31 && 7 + b[6] <= |b| then Some(Key(Get32(b, 2), b[7..7 + b[6]])) else None
  }

  /** Where a record's data starts: after the key, on an even offset. */
  function DataAt(b: seq<Byte>): nat
    requires b != []
  {
    (b[0] as int + 2) / 2 * 2
  }

  function ReadLeaf(b: seq<Byte>): Option<Rec> {
    if ReadKey(b).Some? && DataAt(b) <= |b| then Some(Rec(ReadKey(b).value, b[DataAt(b)..])) else None
  }

  function ReadPointer(b: seq<Byte>): Option<Word> {
    if b != [] && DataAt(b) + 4 <= |b| then Some(Get32(b, DataAt(b))) else None
  }

  lemma KeyBack(key: Key, fixed: bool, rest: seq<Byte>)
    ensures ReadKey(KeyImage(key, fixed) + rest) == Some(key)
    ensures DataAt(KeyImage(key, fixed) + rest) == |KeyImage(key, fixed)|
  {
    var b := KeyImage(key, fixed) + rest;
    var k := [KeyLength(key, fixed), 0] + Word32(key.parent) + [|key.name|] + key.name;
    assert k <= b;
    assert b[2..6] == Word32(key.parent);
    Word32Back(key.parent, b, 2);
    assert b[6] == |key.name| && b[7..7 + |key.name|] == key.name;
  }

  /** A leaf record reads back whole. */
  lemma LeafBack(r: Rec)
    ensures ReadLeaf(LeafImage(r)) == Some(r)
  {
    KeyBack(r.key, false, r.payload);
  }

  /** An index record reads back as its key and its child. */
  lemma IndexBack(key: Key, node: Word)
    ensures ReadKey(IndexImage(key, node)) == Some(key)
    ensures ReadPointer(IndexImage(key, node)) == Some(node)
  {
    KeyBack(key, true, Word32(node));
    var b := IndexImage(key, node);
    assert b[38..42] == Word32(node);
    Word32Back(node, b, 38);
  }

  /** The raw key cut from a leaf record still names it. */
  lemma FirstKeyBack(r: Rec)
    ensures LeafImage(r)[0] + 1 <= |LeafImage(r)|
    ensures ReadKey(LeafImage(r)[..LeafImage(r)[0] + 1]) == Some(r.key)
  {
    KeyBack(r.key, false, r.payload);
    var b, n := LeafImage(r), LeafImage(r)[0] + 1;
    assert b[..n][2..6] == b[2..6] && b[..n][7..7 + b[6]] == b[7..7 + b[6]];
  }
}
