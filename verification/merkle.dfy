/** The prefix Merkle tree of lxmf_hub/merkle.py.

    SHA-256 is a parameter `sha`. Nothing is assumed of it except, where a result
    says so, that it has no collision among the inputs two given trees hash. */
module Merkle {
  import opened Sorting
  import opened Wrappers
  import opened ByteStrings

  type Hasher = Bytes -> Digest

  const EMPTY_NODE: Digest := Zeros()

  function Zeros(): Digest {
    seq(32, _ => 0)
  }

  function Pow2(n: nat): (r: nat)
    ensures r > 0
  {
    if n == 0 then 1 else 2 * Pow2(n - 1)
  }

  // -- buckets ---------------------------------------------------------------

  function ByteAt(item: Bytes, i: nat): byte {
    if i < |item| then item[i] else 0
  }

  /** The first four bytes, zero-padded on the right, as a big-endian number. */
  function Prefix32(item: Bytes): nat {
    ByteAt(item, 0) * 0x100_0000 + ByteAt(item, 1) * 0x1_0000 + ByteAt(item, 2) * 0x100 + ByteAt(item, 3)
  }

  /** Bucket of an item: the first `depth` bits of its hash. The source raises
      ValueError for a depth above 32. */
  function BucketIndex(item: Bytes, depth: nat): nat
    requires depth <= 32
  {
    if depth == 0 then 0 else Prefix32(item) / Pow2(32 - depth)
  }

  lemma {:induction false} Pow2Sum(a: nat, b: nat)
    ensures Pow2(a + b) == Pow2(a) * Pow2(b)
  {
    if a != 0 {
      Pow2Sum(a - 1, b);
    }
  }

  lemma Pow2Of32()
    ensures Pow2(32) == 0x1_0000_0000
  {
    assert Pow2(4) == 16;
    Pow2Sum(4, 4);
    Pow2Sum(8, 8);
    Pow2Sum(16, 16);
  }

  lemma DivRange(p: nat, a: nat, b: nat)
    requires a > 0 && p < a * b
    ensures p / a < b
  {
    var q := p / a;
    assert a * q <= p;
    Multiples(a, b, q);
  }

  lemma DivTwice(p: nat, m: nat)
    requires m > 0
    ensures p / m / 2 == p / (2 * m)
  {
    var q := p / m;
    var r := q / 2;
    assert p == m * q + p % m;
    assert q == 2 * r + q % 2;
    assert p == (2 * m) * r + (m * (q % 2) + p % m);
    assert q % 2 == 1 ==> m * (q % 2) == m;
    QuotientUnique(p, 2 * m, r, m * (q % 2) + p % m);
  }

  lemma QuotientUnique(p: nat, d: nat, q: nat, r: nat)
    requires 0 <= r < d && p == d * q + r
    ensures p / d == q
  {
    var q' := p / d;
    var r' := p % d;
    assert p == d * q' + r' && 0 <= r' < d;
    SameMultiple(d, q, r, q', r');
  }

  lemma SameMultiple(d: nat, q: nat, r: nat, q': nat, r': nat)
    requires 0 <= r < d && 0 <= r' < d && d * q + r == d * q' + r'
    ensures q == q'
  {
    Multiples(d, q, q');
    Multiples(d, q', q);
  }

  lemma Multiples(d: nat, q: nat, q': nat)
    ensures q < q' ==> d * q' >= d * q + d
  {
    if q < q' {
      var r: nat := q' - q - 1;
      assert d * (q + 1 + r) == d * q + d + d * r;
    }
  }

  /** Every item falls in one of the 2^k buckets of level k. */
  lemma BucketInRange(item: Bytes, k: nat)
    requires k <= 32
    ensures BucketIndex(item, k) < Pow2(k)
  {
    Pow2Of32();
    Pow2Sum(32 - k, k);
    DivRange(Prefix32(item), Pow2(32 - k), Pow2(k));
  }

  /** The bucket one level up is found by dropping the last bit. */
  lemma BucketParent(item: Bytes, k: nat)
    requires k < 32
    ensures BucketIndex(item, k + 1) / 2 == BucketIndex(item, k)
  {
    var n: nat := 32 - k - 1;
    assert Pow2(n + 1) == 2 * Pow2(n);
    DivTwice(Prefix32(item), Pow2(n));
    if k == 0 {
      Pow2Of32();
    }
  }

  /** Bit j of an item, the highest of its first byte being bit 0. */
  function Bit(item: Bytes, j: nat): nat {
    ByteAt(item, j / 8) / Pow2(7 - j % 8) % 2
  }

  lemma DivIs(p: nat, m: nat)
    requires m > 0
    ensures p == m * (p / m) + p % m && 0 <= p % m < m
  {
  }

  lemma DivInTurn(p: nat, m: nat, n: nat)
    requires m > 0 && n > 0
    ensures m * n > 0 && p / m / n == p / (m * n)
  {
    DivIs(p, m);
    DivIs(p / m, n);
    Composed(p, m, n, p / m, p % m, p / m / n, p / m % n, m * n);
  }

  lemma Composed(p: nat, m: nat, n: nat, q: nat, u: nat, r: nat, s: nat, mn: nat)
    requires p == m * q + u && q == n * r + s && u < m && s < n && mn == m * n
    ensures mn > 0 && p / mn == r
  {
    Distributed(m, n, r, s);
    Multiples(m, s, n);
    QuotientUnique(p, mn, r, m * s + u);
  }

  lemma Distributed(m: nat, n: nat, r: nat, s: nat)
    ensures m * (n * r + s) == (m * n) * r + m * s
  {
  }

  lemma PowersOf256()
    ensures Pow2(0) == 1 && Pow2(8) == 0x100 && Pow2(16) == 0x1_0000 && Pow2(24) == 0x100_0000
  {
    assert Pow2(4) == 16;
    Pow2Sum(4, 4);
    Pow2Sum(8, 8);
    Pow2Sum(8, 16);
  }

  lemma BigEndian(a: nat, b: nat, c: nat, d: nat)
    requires a < 256 && b < 256 && c < 256 && d < 256
    ensures var p := a * 0x100_0000 + b * 0x1_0000 + c * 0x100 + d;
      && p == 256 * (a * 0x1_0000 + b * 0x100 + c) + d
      && p / 0x100 == 256 * (a * 0x100 + b) + c
      && p / 0x1_0000 == 256 * a + b
      && p / 0x100_0000 == a
  {
  }

  lemma ByteOfPrefix(item: Bytes, i: nat) returns (z: nat)
    requires i < 4
    ensures Prefix32(item) / Pow2(8 * (3 - i)) == 256 * z + ByteAt(item, i)
  {
    PowersOf256();
    var a: nat, b: nat, c: nat := ByteAt(item, 0), ByteAt(item, 1), ByteAt(item, 2);
    BigEndian(a, b, c, ByteAt(item, 3));
    if i == 3 {
      z := a * 0x1_0000 + b * 0x100 + c;
      DivByOne(Prefix32(item));
    } else if i == 2 {
      z := a * 0x100 + b;
    } else {
      z := if i == 1 then a else 0;
    }
  }

  lemma DivByOne(p: nat)
    ensures p / 1 == p
  {
  }

  lemma BitOfByte(z: nat, b: byte, r: nat)
    requires r < 8
    ensures (256 * z + b) / Pow2(7 - r) % 2 == b / Pow2(7 - r) % 2
  {
    assert Pow2(0) == 1 && Pow2(1) == 2 && Pow2(2) == 4 && Pow2(3) == 8;
    assert Pow2(4) == 16 && Pow2(5) == 32 && Pow2(6) == 64 && Pow2(7) == 128;
    if r == 0 { ShiftedBit(z, b, 128, 1); }
    if r == 1 { ShiftedBit(z, b, 64, 2); }
    if r == 2 { ShiftedBit(z, b, 32, 4); }
    if r == 3 { ShiftedBit(z, b, 16, 8); }
    if r == 4 { ShiftedBit(z, b, 8, 16); }
    if r == 5 { ShiftedBit(z, b, 4, 32); }
    if r == 6 { ShiftedBit(z, b, 2, 64); }
    if r == 7 { ShiftedBit(z, b, 1, 128); }
  }

  lemma ShiftedBit(z: nat, b: nat, d: nat, half: nat)
    requires d > 0 && d * (2 * half) == 256
    ensures (256 * z + b) / d % 2 == b / d % 2
  {
    var x := b / d;
    DivIs(b, d);
    Distributed(d, 2 * half, z, x);
    Scaled256(d, half, z);
    QuotientUnique(256 * z + b, d, (2 * half) * z + x, b % d);
    EvenPlus(half, z, x);
  }

  lemma Scaled256(d: nat, half: nat, z: nat)
    requires d * (2 * half) == 256
    ensures d * (2 * half) * z == 256 * z
  {
  }

  lemma EvenPlus(half: nat, z: nat, x: nat)
    ensures ((2 * half) * z + x) % 2 == x % 2
  {
    var y := half * z;
    assert (2 * half) * z == 2 * y;
  }

  /** A bucket number is read off the item bit by bit: each level appends the next. */
  lemma BucketAppendsBit(item: Bytes, k: nat)
    requires k < 32
    ensures BucketIndex(item, 0) == 0
    ensures BucketIndex(item, k + 1) == 2 * BucketIndex(item, k) + Bit(item, k)
  {
    var i, r := k / 8, k % 8;
    assert 32 - (k + 1) == 8 * (3 - i) + (7 - r);
    Pow2Sum(8 * (3 - i), 7 - r);
    DivInTurn(Prefix32(item), Pow2(8 * (3 - i)), Pow2(7 - r));
    var z := ByteOfPrefix(item, i);
    BitOfByte(z, ByteAt(item, i), r);
    BucketParent(item, k);
  }

  /** The items, in arrival order, whose first k bits are i. */
  function Under(items: seq<Bytes>, k: nat, i: int): seq<Bytes>
    requires k <= 32
  {
    if items == [] then []
    else
      var last := items[|items| - 1];
      Under(items[..|items| - 1], k, i) + if BucketIndex(last, k) == i then [last] else []
  }

  lemma {:induction false} UnderMembers(items: seq<Bytes>, k: nat, i: int)
    requires k <= 32
    ensures forall x :: x in Under(items, k, i) <==> x in items && BucketIndex(x, k) == i
    ensures Distinct(items) ==> Distinct(Under(items, k, i))
  {
    if items != [] {
      UnderMembers(items[..|items| - 1], k, i);
    }
  }

  lemma {:induction false} UnderCount(items: seq<Bytes>, k: nat, i: int, x: Bytes)
    requires k <= 32
    ensures multiset(Under(items, k, i))[x] == if BucketIndex(x, k) == i then multiset(items)[x] else 0
  {
    if items != [] {
      var n := |items| - 1;
      assert items == items[..n] + [items[n]];
      UnderCount(items[..n], k, i, x);
    }
  }

  /** A node covers an item exactly as often as its two children do. */
  lemma UnderSplits(items: seq<Bytes>, k: nat, i: nat, x: Bytes)
    requires k < 32
    ensures var here := multiset(Under(items, k, i))[x];
            var left := multiset(Under(items, k + 1, 2 * i))[x];
            var right := multiset(Under(items, k + 1, 2 * i + 1))[x];
            && left == (if BucketIndex(x, k + 1) == 2 * i then here else 0)
            && right == (if BucketIndex(x, k + 1) == 2 * i + 1 then here else 0)
            && here == left + right
  {
    BucketParent(x, k);
    UnderCount(items, k, i, x);
    UnderCount(items, k + 1, 2 * i, x);
    UnderCount(items, k + 1, 2 * i + 1, x);
  }

  lemma EmptySplits(items: seq<Bytes>, k: nat, i: nat)
    requires k < 32
    ensures Under(items, k, i) == [] <==> Under(items, k + 1, 2 * i) == [] && Under(items, k + 1, 2 * i + 1) == []
  {
    var here, left, right := Under(items, k, i), Under(items, k + 1, 2 * i), Under(items, k + 1, 2 * i + 1);
    if here != [] {
      UnderSplits(items, k, i, here[0]);
      assert multiset(here)[here[0]] > 0;
    }
    if left != [] {
      UnderSplits(items, k, i, left[0]);
      assert multiset(left)[left[0]] > 0;
    }
    if right != [] {
      UnderSplits(items, k, i, right[0]);
      assert multiset(right)[right[0]] > 0;
    }
  }

  lemma {:induction false} UnderRoot(items: seq<Bytes>)
    ensures Under(items, 0, 0) == items
  {
    if items != [] {
      UnderRoot(items[..|items| - 1]);
    }
  }

  // -- hashing ---------------------------------------------------------------

  function HashLeaf(sha: Hasher, items: seq<Bytes>): Digest {
    if items == [] then EMPTY_NODE else sha(Join(Sort(Leq, items)))
  }

  function HashPair(sha: Hasher, left: Digest, right: Digest): Digest {
    if left == EMPTY_NODE && right == EMPTY_NODE then EMPTY_NODE else sha(left + right)
  }

  /** What node (k, i) of a tree of depth `depth` over `items` is meant to be,
      defined from the root down. */
  function NodeDigest(sha: Hasher, items: seq<Bytes>, depth: nat, k: nat, i: nat): Digest
    requires k <= depth <= 32
    decreases depth - k
  {
    if k == depth then HashLeaf(sha, Under(items, depth, i))
    else HashPair(sha, NodeDigest(sha, items, depth, k + 1, 2 * i), NodeDigest(sha, items, depth, k + 1, 2 * i + 1))
  }

  // -- the tree --------------------------------------------------------------

  function Lookup(buckets: map<int, seq<Bytes>>, index: int): seq<Bytes> {
    if index in buckets then buckets[index] else []
  }

  method FillBuckets(items: seq<Bytes>, depth: nat) returns (buckets: map<int, seq<Bytes>>)
    requires depth <= 32
    ensures forall i: int :: Lookup(buckets, i) == Under(items, depth, i)
  {
    buckets := map[];
    for n := 0 to |items|
      invariant forall i: int :: Lookup(buckets, i) == Under(items[..n], depth, i)
    {
      var index := BucketIndex(items[n], depth);
      assert items[..n + 1][..n] == items[..n];
      buckets := buckets[index := Lookup(buckets, index) + [items[n]]];
    }
    assert items[..|items|] == items;
  }

  method LeafLevel(sha: Hasher, ghost items: seq<Bytes>, depth: nat, buckets: map<int, seq<Bytes>>)
    returns (leaves: seq<Digest>)
    requires depth <= 32
    requires forall i: int :: Lookup(buckets, i) == Under(items, depth, i)
    ensures LevelCorrect(sha, items, depth, depth, leaves)
  {
    leaves := [];
    for i := 0 to Pow2(depth)
      invariant |leaves| == i
      invariant forall j | 0 <= j < i :: leaves[j] == NodeDigest(sha, items, depth, depth, j)
    {
      leaves := leaves + [HashLeaf(sha, Lookup(buckets, i))];
    }
  }

  method LevelAbove(sha: Hasher, ghost items: seq<Bytes>, ghost depth: nat, ghost k: nat, lower: seq<Digest>)
    returns (upper: seq<Digest>)
    requires 0 < k <= depth <= 32 && LevelCorrect(sha, items, depth, k, lower)
    ensures LevelCorrect(sha, items, depth, k - 1, upper)
  {
    upper := [];
    for i := 0 to |lower| / 2
      invariant |upper| == i
      invariant forall j | 0 <= j < i :: upper[j] == NodeDigest(sha, items, depth, k - 1, j)
    {
      assert lower[2 * i] == NodeDigest(sha, items, depth, k, 2 * i);
      assert lower[2 * i + 1] == NodeDigest(sha, items, depth, k, 2 * i + 1);
      upper := upper + [HashPair(sha, lower[2 * i], lower[2 * i + 1])];
    }
  }

  /** The levels from the leaves up to the root. */
  method BuildLevels(sha: Hasher, ghost items: seq<Bytes>, depth: nat, buckets: map<int, seq<Bytes>>)
    returns (levels: seq<seq<Digest>>)
    requires 1 <= depth <= 24
    requires forall i: int :: Lookup(buckets, i) == Under(items, depth, i)
    ensures |levels| == depth + 1
    ensures forall j | 0 <= j <= depth :: LevelCorrect(sha, items, depth, depth - j, levels[j])
  {
    var lower := LeafLevel(sha, items, depth, buckets);
    levels := [lower];
    ghost var k: nat := depth;
    while |lower| > 1
      invariant k <= depth && |levels| == depth + 1 - k
      invariant LevelCorrect(sha, items, depth, k, lower)
      invariant forall j | 0 <= j < |levels| :: LevelCorrect(sha, items, depth, depth - j, levels[j])
      decreases k
    {
      lower := LevelAbove(sha, items, depth, k, lower);
      k := k - 1;
      levels := levels + [lower];
    }
  }

  /** `nodes` is level k of the tree over `items`. */
  ghost predicate LevelCorrect(sha: Hasher, items: seq<Bytes>, depth: nat, k: nat, nodes: seq<Digest>)
    requires k <= depth <= 32
  {
    && |nodes| == Pow2(k)
    && forall i | 0 <= i < Pow2(k) :: nodes[i] == NodeDigest(sha, items, depth, k, i)
  }

  class PrefixMerkleTree {
    const sha: Hasher
    const depth: nat
    const buckets: map<int, seq<Bytes>>
    const levels: seq<seq<Digest>>
    ghost const items: seq<Bytes>

    /** The stored lists agree with the meaning of every node they stand for. */
    ghost predicate Valid() {
      && 1 <= depth <= 24
      && |levels| == depth + 1
      && (forall k | 0 <= k <= depth :: LevelCorrect(sha, items, depth, k, levels[k]))
      && (forall i: int :: Lookup(buckets, i) == Under(items, depth, i))
    }

    /** Built from the leaves up, one list per level, and reversed at the end. The
        source raises ValueError for any other depth. */
    constructor (sha: Hasher, items: seq<Bytes>, depth: nat)
      requires 1 <= depth <= 24
      ensures Valid()
      ensures this.sha == sha && this.items == items && this.depth == depth
    {
      var filled := FillBuckets(items, depth);
      var bottomUp := BuildLevels(sha, items, depth, filled);
      this.sha, this.depth, this.items, buckets := sha, depth, items, filled;
      levels := seq(|bottomUp|, k requires 0 <= k < |bottomUp| => bottomUp[|bottomUp| - 1 - k]);
    }

    function Root(): Digest
      requires Valid()
      ensures Root() == NodeDigest(sha, items, depth, 0, 0)
    {
      levels[0][0]
    }

    /** The requested hashes of one level; None stands for the ValueError a level
        outside the tree raises. Indices outside the level are left out. */
    function NodeHashes(level: int, indices: seq<int>): (r: Option<map<int, Digest>>)
      requires Valid()
      ensures r.Some? <==> 0 <= level <= depth
      ensures r.Some? ==>
        && (forall i :: i in r.value <==> i in indices && 0 <= i < Pow2(level))
        && (forall i | i in r.value :: r.value[i] == NodeDigest(sha, items, depth, level, i))
    {
      if level < 0 || level > depth then None
      else Some(map i | i in indices && 0 <= i < |levels[level]| :: levels[level][i])
    }

    /** The hashes in one leaf bucket, sorted. */
    function BucketMembers(index: int): (r: seq<Bytes>)
      requires Valid()
      ensures r == Sort(Leq, Under(items, depth, index))
    {
      Sort(Leq, Lookup(buckets, index))
    }
  }

  // -- what a digest says ----------------------------------------------------

  /** The bytes hashed for node (k, i), if the node is hashed at all. */
  function NodeInput(sha: Hasher, items: seq<Bytes>, depth: nat, k: nat, i: nat): Option<Bytes>
    requires k <= depth <= 32
  {
    if k == depth then
      var bucket := Under(items, depth, i);
      if bucket == [] then None else Some(Join(Sort(Leq, bucket)))
    else
      var left := NodeDigest(sha, items, depth, k + 1, 2 * i);
      var right := NodeDigest(sha, items, depth, k + 1, 2 * i + 1);
      if left == EMPTY_NODE && right == EMPTY_NODE then None else Some(left + right)
  }

  /** Every input that building the tree feeds to SHA-256. */
  ghost function HashedInputs(sha: Hasher, items: seq<Bytes>, depth: nat): set<Bytes>
    requires depth <= 32
  {
    set k: nat, i: nat | k <= depth && i < Pow2(k) && NodeInput(sha, items, depth, k, i).Some?
      :: NodeInput(sha, items, depth, k, i).value
  }

  /** No two of these inputs collide and none hashes to the empty marker. */
  ghost predicate CollisionFree(sha: Hasher, inputs: set<Bytes>) {
    && (forall x, y | x in inputs && y in inputs && sha(x) == sha(y) :: x == y)
    && (forall x | x in inputs :: sha(x) != EMPTY_NODE)
  }

  /** The premise under which two trees can be compared by their digests. */
  ghost predicate Comparable(sha: Hasher, a: seq<Bytes>, b: seq<Bytes>, depth: nat)
    requires depth <= 32
  {
    && All32(a) && All32(b)
    && CollisionFree(sha, HashedInputs(sha, a, depth) + HashedInputs(sha, b, depth))
  }

  lemma NodeIsHashed(sha: Hasher, items: seq<Bytes>, depth: nat, k: nat, i: nat)
    requires k <= depth <= 32 && i < Pow2(k)
    ensures match NodeInput(sha, items, depth, k, i)
            case None => NodeDigest(sha, items, depth, k, i) == EMPTY_NODE
            case Some(x) => x in HashedInputs(sha, items, depth) && NodeDigest(sha, items, depth, k, i) == sha(x)
  {
  }

  lemma EmptyIffNoInput(sha: Hasher, items: seq<Bytes>, depth: nat, k: nat, i: nat)
    requires k <= depth <= 32 && i < Pow2(k)
    requires CollisionFree(sha, HashedInputs(sha, items, depth))
    ensures NodeDigest(sha, items, depth, k, i) == EMPTY_NODE <==> NodeInput(sha, items, depth, k, i).None?
  {
    NodeIsHashed(sha, items, depth, k, i);
  }

  lemma EmptyIffChildrenEmpty(sha: Hasher, items: seq<Bytes>, depth: nat, k: nat, i: nat)
    requires k < depth <= 32 && i < Pow2(k)
    requires CollisionFree(sha, HashedInputs(sha, items, depth))
    ensures NodeDigest(sha, items, depth, k, i) == EMPTY_NODE <==>
            NodeDigest(sha, items, depth, k + 1, 2 * i) == EMPTY_NODE
            && NodeDigest(sha, items, depth, k + 1, 2 * i + 1) == EMPTY_NODE
  {
    EmptyIffNoInput(sha, items, depth, k, i);
  }

  lemma EmptyFromChildren(sha: Hasher, items: seq<Bytes>, depth: nat, k: nat, i: nat, l: nat, r: nat)
    requires k < depth <= 32 && i < Pow2(k) && l == 2 * i && r == 2 * i + 1
    requires CollisionFree(sha, HashedInputs(sha, items, depth))
    requires NodeDigest(sha, items, depth, k + 1, l) == EMPTY_NODE <==> Under(items, k + 1, l) == []
    requires NodeDigest(sha, items, depth, k + 1, r) == EMPTY_NODE <==> Under(items, k + 1, r) == []
    ensures NodeDigest(sha, items, depth, k, i) == EMPTY_NODE <==> Under(items, k, i) == []
  {
    EmptyIffChildrenEmpty(sha, items, depth, k, i);
    EmptySplits(items, k, i);
  }

  lemma EmptyLeaf(sha: Hasher, items: seq<Bytes>, depth: nat, i: nat)
    requires depth <= 32 && i < Pow2(depth)
    requires CollisionFree(sha, HashedInputs(sha, items, depth))
    ensures NodeDigest(sha, items, depth, depth, i) == EMPTY_NODE <==> Under(items, depth, i) == []
  {
    EmptyIffNoInput(sha, items, depth, depth, i);
  }

  /** A node reads as empty exactly when no item falls under it. */
  lemma {:induction false} EmptyNodeMeansEmpty(sha: Hasher, items: seq<Bytes>, depth: nat, k: nat, i: nat)
    requires k <= depth <= 32 && i < Pow2(k)
    requires CollisionFree(sha, HashedInputs(sha, items, depth))
    ensures NodeDigest(sha, items, depth, k, i) == EMPTY_NODE <==> Under(items, k, i) == []
    decreases depth - k
  {
    if k == depth {
      EmptyLeaf(sha, items, depth, i);
    } else {
      var l: nat, r: nat := 2 * i, 2 * i + 1;
      assert r < Pow2(k + 1);
      EmptyNodeMeansEmpty(sha, items, depth, k + 1, l);
      EmptyNodeMeansEmpty(sha, items, depth, k + 1, r);
      EmptyFromChildren(sha, items, depth, k, i, l, r);
    }
  }

  lemma LeavesSameDigest(sha: Hasher, a: seq<Bytes>, b: seq<Bytes>, depth: nat, i: nat)
    requires depth <= 32
    requires multiset(Under(a, depth, i)) == multiset(Under(b, depth, i))
    ensures NodeDigest(sha, a, depth, depth, i) == NodeDigest(sha, b, depth, depth, i)
  {
    var x, y := Under(a, depth, i), Under(b, depth, i);
    LeqIsTotalOrder();
    SortUnique(Leq, x, y);
    assert |multiset(x)| == |multiset(y)|;
  }

  /** A node depends on nothing but the items under it, in any arrival order. */
  lemma {:induction false} SameItemsSameDigest(sha: Hasher, a: seq<Bytes>, b: seq<Bytes>, depth: nat, k: nat, i: nat)
    requires k <= depth <= 32
    requires multiset(Under(a, k, i)) == multiset(Under(b, k, i))
    ensures NodeDigest(sha, a, depth, k, i) == NodeDigest(sha, b, depth, k, i)
    decreases depth - k
  {
    if k == depth {
      LeavesSameDigest(sha, a, b, depth, i);
    } else {
      SameSplit(a, b, k, i);
      SameItemsSameDigest(sha, a, b, depth, k + 1, 2 * i);
      SameItemsSameDigest(sha, a, b, depth, k + 1, 2 * i + 1);
    }
  }

  /** Equal contents of a node are equal contents of both its children. */
  lemma SameSplit(a: seq<Bytes>, b: seq<Bytes>, k: nat, i: nat)
    requires k < 32
    requires multiset(Under(a, k, i)) == multiset(Under(b, k, i))
    ensures multiset(Under(a, k + 1, 2 * i)) == multiset(Under(b, k + 1, 2 * i))
    ensures multiset(Under(a, k + 1, 2 * i + 1)) == multiset(Under(b, k + 1, 2 * i + 1))
  {
    var left, left' := multiset(Under(a, k + 1, 2 * i)), multiset(Under(b, k + 1, 2 * i));
    var right, right' := multiset(Under(a, k + 1, 2 * i + 1)), multiset(Under(b, k + 1, 2 * i + 1));
    forall x
      ensures left[x] == left'[x] && right[x] == right'[x]
    {
      UnderSplits(a, k, i, x);
      UnderSplits(b, k, i, x);
    }
  }

  /** Without collisions, equal leaf hashes come from equal buckets. */
  lemma LeavesSameItems(sha: Hasher, a: seq<Bytes>, b: seq<Bytes>, depth: nat, i: nat)
    requires depth <= 32 && i < Pow2(depth)
    requires Comparable(sha, a, b, depth)
    ensures NodeDigest(sha, a, depth, depth, i) == NodeDigest(sha, b, depth, depth, i) ==>
      multiset(Under(a, depth, i)) == multiset(Under(b, depth, i))
  {
    var x, y := Under(a, depth, i), Under(b, depth, i);
    UnderMembers(a, depth, i);
    UnderMembers(b, depth, i);
    NodeIsHashed(sha, a, depth, depth, i);
    NodeIsHashed(sha, b, depth, depth, i);
    if x != [] && y != [] && NodeDigest(sha, a, depth, depth, i) == NodeDigest(sha, b, depth, depth, i) {
      SortedJoinInjective(x, y);
    }
  }

  lemma SortedJoinInjective(x: seq<Bytes>, y: seq<Bytes>)
    requires All32(x) && All32(y)
    requires Join(Sort(Leq, x)) == Join(Sort(Leq, y))
    ensures multiset(x) == multiset(y)
  {
    LeqIsTotalOrder();
    SortMembers(Leq, x);
    SortMembers(Leq, y);
    JoinInjective(Sort(Leq, x), Sort(Leq, y));
    SortUnique(Leq, x, y);
  }

  /** Without collisions, equal pair hashes come from equal pairs. */
  lemma ChildrenSameDigest(sha: Hasher, a: seq<Bytes>, b: seq<Bytes>, depth: nat, k: nat, i: nat)
    requires k < depth <= 32 && i < Pow2(k)
    requires Comparable(sha, a, b, depth)
    requires NodeDigest(sha, a, depth, k, i) == NodeDigest(sha, b, depth, k, i)
    ensures NodeDigest(sha, a, depth, k + 1, 2 * i) == NodeDigest(sha, b, depth, k + 1, 2 * i)
    ensures NodeDigest(sha, a, depth, k + 1, 2 * i + 1) == NodeDigest(sha, b, depth, k + 1, 2 * i + 1)
  {
    NodeIsHashed(sha, a, depth, k, i);
    NodeIsHashed(sha, b, depth, k, i);
    PairInjective(
      NodeDigest(sha, a, depth, k + 1, 2 * i), NodeDigest(sha, a, depth, k + 1, 2 * i + 1),
      NodeDigest(sha, b, depth, k + 1, 2 * i), NodeDigest(sha, b, depth, k + 1, 2 * i + 1));
  }

  lemma LeavesSameCount(sha: Hasher, a: seq<Bytes>, b: seq<Bytes>, depth: nat, x: Bytes, i: nat)
    requires depth <= 32 && i == BucketIndex(x, depth)
    requires Comparable(sha, a, b, depth)
    ensures NodeDigest(sha, a, depth, depth, i) == NodeDigest(sha, b, depth, depth, i) ==>
      multiset(a)[x] == multiset(b)[x]
  {
    BucketInRange(x, depth);
    LeavesSameItems(sha, a, b, depth, i);
    UnderCount(a, depth, i, x);
    UnderCount(b, depth, i, x);
  }

  lemma ChildSameDigest(sha: Hasher, a: seq<Bytes>, b: seq<Bytes>, depth: nat, k: nat, i: nat, c: nat)
    requires k < depth <= 32 && i < Pow2(k) && (c == 2 * i || c == 2 * i + 1)
    requires Comparable(sha, a, b, depth)
    requires NodeDigest(sha, a, depth, k, i) == NodeDigest(sha, b, depth, k, i)
    ensures NodeDigest(sha, a, depth, k + 1, c) == NodeDigest(sha, b, depth, k + 1, c)
  {
    ChildrenSameDigest(sha, a, b, depth, k, i);
  }

  /** Without collisions, an item is held equally often by two trees that agree at
      a node above it: the descent follows the item down to its bucket. */
  lemma {:induction false} SameDigestSameCount(sha: Hasher, a: seq<Bytes>, b: seq<Bytes>, depth: nat, k: nat, x: Bytes)
    requires k <= depth <= 32
    requires Comparable(sha, a, b, depth)
    requires NodeDigest(sha, a, depth, k, BucketIndex(x, k)) == NodeDigest(sha, b, depth, k, BucketIndex(x, k))
    ensures multiset(a)[x] == multiset(b)[x]
    decreases depth - k
  {
    if k == depth {
      LeavesSameCount(sha, a, b, depth, x, BucketIndex(x, depth));
    } else {
      BucketInRange(x, k);
      BucketParent(x, k);
      ChildSameDigest(sha, a, b, depth, k, BucketIndex(x, k), BucketIndex(x, k + 1));
      SameDigestSameCount(sha, a, b, depth, k + 1, x);
    }
  }

  lemma SameDigestSameItems(sha: Hasher, a: seq<Bytes>, b: seq<Bytes>, depth: nat, k: nat, i: nat)
    requires k <= depth <= 32
    requires Comparable(sha, a, b, depth)
    requires NodeDigest(sha, a, depth, k, i) == NodeDigest(sha, b, depth, k, i)
    ensures multiset(Under(a, k, i)) == multiset(Under(b, k, i))
  {
    var here, there := multiset(Under(a, k, i)), multiset(Under(b, k, i));
    forall x
      ensures here[x] == there[x]
    {
      UnderCount(a, k, i, x);
      UnderCount(b, k, i, x);
      if BucketIndex(x, k) == i {
        SameDigestSameCount(sha, a, b, depth, k, x);
      }
    }
  }

  lemma PairInjective(l: Digest, r: Digest, l': Digest, r': Digest)
    ensures l + r == l' + r' ==> l == l' && r == r'
  {
    assert (l + r)[..32] == l && (l + r)[32..] == r;
    assert (l' + r')[..32] == l' && (l' + r')[32..] == r';
  }

  /** Two trees agree at a node iff they hold the same items under it. */
  lemma NodesAgreeIffSameItems(sha: Hasher, a: seq<Bytes>, b: seq<Bytes>, depth: nat, k: nat, i: nat)
    requires k <= depth <= 32 && i < Pow2(k)
    requires Comparable(sha, a, b, depth)
    ensures NodeDigest(sha, a, depth, k, i) == NodeDigest(sha, b, depth, k, i)
            <==> multiset(Under(a, k, i)) == multiset(Under(b, k, i))
  {
    if NodeDigest(sha, a, depth, k, i) == NodeDigest(sha, b, depth, k, i) {
      SameDigestSameItems(sha, a, b, depth, k, i);
    } else if multiset(Under(a, k, i)) == multiset(Under(b, k, i)) {
      SameItemsSameDigest(sha, a, b, depth, k, i);
    }
  }

  // -- small trees, digest by digest -------------------------------------------------

  /** Two items, one on each side of a tree of depth one, and their root. */
  lemma RootOfTwoBuckets(sha: Hasher, a: Bytes, b: Bytes)
    requires a != [] && b != [] && a[0] < 128 <= b[0] && sha(a) != EMPTY_NODE
    ensures NodeDigest(sha, [b, a], 1, 0, 0) == sha(sha(a) + sha(b))
  {
    FirstBit(a);
    FirstBit(b);
    BucketsOfTwo(a, b);
    JoinOne(a);
    JoinOne(b);
    assert NodeDigest(sha, [b, a], 1, 1, 0) == sha(a) && NodeDigest(sha, [b, a], 1, 1, 1) == sha(b);
  }

  lemma FirstBit(x: Bytes)
    requires x != []
    ensures BucketIndex(x, 1) == if x[0] < 128 then 0 else 1
  {
    BucketAppendsBit(x, 0);
    assert Pow2(3) == 8;
    Pow2Sum(3, 4);
    assert Pow2(7) == 128 && Bit(x, 0) == x[0] / 128 % 2;
  }

  lemma BucketsOfTwo(a: Bytes, b: Bytes)
    requires BucketIndex(a, 1) == 0 && BucketIndex(b, 1) == 1
    ensures Under([b, a], 1, 0) == [a] && Under([b, a], 1, 1) == [b]
  {
    assert [b, a][..1] == [b] && [b][..0] == [];
    assert Under([b], 1, 0) == [] && Under([b], 1, 1) == [b];
  }

  lemma JoinOne(x: Bytes)
    ensures Join(Sort(Leq, [x])) == x
  {
    assert Sort(Leq, [x]) == [x];
    assert Join([x]) == x + [];
  }

  lemma SortTwo(a: Bytes, b: Bytes)
    requires !Leq(b, a)
    ensures Sort(Leq, [b, a]) == [a, b]
  {
    assert [b, a][1..] == [a] && [a][1..] == [];
    assert Sort(Leq, [a]) == [a];
    assert Insert(Leq, b, []) == [b];
    assert Insert(Leq, b, [a]) == [a] + Insert(Leq, b, [a][1..]);
  }

  lemma JoinTwo(a: Bytes, b: Bytes)
    ensures Join([a, b]) == a + b
  {
    assert [a, b][1..] == [b] && [b][1..] == [];
    assert Join([b]) == b + [];
  }

  /** Two items of one bucket are hashed together, in order. */
  lemma LeafOfTwo(sha: Hasher, a: Bytes, b: Bytes)
    requires ComesFirst(a, b)
    ensures HashLeaf(sha, [b, a]) == sha(a + b)
  {
    var n: nat :| ComesFirstAt(a, b, n);
    LeqMeansComesFirst(a, b);
    LeqTotal(a, b);
    SortTwo(a, b);
    JoinTwo(a, b);
  }
}
