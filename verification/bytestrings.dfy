/** Python `bytes`: their order, and the joins the hub hashes. */
module ByteStrings {
  import opened Sorting

  type byte = x: int | 0 <= x < 256

  type Bytes = seq<byte>

  /** A SHA-256 output, which is also the shape of a message hash. */
  type Digest = s: Bytes | |s| == 32 witness seq(32, _ => 0)

  /** Lexicographic order, as Python compares `bytes`. */
  predicate Leq(a: Bytes, b: Bytes) {
    a == [] || (b != [] && (a[0] < b[0] || (a[0] == b[0] && Leq(a[1..], b[1..]))))
  }

  lemma {:induction false} LeqTotal(a: Bytes, b: Bytes)
    ensures Leq(a, b) || Leq(b, a)
    ensures Leq(a, b) && Leq(b, a) ==> a == b
  {
    if a != [] && b != [] {
      LeqTotal(a[1..], b[1..]);
      assert a == [a[0]] + a[1..] && b == [b[0]] + b[1..];
    }
  }

  lemma {:induction false} LeqTransitive(a: Bytes, b: Bytes, c: Bytes)
    requires Leq(a, b) && Leq(b, c)
    ensures Leq(a, c)
  {
    if a != [] && a[0] == b[0] && b[0] == c[0] {
      LeqTransitive(a[1..], b[1..], c[1..]);
    }
  }

  lemma LeqIsTotalOrder()
    ensures TotalOrder(Leq)
  {
    forall a: Bytes, b: Bytes
      ensures Leq(a, b) || Leq(b, a)
      ensures Leq(a, b) && Leq(b, a) ==> a == b
    {
      LeqTotal(a, b);
    }
    forall a: Bytes, b: Bytes, c: Bytes | Leq(a, b) && Leq(b, c)
      ensures Leq(a, c)
    {
      LeqTransitive(a, b, c);
    }
  }

  /** The strings agree before position n, where a ends or has the lower byte. */
  ghost predicate ComesFirstAt(a: Bytes, b: Bytes, n: nat) {
    && n <= |a| && n < |b| && a[..n] == b[..n]
    && (n == |a| || a[n] < b[n])
  }

  ghost predicate ComesFirst(a: Bytes, b: Bytes) {
    exists n :: ComesFirstAt(a, b, n)
  }

  /** The recursive comparison is decided at the first difference. */
  lemma {:induction false} LeqMeansComesFirst(a: Bytes, b: Bytes)
    ensures Leq(a, b) <==> a == b || ComesFirst(a, b)
  {
    if a == [] || b == [] || a[0] != b[0] {
      assert ComesFirstAt(a, b, 0) <==> a != b && Leq(a, b);
      FirstBytesAgree(a, b);
    } else {
      LeqMeansComesFirst(a[1..], b[1..]);
      TailsDecide(a, b);
    }
  }

  lemma FirstBytesAgree(a: Bytes, b: Bytes)
    ensures forall n: nat | n > 0 && ComesFirstAt(a, b, n) :: a[0] == b[0]
  {
    forall n: nat | n > 0 && ComesFirstAt(a, b, n)
      ensures a[0] == b[0]
    {
      assert a[0] == a[..n][0] && b[0] == b[..n][0];
    }
  }

  lemma TailsDecide(a: Bytes, b: Bytes)
    requires a != [] && b != [] && a[0] == b[0]
    ensures ComesFirst(a, b) <==> ComesFirst(a[1..], b[1..])
    ensures a == b <==> a[1..] == b[1..]
  {
    assert a == [a[0]] + a[1..] && b == [b[0]] + b[1..];
    if n: nat :| ComesFirstAt(a[1..], b[1..], n) {
      assert a[..n + 1] == [a[0]] + a[1..][..n] && b[..n + 1] == [b[0]] + b[1..][..n];
      assert ComesFirstAt(a, b, n + 1);
    }
    if n: nat :| ComesFirstAt(a, b, n) {
      assert n > 0;
      assert a[1..][..n - 1] == a[..n][1..] && b[1..][..n - 1] == b[..n][1..];
      assert ComesFirstAt(a[1..], b[1..], n - 1);
    }
  }

  /** What successive `digest.update` calls feed to the hash. */
  function Join(parts: seq<Bytes>): Bytes {
    if parts == [] then [] else parts[0] + Join(parts[1..])
  }

  ghost predicate All32(items: seq<Bytes>) {
    forall x | x in items :: |x| == 32
  }

  /** The join carries no lengths, so it is injective only because every item has
      the same one. */
  lemma {:induction false} JoinInjective(a: seq<Bytes>, b: seq<Bytes>)
    requires All32(a) && All32(b)
    requires Join(a) == Join(b)
    ensures a == b
  {
    JoinLength(a);
    JoinLength(b);
    if a != [] {
      assert a[0] in a && b[0] in b;
      assert Join(a)[..32] == a[0] && Join(b)[..32] == b[0];
      assert Join(a)[32..] == Join(a[1..]) && Join(b)[32..] == Join(b[1..]);
      JoinInjective(a[1..], b[1..]);
      assert a == [a[0]] + a[1..] && b == [b[0]] + b[1..];
    }
  }

  lemma {:induction false} JoinLength(a: seq<Bytes>)
    requires All32(a)
    ensures |Join(a)| == 32 * |a|
  {
    if a != [] {
      assert a[0] in a;
      JoinLength(a[1..]);
    }
  }
}
