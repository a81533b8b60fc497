/** Bytes and the little-endian integers of the packed packet structs. */
module Bytes {

  type byte = x: int | 0 <= x < 256

  type Buffer = seq<byte>

  datatype Option<+T> = None | Some(value: T)

  function Pow256(w: nat): (p: nat)
    ensures p > 0
  {
    if w == 0 then 1 else 256 * Pow256(w - 1)
  }

  /** The w low-order bytes of v, least significant first. */
  function ToLE(v: nat, w: nat): (s: Buffer)
    ensures |s| == w
  {
    if w == 0 then [] else [v % 256] + ToLE(v / 256, w - 1)
  }

  function FromLE(s: Buffer): (v: nat)
    ensures v < Pow256(|s|)
  {
    if s == [] then 0 else s[0] + 256 * FromLE(s[1..])
  }

  lemma {:induction false} FromToLE(v: nat, w: nat)
    requires v < Pow256(w)
    ensures FromLE(ToLE(v, w)) == v
  {
    if w > 0 {
      FromToLE(v / 256, w - 1);
      assert ToLE(v, w)[1..] == ToLE(v / 256, w - 1);
    }
  }

  lemma {:induction false} ToFromLE(s: Buffer)
    ensures ToLE(FromLE(s), |s|) == s
  {
    if s != [] {
      ToFromLE(s[1..]);
      assert FromLE(s) / 256 == FromLE(s[1..]);
    }
  }

  /** Byte i has the weight 256 to the i: the least significant byte comes first. */
  lemma {:induction false} ToLEAt(v: nat, w: nat, i: nat)
    requires i < w
    ensures ToLE(v, w)[i] == v / Pow256(i) % 256
  {
    if i > 0 {
      ToLEAt(v / 256, w - 1, i - 1);
      DivTwice(v, 256, Pow256(i - 1));
    }
  }

  lemma DivTwice(v: nat, b: nat, p: nat)
    requires b > 0 && p > 0
    ensures b * p > 0 && v / b / p == v / (b * p)
  {
    var q := v / b;
    var a, r := q / p, b * (q % p) + v % b;
    Quotient(v, b);
    Quotient(q, p);
    Multiple(b, q % p, p);
    assert b * q == b * (p * a) + b * (q % p);
    assert b * (p * a) == (b * p) * a;
    DivIs(v, b * p, a, r);
  }

  lemma DivIs(v: nat, d: nat, a: nat, r: nat)
    requires d > 0 && v == d * a + r && r < d
    ensures v / d == a
  {
    var q, s := v / d, v % d;
    Quotient(v, d);
    if q > a {
      Multiple(d, a, q);
    } else if q < a {
      Multiple(d, q, a);
    }
  }

  lemma Quotient(v: nat, d: nat)
    requires d > 0
    ensures v == d * (v / d) + v % d && 0 <= v % d < d && v / d >= 0
  {
  }

  lemma Multiple(d: nat, a: nat, b: nat)
    requires d > 0 && a < b
    ensures d * b >= d * a + d
  {
    assert d * b == d * a + d * (b - a);
    AtLeastOnce(d, b - a);
  }

  lemma AtLeastOnce(d: nat, k: nat)
    requires k > 0
    ensures d * k >= d
  {
    assert d * k == d * (k - 1) + d;
  }

  /** Two and four bytes, written out. */
  lemma FewBytes(s: Buffer)
    ensures |s| == 2 ==> FromLE(s) == s[0] as int + 256 * s[1] as int
    ensures |s| == 4 ==> FromLE(s) == s[0] as int + 256 * s[1] as int + 65536 * s[2] as int + 16777216 * s[3] as int
  {
    if |s| == 2 {
      assert FromLE(s[1..]) == s[1];
    } else if |s| == 4 {
      assert FromLE(s[1..][1..][1..]) == s[3];
      assert FromLE(s[1..][1..]) == s[2] as int + 256 * s[3] as int;
      assert FromLE(s[1..]) == s[1] as int + 256 * s[2] as int + 65536 * s[3] as int;
    }
  }

  /** The bounds of the fixed-width integers, as powers of 256. */
  lemma Widths()
    ensures Pow256(1) == 0x100
    ensures Pow256(2) == 0x1_0000
    ensures Pow256(4) == 0x1_0000_0000
    ensures Pow256(8) == 0x1_0000_0000_0000_0000
  {
    assert Pow256(3) == 0x100_0000;
    assert Pow256(5) == 0x100_0000_0000;
    assert Pow256(6) == 0x1_0000_0000_0000;
    assert Pow256(7) == 0x100_0000_0000_0000;
  }

  /** All the chunks of a list, one after the other. */
  function Concat(chunks: seq<Buffer>): Buffer {
    if chunks == [] then [] else chunks[0] + Concat(chunks[1..])
  }

  lemma ConcatOne(chunk: Buffer)
    ensures Concat([chunk]) == chunk
  {
    var none: seq<Buffer> := [];
    assert [chunk][1..] == none && Concat(none) == [];
  }

  lemma {:induction false} ConcatAppend(chunks: seq<Buffer>, more: seq<Buffer>)
    ensures Concat(chunks + more) == Concat(chunks) + Concat(more)
  {
    if chunks == [] {
      assert chunks + more == more;
    } else {
      AppendTail(chunks, more);
      ConcatAppend(chunks[1..], more);
      Assoc(chunks[0], Concat(chunks[1..]), Concat(more));
    }
  }

  lemma {:induction false} ConcatLast(chunks: seq<Buffer>)
    requires chunks != []
    ensures Concat(chunks) == Concat(chunks[..|chunks| - 1]) + chunks[|chunks| - 1]
  {
    ConcatAppend(chunks[..|chunks| - 1], [chunks[|chunks| - 1]]);
    ConcatOne(chunks[|chunks| - 1]);
    InitLast(chunks);
  }

  // ---------------------------------------------------------------------
  // Sequences
  // ---------------------------------------------------------------------

  lemma Assoc<T>(a: seq<T>, b: seq<T>, c: seq<T>)
    ensures (a + b) + c == a + (b + c)
  {
  }

  lemma AppendTail<T>(a: seq<T>, b: seq<T>)
    requires a != []
    ensures a + b != [] && (a + b)[0] == a[0] && (a + b)[1..] == a[1..] + b
  {
  }

  lemma Parted<T>(a: seq<T>, b: seq<T>)
    ensures (a + b)[..|a|] == a && (a + b)[|a|..] == b
  {
  }

  lemma InFront<T>(a: seq<T>, b: seq<T>, p: nat, q: nat)
    requires p <= q <= |a|
    ensures (a + b)[p..q] == a[p..q]
  {
  }

  lemma ConsAt<T>(x: T, a: seq<T>, i: nat)
    requires i <= |a|
    ensures ([x] + a)[i] == if i == 0 then x else a[i - 1]
  {
  }

  lemma InitLast<T>(a: seq<T>)
    requires a != []
    ensures a[..|a| - 1] + [a[|a| - 1]] == a
  {
  }

  lemma HeadTail<T>(a: seq<T>)
    requires a != []
    ensures [a[0]] + a[1..] == a
  {
  }

  /** A part of a sequence cut in two. */
  lemma Cut<T>(a: seq<T>, p: nat, q: nat, r: nat)
    requires p <= q <= r <= |a|
    ensures a[p..q] + a[q..r] == a[p..r]
  {
  }

  /** The rest of a sequence from some place on. */
  lemma RestAt<T>(a: seq<T>, i: nat)
    requires i < |a|
    ensures a[i..] != [] && a[i..][0] == a[i] && a[i..][1..] == a[i + 1..]
  {
  }

  /** A sequence cut in three. */
  lemma Thirds<T>(a: seq<T>, p: nat, q: nat)
    requires p <= q <= |a|
    ensures a[..p] + a[p..q] == a[..q] && a[..q] + a[q..] == a
  {
  }

  /** The end of a part of a sequence. */
  lemma Drop<T>(a: seq<T>, p: nat, n: nat, r: nat)
    requires p + n <= r <= |a|
    ensures a[p..r][n..] == a[p + n..r]
  {
  }
}
