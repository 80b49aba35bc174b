/** Bytes, little-endian 32-bit words, lexicographic order, and a few facts on sequences and sets. */
module Bytes {
  type byte = n: int | 0 <= n < 256

  datatype Option<+T> = None | Some(value: T)

  const TWO32 := 0x1_0000_0000

  function Le(n: nat, width: nat): (b: seq<byte>)
    ensures |b| == width
  {
    if width == 0 then [] else [n % 256] + Le(n / 256, width - 1)
  }

  function FromLe(b: seq<byte>): nat {
    if b == [] then 0 else b[0] as int + 256 * FromLe(b[1..])
  }

  function Pow256(width: nat): nat {
    if width == 0 then 1 else 256 * Pow256(width - 1)
  }

  /** binary.LittleEndian.PutUint32 */
  function Le32(n: int): (b: seq<byte>)
    requires 0 <= n < TWO32
    ensures |b| == 4
  {
    Le(n, 4)
  }

  /** binary.LittleEndian.Uint32 */
  function FromLe32(b: seq<byte>): (n: int)
    requires |b| == 4
    ensures 0 <= n < TWO32
  {
    FromLeBound(b);
    Pow256Word();
    FromLe(b)
  }

  /** The four bytes of a word, the least significant one first. */
  lemma Le32Bytes(n: int)
    requires 0 <= n < TWO32
    ensures Le32(n) == [n % 0x100, n / 0x100 % 0x100, n / 0x1_0000 % 0x100, n / 0x100_0000]
  {
    assert n / 0x100 / 0x100 == n / 0x1_0000 && n / 0x1_0000 / 0x100 == n / 0x100_0000;
    assert Le(n, 4) == [n % 0x100] + Le(n / 0x100, 3);
    assert Le(n / 0x100, 3) == [n / 0x100 % 0x100] + Le(n / 0x1_0000, 2);
    assert Le(n / 0x1_0000, 2) == [n / 0x1_0000 % 0x100] + Le(n / 0x100_0000, 1);
    assert Le(n / 0x100_0000, 1) == [n / 0x100_0000 % 0x100] + Le(0, 0);
  }

  lemma Pow256Word()
    ensures Pow256(4) == TWO32
  {
    assert Pow256(1) == 256;
    assert Pow256(2) == 65536;
    assert Pow256(3) == 16777216;
  }

  lemma {:induction false} FromLeBound(b: seq<byte>)
    ensures 0 <= FromLe(b) < Pow256(|b|)
  {
    if b != [] {
      FromLeBound(b[1..]);
    }
  }

  lemma {:induction false} LeDecodes(n: nat, width: nat)
    requires n < Pow256(width)
    ensures FromLe(Le(n, width)) == n
  {
    if width > 0 {
      LeDecodes(n / 256, width - 1);
      assert Le(n, width)[1..] == Le(n / 256, width - 1);
    }
  }

  lemma {:induction false} LeEncodes(b: seq<byte>)
    ensures Le(FromLe(b), |b|) == b
  {
    if b != [] {
      LeEncodes(b[1..]);
      LowestByte(b[0], FromLe(b[1..]));
      assert b == [b[0]] + b[1..];
    }
  }

  lemma LowestByte(low: byte, rest: nat)
    ensures (low as int + 256 * rest) % 256 == low && (low as int + 256 * rest) / 256 == rest
  {
  }

  lemma Le32Decodes(n: int)
    requires 0 <= n < TWO32
    ensures FromLe32(Le32(n)) == n
  {
    Pow256Word();
    LeDecodes(n, 4);
  }

  lemma Le32Encodes(b: seq<byte>)
    requires |b| == 4
    ensures Le32(FromLe32(b)) == b
  {
    LeEncodes(b);
  }

  // ---- Lexicographic order -----------------------------------------------------------------

  predicate Before(a: seq<int>, b: seq<int>) {
    b != [] && (a == [] || a[0] < b[0] || (a[0] == b[0] && Before(a[1..], b[1..])))
  }

  lemma {:induction false} BeforeSamePrefix(p: seq<int>, a: seq<int>, b: seq<int>)
    ensures Before(p + a, p + b) <==> Before(a, b)
  {
    if p == [] {
      assert p + a == a && p + b == b;
    } else {
      assert (p + a)[1..] == p[1..] + a && (p + b)[1..] == p[1..] + b;
      BeforeSamePrefix(p[1..], a, b);
    }
  }

  lemma {:induction false} BeforeTotal(a: seq<int>, b: seq<int>)
    ensures Before(a, b) ==> a != b && !Before(b, a)
    ensures Before(a, b) || a == b || Before(b, a)
  {
    if a != [] && b != [] && a[0] == b[0] {
      BeforeTotal(a[1..], b[1..]);
      assert a == [a[0]] + a[1..] && b == [b[0]] + b[1..];
    }
  }

  lemma {:induction false} BeforeTransitive(a: seq<int>, b: seq<int>, c: seq<int>)
    requires Before(a, b) && Before(b, c)
    ensures Before(a, c)
  {
    if a != [] && a[0] == b[0] == c[0] {
      BeforeTransitive(a[1..], b[1..], c[1..]);
    }
  }

  // ---- Sorting -----------------------------------------------------------------------------

  /** The order is lexicographic: the first difference decides, and a proper prefix comes first. */
  lemma {:induction false} BeforeMeans(a: seq<int>, b: seq<int>)
    ensures Before(a, b) <==>
              exists k :: 0 <= k <= |a| && k < |b| && a[..k] == b[..k] && (k == |a| || a[k] < b[k])
  {
    if a != [] && b != [] && a[0] == b[0] {
      BeforeMeans(a[1..], b[1..]);
      if k :| 0 <= k <= |a[1..]| && k < |b[1..]| && a[1..][..k] == b[1..][..k]
              && (k == |a[1..]| || a[1..][k] < b[1..][k]) {
        assert a[..k + 1] == [a[0]] + a[1..][..k] && b[..k + 1] == [b[0]] + b[1..][..k];
      }
      if k :| 0 <= k <= |a| && k < |b| && a[..k] == b[..k] && (k == |a| || a[k] < b[k]) {
        assert k > 0;
        assert a[1..][..k - 1] == a[..k][1..] && b[1..][..k - 1] == b[..k][1..];
      }
    } else if a == [] || b == [] {
      assert b != [] ==> a[..0] == b[..0];
    } else {
      assert a[..0] == b[..0];
      if k :| 0 <= k <= |a| && k < |b| && a[..k] == b[..k] && (k == |a| || a[k] < b[k]) {
        assert k > 0 ==> a[..k][0] == b[..k][0];
      }
    }
  }

  predicate SortedBy<T>(xs: seq<T>, rank: T -> seq<int>) {
    forall i, j :: 0 <= i < j < |xs| ==> Before(rank(xs[i]), rank(xs[j]))
  }

  /** Puts an element with a new rank where it belongs. */
  method InsertBy<T>(xs: seq<T>, x: T, rank: T -> seq<int>) returns (r: seq<T>)
    requires SortedBy(xs, rank) && forall y :: y in xs ==> rank(y) != rank(x)
    ensures SortedBy(r, rank) && forall y :: y in r <==> y in xs || y == x
  {
    var k := 0;
    while k < |xs| && Before(rank(xs[k]), rank(x))
      invariant 0 <= k <= |xs|
      invariant forall i :: 0 <= i < k ==> Before(rank(xs[i]), rank(x))
    {
      k := k + 1;
    }
    r := xs[..k] + [x] + xs[k..];
    forall j | k <= j < |xs| ensures Before(rank(x), rank(xs[j])) {
      assert xs[k] in xs;
      BeforeTotal(rank(xs[k]), rank(x));
      if j > k {
        BeforeTransitive(rank(x), rank(xs[k]), rank(xs[j]));
      }
    }
  }

  // ---- Sequences and sets ------------------------------------------------------------------

  lemma SplitEqual<T>(p: seq<T>, x: seq<T>, q: seq<T>, y: seq<T>)
    requires p + x == q + y && |p| == |q|
    ensures p == q && x == y
  {
    assert p == (p + x)[..|p|] && x == (p + x)[|p|..];
  }

  lemma Regroup<T>(x: seq<T>, y: seq<T>, z: seq<T>)
    ensures x + y + z == x + (y + z)
  {
  }

  lemma SubsetSize<T>(a: set<T>, b: set<T>)
    requires a <= b
    ensures |a| <= |b|
  {
    assert b == a + (b - a);
  }
}
