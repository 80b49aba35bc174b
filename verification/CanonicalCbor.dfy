/** Canonical CBOR signing bytes: encoding of values, the order of map keys, and the sorted top-level
    map an envelope is signed as. Text is a sequence of UTF-8 bytes. */
module CanonicalCbor {
  import opened Bytes

  type Utf8 = seq<byte>

  // ---- Heads -------------------------------------------------------------------------------

  const TWO64 := 0x1_0000_0000_0000_0000

  /** Big-endian, most significant byte first. */
  function Be(n: nat, width: nat): (b: seq<byte>)
    ensures |b| == width
  {
    if width == 0 then [] else Be(n / 256, width - 1) + [n % 256]
  }

  /** The width of the argument that follows the initial byte. */
  function Width(n: nat): nat {
    if n < 24 then 0 else if n < 0x100 then 1 else if n < 0x1_0000 then 2 else if n < TWO32 then 4 else 8
  }

  function Info(n: nat): (i: nat)
    ensures i < 32
  {
    match Width(n) case 0 => if n < 24 then n else 0 case 1 => 24 case 2 => 25 case 4 => 26 case _ => 27
  }

  /** The initial byte and argument of a data item, in the shortest form (section 3 of RFC 8949). */
  function Head(major: nat, n: nat): seq<byte>
    requires major < 8
  {
    [32 * major + Info(n)] + Be(n, Width(n))
  }

  // ---- Values ------------------------------------------------------------------------------

  datatype Value =
    | CNull | CBool(b: bool) | CInt(i: int) | CText(s: Utf8) | CArray(items: seq<Value>)
    | CMap(pairs: seq<Pair>)

  datatype Pair = Pair(key: Value, value: Value)

  /** Integers fit in 64 bits plus sign, lengths in 64 bits. */
  predicate Fits(v: Value) {
    match v
    case CNull | CBool(_) => true
    case CInt(i) => -TWO64 <= i < TWO64
    case CText(s) => |s| < TWO64
    case CArray(items) => |items| < TWO64 && forall k :: 0 <= k < |items| ==> Fits(items[k])
    case CMap(pairs) => |pairs| < TWO64 && forall k :: 0 <= k < |pairs| ==> FitsPair(pairs[k])
  }

  predicate FitsPair(p: Pair) {
    Fits(p.key) && Fits(p.value)
  }

  function Encode(v: Value): seq<byte>
    decreases v, 0
  {
    match v
    case CNull => Head(7, 22)
    case CBool(b) => Head(7, if b then 21 else 20)
    case CInt(i) => if i >= 0 then Head(0, i) else Head(1, -1 - i)
    case CText(s) => Head(3, |s|) + s
    case CArray(items) => Head(4, |items|) + EncodeAll(items)
    case CMap(pairs) => Head(5, |pairs|) + EncodePairs(pairs)
  }

  function EncodeAll(vs: seq<Value>): seq<byte> {
    if vs == [] then [] else Encode(vs[0]) + EncodeAll(vs[1..])
  }

  function EncodePairs(ps: seq<Pair>): seq<byte> {
    if ps == [] then [] else EncodePair(ps[0]) + EncodePairs(ps[1..])
  }

  function EncodePair(p: Pair): seq<byte> {
    Encode(p.key) + Encode(p.value)
  }

  // ---- What the bytes are ------------------------------------------------------------------

  /** The number that bytes stand for, the most significant one first. */
  function FromBe(b: seq<byte>): nat {
    if b == [] then 0 else 256 * FromBe(b[..|b| - 1]) + b[|b| - 1] as int
  }

  lemma {:induction false} BeReads(n: nat, width: nat)
    requires n < Pow256(width)
    ensures FromBe(Be(n, width)) == n
  {
    if width > 0 {
      BeReads(n / 256, width - 1);
      assert Be(n, width)[..width - 1] == Be(n / 256, width - 1);
    }
  }

  /** A head as section 3 of RFC 8949 has it: the major type in the upper three bits, a small argument in the
      lower five, and otherwise 24 to 27 there and the argument behind, in 1, 2, 4 or 8 bytes. */
  lemma HeadMeans(major: nat, n: nat)
    requires major < 8 && n < 0x1_0000_0000_0000_0000
    ensures
      var h := Head(major, n);
      if n < 24 then h == [32 * major + n]
      else
        && |h| == (if n < 0x100 then 2 else if n < 0x1_0000 then 3 else if n < 0x1_0000_0000 then 5 else 9)
        && h[0] == 32 * major + (if |h| == 2 then 24 else if |h| == 3 then 25 else if |h| == 5 then 26 else 27)
        && FromBe(h[1..]) == n
  {
    if n >= 24 {
      WidthHolds(n);
      BeReads(n, Width(n));
      assert Head(major, n)[1..] == Be(n, Width(n));
    }
  }

  /** Which bytes stand for which value (section 3.1 of RFC 8949). */
  lemma EncodeMeans(v: Value)
    ensures
      match v
      case CNull => Encode(v) == [0xF6]
      case CBool(b) => Encode(v) == if b then [0xF5] else [0xF4]
      case CInt(i) => Encode(v) == if i >= 0 then Head(0, i) else Head(1, -1 - i)
      case CText(s) => Encode(v) == Head(3, |s|) + s
      case CArray(items) => Encode(v) == Head(4, |items|) + EncodeAll(items)
      case CMap(pairs) => Encode(v) == Head(5, |pairs|) + EncodePairs(pairs)
  {
    if v.CNull? || v.CBool? {
      HeadMeans(7, 20);
      HeadMeans(7, 21);
      HeadMeans(7, 22);
    }
  }

  /** Items follow each other in order. */
  lemma {:induction false} EncodeAllInOrder(vs: seq<Value>, v: Value)
    ensures EncodeAll([]) == [] && EncodeAll(vs + [v]) == EncodeAll(vs) + Encode(v)
  {
    if vs == [] {
      assert [v][1..] == [];
      assert EncodeAll([v]) == Encode(v) + [];
    } else {
      assert (vs + [v])[1..] == vs[1..] + [v];
      EncodeAllInOrder(vs[1..], v);
    }
  }

  /** Pairs follow each other in order, each key in front of its value. */
  lemma {:induction false} EncodePairsInOrder(ps: seq<Pair>, key: Value, value: Value)
    ensures EncodePairs([]) == []
    ensures EncodePairs(ps + [Pair(key, value)]) == EncodePairs(ps) + (Encode(key) + Encode(value))
  {
    var p := Pair(key, value);
    if ps == [] {
      assert [p][1..] == [];
      assert EncodePairs([p]) == Encode(key) + Encode(value) + [];
    } else {
      assert (ps + [p])[1..] == ps[1..] + [p];
      EncodePairsInOrder(ps[1..], key, value);
    }
  }

  // ---- An encoding determines its value ----------------------------------------------------

  lemma WidthLimits()
    ensures Pow256(1) == 0x100 && Pow256(2) == 0x1_0000 && Pow256(4) == TWO32 && Pow256(8) == TWO64
  {
    Pow256Word();
    assert Pow256(1) == 256;
    assert Pow256(2) == 65536;
    assert Pow256(5) == 0x100_0000_0000;
    assert Pow256(6) == 0x1_0000_0000_0000;
    assert Pow256(7) == 0x100_0000_0000_0000;
  }

  lemma WidthHolds(n: nat)
    requires n < TWO64
    ensures Width(n) > 0 ==> n < Pow256(Width(n))
  {
    WidthLimits();
  }

  lemma {:induction false} BeInjective(n: nat, m: nat, width: nat)
    requires n < Pow256(width) && m < Pow256(width) && Be(n, width) == Be(m, width)
    ensures n == m
  {
    if width > 0 {
      var a, b := Be(n, width), Be(m, width);
      assert a[..width - 1] == Be(n / 256, width - 1) && b[..width - 1] == Be(m / 256, width - 1);
      assert a[width - 1] == n % 256 && b[width - 1] == m % 256;
      BeInjective(n / 256, m / 256, width - 1);
    }
  }

  lemma HeadUnique(major: nat, n: nat, r: seq<byte>, major': nat, n': nat, r': seq<byte>)
    requires major < 8 && major' < 8 && n < TWO64 && n' < TWO64
    requires Head(major, n) + r == Head(major', n') + r'
    ensures major == major' && n == n' && r == r'
  {
    var x, y := Head(major, n) + r, Head(major', n') + r';
    assert x[0] == 32 * major + Info(n) && y[0] == 32 * major' + Info(n');
    assert major == major' && Info(n) == Info(n');
    var w := Width(n);
    InfoDecidesWidth(n, n');
    assert x[1..1 + w] == Be(n, w) && y[1..1 + w] == Be(n', w);
    assert x[1 + w..] == r && y[1 + w..] == r';
    if w > 0 {
      WidthHolds(n);
      WidthHolds(n');
      BeInjective(n, n', w);
    }
  }

  lemma InfoDecidesWidth(n: nat, n': nat)
    requires Info(n) == Info(n')
    ensures Width(n) == Width(n') && (Width(n) == 0 ==> n == n')
  {
  }

  function Major(v: Value): (m: nat)
    ensures m < 8
  {
    match v
    case CNull | CBool(_) => 7
    case CInt(i) => if i >= 0 then 0 else 1
    case CText(_) => 3
    case CArray(_) => 4
    case CMap(_) => 5
  }

  function Argument(v: Value): nat {
    match v
    case CNull => 22
    case CBool(b) => if b then 21 else 20
    case CInt(i) => if i >= 0 then i else -1 - i
    case CText(s) => |s|
    case CArray(items) => |items|
    case CMap(pairs) => |pairs|
  }

  function Payload(v: Value): seq<byte>
    decreases v, 1
  {
    match v
    case CNull | CBool(_) | CInt(_) => []
    case CText(s) => s
    case CArray(items) => EncodeAll(items)
    case CMap(pairs) => EncodePairs(pairs)
  }

  lemma EncodeParts(v: Value, r: seq<byte>)
    ensures Encode(v) + r == Head(Major(v), Argument(v)) + (Payload(v) + r)
  {
    if v.CNull? || v.CBool? || v.CInt? {
      assert [] + r == r;
    }
  }

  /** Encodings are prefix-free: a byte string starts with at most one value's encoding. */
  lemma {:induction false} EncodingUnique(v: Value, r: seq<byte>, w: Value, s: seq<byte>)
    requires Fits(v) && Fits(w) && Encode(v) + r == Encode(w) + s
    ensures v == w && r == s
    decreases v, 0
  {
    EncodeParts(v, r);
    EncodeParts(w, s);
    HeadUnique(Major(v), Argument(v), Payload(v) + r, Major(w), Argument(w), Payload(w) + s);
    match v
    case CNull | CBool(_) | CInt(_) =>
      assert [] + r == r && [] + s == s;
    case CText(t) =>
      SplitEqual(t, r, w.s, s);
    case CArray(items) =>
      ItemsUnique(items, r, w.items, s);
    case CMap(pairs) =>
      PairsUnique(pairs, r, w.pairs, s);
  }

  lemma {:induction false} ItemsUnique(vs: seq<Value>, r: seq<byte>, ws: seq<Value>, s: seq<byte>)
    requires |vs| == |ws|
    requires forall k :: 0 <= k < |vs| ==> Fits(vs[k]) && Fits(ws[k])
    requires EncodeAll(vs) + r == EncodeAll(ws) + s
    ensures vs == ws && r == s
    decreases vs
  {
    if vs == [] {
      assert [] + r == r && [] + s == s;
    } else {
      Regroup(Encode(vs[0]), EncodeAll(vs[1..]), r);
      Regroup(Encode(ws[0]), EncodeAll(ws[1..]), s);
      EncodingUnique(vs[0], EncodeAll(vs[1..]) + r, ws[0], EncodeAll(ws[1..]) + s);
      ItemsUnique(vs[1..], r, ws[1..], s);
      assert vs == [vs[0]] + vs[1..] && ws == [ws[0]] + ws[1..];
    }
  }

  lemma {:induction false} PairsUnique(ps: seq<Pair>, r: seq<byte>, qs: seq<Pair>, s: seq<byte>)
    requires |ps| == |qs|
    requires forall k :: 0 <= k < |ps| ==> FitsPair(ps[k]) && FitsPair(qs[k])
    requires EncodePairs(ps) + r == EncodePairs(qs) + s
    ensures ps == qs && r == s
    decreases ps
  {
    if ps == [] {
      assert [] + r == r && [] + s == s;
    } else {
      Regroup(EncodePair(ps[0]), EncodePairs(ps[1..]), r);
      Regroup(EncodePair(qs[0]), EncodePairs(qs[1..]), s);
      PairUnique(ps[0], EncodePairs(ps[1..]) + r, qs[0], EncodePairs(qs[1..]) + s);
      PairsUnique(ps[1..], r, qs[1..], s);
      assert ps == [ps[0]] + ps[1..] && qs == [qs[0]] + qs[1..];
    }
  }

  lemma {:induction false} PairUnique(p: Pair, r: seq<byte>, q: Pair, s: seq<byte>)
    requires FitsPair(p) && FitsPair(q) && EncodePair(p) + r == EncodePair(q) + s
    ensures p == q && r == s
    decreases p
  {
    Regroup(Encode(p.key), Encode(p.value), r);
    Regroup(Encode(q.key), Encode(q.value), s);
    EncodingUnique(p.key, Encode(p.value) + r, q.key, Encode(q.value) + s);
    EncodingUnique(p.value, r, q.value, s);
  }

  // ---- The order of map keys ---------------------------------------------------------------

  /** The comparison the sort uses: shorter first, then bytewise. */
  predicate KeyBefore(a: Utf8, b: Utf8) {
    |a| < |b| || (|a| == |b| && Before(a, b))
  }

  lemma {:induction false} BeOrder(n: nat, m: nat, width: nat, x: seq<byte>, y: seq<byte>)
    requires n < m < Pow256(width)
    ensures Before(Be(n, width) + x, Be(m, width) + y)
  {
    if width > 0 {
      var a, b := Be(n / 256, width - 1), Be(m / 256, width - 1);
      var x', y' := [n % 256] + x, [m % 256] + y;
      assert Be(n, width) + x == a + x' && Be(m, width) + y == b + y';
      if n / 256 < m / 256 {
        BeOrder(n / 256, m / 256, width - 1, x', y');
      } else {
        BeforeSamePrefix(a, x', y');
      }
    }
  }

  lemma HeadOrder(major: nat, n: nat, m: nat, x: seq<byte>, y: seq<byte>)
    requires major < 8 && n < m < TWO64
    ensures Before(Head(major, n) + x, Head(major, m) + y)
  {
    var a, b := Head(major, n) + x, Head(major, m) + y;
    if Info(n) == Info(m) {
      InfoDecidesWidth(n, m);
      WidthHolds(m);
      assert a[1..] == Be(n, Width(n)) + x && b[1..] == Be(m, Width(m)) + y;
      BeOrder(n, m, Width(m), x, y);
    } else {
      assert a[0] == 32 * major + Info(n) && b[0] == 32 * major + Info(m);
    }
  }

  lemma KeyBeforeImpliesEncoded(a: Utf8, b: Utf8)
    requires |a| < TWO64 && |b| < TWO64 && KeyBefore(a, b)
    ensures Before(Encode(CText(a)), Encode(CText(b)))
  {
    if |a| < |b| {
      HeadOrder(3, |a|, |b|, a, b);
    } else {
      BeforeSamePrefix(Head(3, |a|), a, b);
    }
  }

  /** For text keys of any length, shorter-first-then-bytewise is the bytewise order of the encoded
      keys that section 4.2.1 of RFC 8949 asks for. */
  lemma KeyOrderIsEncodedOrder(a: Utf8, b: Utf8)
    requires |a| < TWO64 && |b| < TWO64
    ensures KeyBefore(a, b) <==> Before(Encode(CText(a)), Encode(CText(b)))
  {
    BeforeTotal(a, b);
    BeforeTotal(Encode(CText(a)), Encode(CText(b)));
    if KeyBefore(a, b) {
      KeyBeforeImpliesEncoded(a, b);
    } else if a != b {
      KeyBeforeImpliesEncoded(b, a);
    }
  }

  /** Nested maps keep plain bytewise key order: that is the deterministic order if and only if no
      key is longer than a later one. */
  lemma NestedOrderIsDeterministicIff(keys: seq<Utf8>)
    requires forall i, j :: 0 <= i < j < |keys| ==> Before(keys[i], keys[j])
    requires forall i :: 0 <= i < |keys| ==> |keys[i]| < TWO64
    ensures (forall i, j :: 0 <= i < j < |keys| ==> Before(Encode(CText(keys[i])), Encode(CText(keys[j]))))
            <==> (forall i, j :: 0 <= i < j < |keys| ==> |keys[i]| <= |keys[j]|)
  {
    forall i, j | 0 <= i < j < |keys|
      ensures Before(Encode(CText(keys[i])), Encode(CText(keys[j]))) <==> |keys[i]| <= |keys[j]|
    {
      KeyOrderIsEncodedOrder(keys[i], keys[j]);
    }
  }

  /** Of the names aa and b, sorted, the longer one comes first. */
  lemma NestedOrderExample()
    ensures Before([97, 97], [98]) && !Before(Encode(CText([97, 97])), Encode(CText([98])))
  {
    KeyOrderIsEncodedOrder([97, 97], [98]);
  }
}
