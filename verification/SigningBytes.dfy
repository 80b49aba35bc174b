/** The bytes an envelope's signature covers, on the Rust side: every field but the signature, as one
    CBOR map whose keys are sorted. */
module SigningBytes {
  import opened Bytes
  import opened CanonicalCbor

  // ---- Parameters --------------------------------------------------------------------------

  /** JSON parameters without floats and integers beyond 64 bits; an object lists its members in the
      order its map yields them. */
  datatype Json =
    | JNull | JBool(b: bool) | JInt(i: int) | JText(s: Utf8) | JArray(items: seq<Json>) | JObject(members: seq<Member>)

  datatype Member = Member(name: Utf8, value: Json)

  function ToCbor(j: Json): Value {
    match j
    case JNull => CNull
    case JBool(b) => CBool(b)
    case JInt(i) => CInt(i)
    case JText(s) => CText(s)
    case JArray(items) => CArray(AllToCbor(items))
    case JObject(members) => CMap(MembersToCbor(members))
  }

  function AllToCbor(js: seq<Json>): seq<Value> {
    if js == [] then [] else [ToCbor(js[0])] + AllToCbor(js[1..])
  }

  function MembersToCbor(ms: seq<Member>): seq<Pair> {
    if ms == [] then [] else [MemberToCbor(ms[0])] + MembersToCbor(ms[1..])
  }

  function MemberToCbor(m: Member): Pair {
    Pair(CText(m.name), ToCbor(m.value))
  }

  /** What parameters become, kind by kind; items and members keep their places. */
  lemma ToCborMeans(j: Json)
    ensures
      match j
      case JNull => Encode(ToCbor(j)) == [0xF6]
      case JBool(b) => Encode(ToCbor(j)) == if b then [0xF5] else [0xF4]
      case JInt(i) => ToCbor(j) == CInt(i)
      case JText(s) => ToCbor(j) == CText(s)
      case JArray(items) =>
        && ToCbor(j).CArray? && |ToCbor(j).items| == |items|
        && forall k :: 0 <= k < |items| ==> ToCbor(j).items[k] == ToCbor(items[k])
      case JObject(members) =>
        && ToCbor(j).CMap? && |ToCbor(j).pairs| == |members|
        && forall k :: 0 <= k < |members| ==>
             ToCbor(j).pairs[k] == Pair(CText(members[k].name), ToCbor(members[k].value))
  {
    match j
    case JNull => EncodeMeans(CNull);
    case JBool(b) => EncodeMeans(CBool(b));
    case JInt(_) => {}
    case JText(_) => {}
    case JArray(items) => AllToCborAt(items);
    case JObject(members) => MembersToCborAt(members);
  }

  lemma {:induction false} AllToCborAt(js: seq<Json>)
    ensures |AllToCbor(js)| == |js| && forall k :: 0 <= k < |js| ==> AllToCbor(js)[k] == ToCbor(js[k])
  {
    if js != [] {
      AllToCborAt(js[1..]);
    }
  }

  lemma {:induction false} MembersToCborAt(ms: seq<Member>)
    ensures |MembersToCbor(ms)| == |ms|
    ensures forall k :: 0 <= k < |ms| ==> MembersToCbor(ms)[k] == Pair(CText(ms[k].name), ToCbor(ms[k].value))
  {
    if ms != [] {
      MembersToCborAt(ms[1..]);
    }
  }

  /** Different parameters become different CBOR values. */
  lemma {:induction false} ToCborInjective(j: Json, k: Json)
    requires ToCbor(j) == ToCbor(k)
    ensures j == k
    decreases j
  {
    match j
    case JNull => {}
    case JBool(_) => {}
    case JInt(_) => {}
    case JText(_) => {}
    case JArray(items) => AllToCborInjective(items, k.items);
    case JObject(members) => MembersToCborInjective(members, k.members);
  }

  lemma {:induction false} AllToCborInjective(js: seq<Json>, ks: seq<Json>)
    requires AllToCbor(js) == AllToCbor(ks)
    ensures js == ks
    decreases js
  {
    if js != [] && ks != [] {
      var a, b := AllToCbor(js), AllToCbor(ks);
      assert a[0] == ToCbor(js[0]) && b[0] == ToCbor(ks[0]);
      assert a[1..] == AllToCbor(js[1..]) && b[1..] == AllToCbor(ks[1..]);
      ToCborInjective(js[0], ks[0]);
      AllToCborInjective(js[1..], ks[1..]);
      assert js == [js[0]] + js[1..] && ks == [ks[0]] + ks[1..];
    }
  }

  lemma {:induction false} MembersToCborInjective(ms: seq<Member>, ns: seq<Member>)
    requires MembersToCbor(ms) == MembersToCbor(ns)
    ensures ms == ns
    decreases ms
  {
    if ms != [] && ns != [] {
      var a, b := MembersToCbor(ms), MembersToCbor(ns);
      assert a[0] == MemberToCbor(ms[0]) && b[0] == MemberToCbor(ns[0]);
      assert a[1..] == MembersToCbor(ms[1..]) && b[1..] == MembersToCbor(ns[1..]);
      MemberInjective(ms[0], ns[0]);
      MembersToCborInjective(ms[1..], ns[1..]);
      assert ms == [ms[0]] + ms[1..] && ns == [ns[0]] + ns[1..];
    }
  }

  lemma {:induction false} MemberInjective(m: Member, n: Member)
    requires MemberToCbor(m) == MemberToCbor(n)
    ensures m == n
    decreases m
  {
    ToCborInjective(m.value, n.value);
  }

  // ---- The envelope ------------------------------------------------------------------------

  datatype Envelope = Envelope(
    version: Utf8, jobId: Utf8, issuedAt: int, expiresAt: int, issuer: Utf8, audience: Utf8, host: Utf8,
    command: Utf8, params: seq<Member>, signature: Utf8)

  const HOST: Utf8 := [104, 111, 115, 116]
  const JOB_ID: Utf8 := [106, 111, 98, 73, 100]
  const ISSUER: Utf8 := [105, 115, 115, 117, 101, 114]
  const PARAMS: Utf8 := [112, 97, 114, 97, 109, 115]
  const COMMAND: Utf8 := [99, 111, 109, 109, 97, 110, 100]
  const VERSION: Utf8 := [118, 101, 114, 115, 105, 111, 110]
  const AUDIENCE: Utf8 := [97, 117, 100, 105, 101, 110, 99, 101]
  const ISSUED_AT: Utf8 := [105, 115, 115, 117, 101, 100, 65, 116]
  const EXPIRES_AT: Utf8 := [101, 120, 112, 105, 114, 101, 115, 65, 116]

  datatype Item = Item(key: Utf8, value: Value)

  /** The field map, before sorting. `render` is the RFC 3339 rendering of an instant. */
  function FieldMap(e: Envelope, render: int -> Utf8): map<Utf8, Value> {
    map[AUDIENCE := CText(e.audience), COMMAND := CText(e.command), EXPIRES_AT := CText(render(e.expiresAt)),
        HOST := CText(e.host), ISSUED_AT := CText(render(e.issuedAt)), ISSUER := CText(e.issuer),
        JOB_ID := CText(e.jobId), PARAMS := CMap(MembersToCbor(e.params)), VERSION := CText(e.version)]
  }

  /** The fields in the order in which they are signed. */
  function Fields(e: Envelope, render: int -> Utf8): seq<Item> {
    [Item(HOST, CText(e.host)), Item(JOB_ID, CText(e.jobId)), Item(ISSUER, CText(e.issuer)),
     Item(PARAMS, CMap(MembersToCbor(e.params))), Item(COMMAND, CText(e.command)), Item(VERSION, CText(e.version)),
     Item(AUDIENCE, CText(e.audience)), Item(ISSUED_AT, CText(render(e.issuedAt))),
     Item(EXPIRES_AT, CText(render(e.expiresAt)))]
  }

  function AsPairs(items: seq<Item>): (ps: seq<Pair>)
    ensures |ps| == |items| && forall k :: 0 <= k < |ps| ==> ps[k] == Pair(CText(items[k].key), items[k].value)
  {
    seq(|items|, k requires 0 <= k < |items| => Pair(CText(items[k].key), items[k].value))
  }

  function Signed(e: Envelope, render: int -> Utf8): Value {
    CMap(AsPairs(Fields(e, render)))
  }

  predicate Sorted(items: seq<Item>) {
    forall i, j :: 0 <= i < j < |items| ==> KeyBefore(items[i].key, items[j].key)
  }

  /** The items are exactly the map's. */
  ghost predicate Holds(items: seq<Item>, m: map<Utf8, Value>) {
    forall x :: x in items <==> x.key in m && m[x.key] == x.value
  }

  method CanonicalBytes(e: Envelope, render: int -> Utf8) returns (bytes: seq<byte>)
    ensures bytes == Encode(Signed(e, render))
  {
    var m := FieldMap(e, render);
    var items := SortItems(m);
    FieldsSorted(e, render);
    FieldsHold(e, render);
    SortedUnique(items, Fields(e, render));
    bytes := Encode(CMap(AsPairs(items)));
  }

  /** Collects a map's entries into a vector kept sorted by key. */
  method SortItems(m: map<Utf8, Value>) returns (items: seq<Item>)
    ensures Sorted(items) && Holds(items, m)
  {
    items := [];
    var todo := m.Keys;
    while todo != {}
      invariant todo <= m.Keys && SortedBy(items, Rank)
      invariant forall x :: x in items <==> x.key in m.Keys - todo && m[x.key] == x.value
      decreases todo
    {
      var key :| key in todo;
      forall x | x in items ensures Rank(x) != Rank(Item(key, m[key])) {
        RankOrder(x, Item(key, m[key]));
      }
      items := InsertBy(items, Item(key, m[key]), Rank);
      todo := todo - {key};
    }
    RankedIsSorted(items);
  }

  /** Length first, then the bytes. */
  function Rank(item: Item): seq<int> {
    [|item.key|] + item.key
  }

  lemma RankOrder(a: Item, b: Item)
    ensures Before(Rank(a), Rank(b)) <==> KeyBefore(a.key, b.key)
    ensures Rank(a) == Rank(b) <==> a.key == b.key
  {
    assert Rank(a)[1..] == a.key && Rank(b)[1..] == b.key;
  }

  lemma RankedIsSorted(items: seq<Item>)
    requires SortedBy(items, Rank)
    ensures Sorted(items)
  {
    forall i, j | 0 <= i < j < |items| ensures KeyBefore(items[i].key, items[j].key) {
      RankOrder(items[i], items[j]);
    }
  }

  lemma KeyTotal(a: Utf8, b: Utf8)
    ensures KeyBefore(a, b) ==> a != b && !KeyBefore(b, a)
    ensures KeyBefore(a, b) || a == b || KeyBefore(b, a)
  {
    BeforeTotal(a, b);
  }

  lemma {:induction false} SortedUnique(a: seq<Item>, b: seq<Item>)
    requires Sorted(a) && Sorted(b) && forall x :: x in a <==> x in b
    ensures a == b
  {
    assert b != [] ==> b[0] in b;
    if a != [] {
      assert a[0] in b;
      SameFirst(a, b);
      SameRest(a, b);
      SortedUnique(a[1..], b[1..]);
      assert a == [a[0]] + a[1..] && b == [b[0]] + b[1..];
    }
  }

  lemma SameFirst(a: seq<Item>, b: seq<Item>)
    requires Sorted(a) && Sorted(b) && (forall x :: x in a <==> x in b) && a != [] && b != []
    ensures a[0] == b[0]
  {
    assert a[0] in b && b[0] in a;
    var i :| 0 <= i < |a| && a[i] == b[0];
    var j :| 0 <= j < |b| && b[j] == a[0];
    KeyTotal(a[0].key, b[0].key);
    KeyTotal(b[0].key, a[0].key);
  }

  lemma SameRest(a: seq<Item>, b: seq<Item>)
    requires Sorted(a) && Sorted(b) && (forall x :: x in a <==> x in b) && a != [] && b != [] && a[0] == b[0]
    ensures forall x :: x in a[1..] <==> x in b[1..]
  {
    NotAgain(a);
    NotAgain(b);
    assert forall x :: x in a <==> x == a[0] || x in a[1..];
    assert forall x :: x in b <==> x == b[0] || x in b[1..];
  }

  lemma NotAgain(a: seq<Item>)
    requires Sorted(a) && a != []
    ensures a[0] !in a[1..]
  {
    KeyTotal(a[0].key, a[0].key);
  }

  lemma FieldsSorted(e: Envelope, render: int -> Utf8)
    ensures Sorted(Fields(e, render))
  {
    assert Before(ISSUER, PARAMS) && Before(COMMAND, VERSION) && Before(AUDIENCE, ISSUED_AT);
  }

  lemma FieldsHold(e: Envelope, render: int -> Utf8)
    ensures Holds(Fields(e, render), FieldMap(e, render))
  {
    var items, m := Fields(e, render), FieldMap(e, render);
    FieldsInMap(e, render);
    forall x: Item | x.key in m && m[x.key] == x.value ensures x in items {
      MapInFields(e, render, x.key);
    }
  }

  lemma FieldsInMap(e: Envelope, render: int -> Utf8)
    ensures
      var items, m := Fields(e, render), FieldMap(e, render);
      forall k :: 0 <= k < |items| ==> items[k].key in m && m[items[k].key] == items[k].value
  {
    FieldsSorted(e, render);
  }

  lemma MapInFields(e: Envelope, render: int -> Utf8, key: Utf8)
    requires key in FieldMap(e, render)
    ensures Item(key, FieldMap(e, render)[key]) in Fields(e, render)
  {
    var items, m := Fields(e, render), FieldMap(e, render);
    assert items[0] == Item(HOST, m[HOST]) && items[1] == Item(JOB_ID, m[JOB_ID]);
    assert items[2] == Item(ISSUER, m[ISSUER]) && items[3] == Item(PARAMS, m[PARAMS]);
    assert items[4] == Item(COMMAND, m[COMMAND]) && items[5] == Item(VERSION, m[VERSION]);
    assert items[6] == Item(AUDIENCE, m[AUDIENCE]) && items[7] == Item(ISSUED_AT, m[ISSUED_AT]);
    assert items[8] == Item(EXPIRES_AT, m[EXPIRES_AT]);
  }

  // ---- What a reader of the signed map finds -------------------------------------------------

  /** The bytes of ASCII text. */
  function Ascii(s: string): Utf8
    requires forall k :: 0 <= k < |s| ==> s[k] as int < 128
  {
    seq(|s|, k requires 0 <= k < |s| => s[k] as int)
  }

  lemma KeyNames()
    ensures Ascii("host") == HOST && Ascii("jobId") == JOB_ID && Ascii("issuer") == ISSUER
    ensures Ascii("params") == PARAMS && Ascii("command") == COMMAND && Ascii("version") == VERSION
    ensures Ascii("audience") == AUDIENCE && Ascii("issuedAt") == ISSUED_AT && Ascii("expiresAt") == EXPIRES_AT
  {
  }

  /** The signed map has exactly nine entries: each field but the signature, under its own name. */
  lemma SignedMapReads(e: Envelope, render: int -> Utf8, p: Pair)
    ensures Signed(e, render).CMap? && |Signed(e, render).pairs| == 9
    ensures
      p in Signed(e, render).pairs
      <==> || p == Pair(CText(Ascii("version")), CText(e.version))
           || p == Pair(CText(Ascii("jobId")), CText(e.jobId))
           || p == Pair(CText(Ascii("issuedAt")), CText(render(e.issuedAt)))
           || p == Pair(CText(Ascii("expiresAt")), CText(render(e.expiresAt)))
           || p == Pair(CText(Ascii("issuer")), CText(e.issuer))
           || p == Pair(CText(Ascii("audience")), CText(e.audience))
           || p == Pair(CText(Ascii("host")), CText(e.host))
           || p == Pair(CText(Ascii("command")), CText(e.command))
           || p == Pair(CText(Ascii("params")), ToCbor(JObject(e.params)))
  {
    KeyNames();
    var pairs, items := Signed(e, render).pairs, Fields(e, render);
    assert pairs[0] == Pair(CText(HOST), CText(e.host)) && pairs[1] == Pair(CText(JOB_ID), CText(e.jobId));
    assert pairs[2] == Pair(CText(ISSUER), CText(e.issuer));
    assert pairs[3] == Pair(CText(PARAMS), ToCbor(JObject(e.params)));
    assert pairs[4] == Pair(CText(COMMAND), CText(e.command)) && pairs[5] == Pair(CText(VERSION), CText(e.version));
    assert pairs[6] == Pair(CText(AUDIENCE), CText(e.audience));
    assert pairs[7] == Pair(CText(ISSUED_AT), CText(render(e.issuedAt)));
    assert pairs[8] == Pair(CText(EXPIRES_AT), CText(render(e.expiresAt)));
  }

  // ---- What the signature covers -----------------------------------------------------------

  predicate FitsSigned(e: Envelope, render: int -> Utf8) {
    Fits(Signed(e, render))
  }

  /** The signed map lists its keys in the bytewise order of their encodings. */
  lemma SignedKeysDeterministic(e: Envelope, render: int -> Utf8, i: nat, j: nat)
    requires i < j < |Signed(e, render).pairs|
    ensures Before(Encode(Signed(e, render).pairs[i].key), Encode(Signed(e, render).pairs[j].key))
  {
    var items := Fields(e, render);
    FieldsSorted(e, render);
    KeyBeforeImpliesEncoded(items[i].key, items[j].key);
  }

  /** Equal signing bytes mean equal signed fields, times as rendered. */
  lemma SigningBytesInjective(e: Envelope, f: Envelope, render: int -> Utf8)
    requires FitsSigned(e, render) && FitsSigned(f, render)
    requires Encode(Signed(e, render)) == Encode(Signed(f, render))
    ensures e.version == f.version && e.jobId == f.jobId && e.issuer == f.issuer && e.audience == f.audience
    ensures e.host == f.host && e.command == f.command && e.params == f.params
    ensures render(e.issuedAt) == render(f.issuedAt) && render(e.expiresAt) == render(f.expiresAt)
  {
    var v, w := Signed(e, render), Signed(f, render);
    assert Encode(v) + [] == Encode(w) + [];
    EncodingUnique(v, [], w, []);
    forall k | 0 <= k < 9 ensures Fields(e, render)[k].value == Fields(f, render)[k].value {
      assert v.pairs[k].value == w.pairs[k].value;
    }
    SameFields(e, f, render);
  }

  lemma SameFields(e: Envelope, f: Envelope, render: int -> Utf8)
    requires forall k :: 0 <= k < 9 ==> Fields(e, render)[k].value == Fields(f, render)[k].value
    ensures e.version == f.version && e.jobId == f.jobId && e.issuer == f.issuer && e.audience == f.audience
    ensures e.host == f.host && e.command == f.command && e.params == f.params
    ensures render(e.issuedAt) == render(f.issuedAt) && render(e.expiresAt) == render(f.expiresAt)
  {
    var a, b := Fields(e, render), Fields(f, render);
    assert a[0].value == b[0].value && a[1].value == b[1].value && a[2].value == b[2].value;
    assert a[3].value == b[3].value && a[4].value == b[4].value && a[5].value == b[5].value;
    assert a[6].value == b[6].value && a[7].value == b[7].value && a[8].value == b[8].value;
    MembersToCborInjective(e.params, f.params);
  }
}
