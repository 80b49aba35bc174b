/** Tamper evidence of the audit log: what two logs with the same last hash share, and what a hash does not
    cover. */
module AuditTampering {
  import opened Bytes
  import opened Text
  import opened AuditLogs

  // ---- Tamper evidence ---------------------------------------------------------------------

  /** What the hash of entry number k covers. */
  function Hashed(sha: Hasher, entries: seq<Entry>, k: nat): string
    requires k < |entries|
  {
    HashBefore(entries, "", k) + Fields(sha, entries[k])
  }

  function HashedStrings(sha: Hasher, entries: seq<Entry>): seq<string> {
    seq(|entries|, k requires 0 <= k < |entries| => Hashed(sha, entries, k))
  }

  /** The last of the first n strings in which two lists differ. */
  function LastDifference(xs: seq<string>, ys: seq<string>, n: nat): (string, string)
    requires n <= |xs| && n <= |ys|
  {
    if n == 0 then ("", "")
    else if xs[n - 1] != ys[n - 1] then (xs[n - 1], ys[n - 1])
    else LastDifference(xs, ys, n - 1)
  }

  /** Equal strings number k mean equal digests of the strings before them. */
  predicate CarriesBack(sha: Hasher, xs: seq<string>, ys: seq<string>) {
    |xs| == |ys| && forall k :: 0 < k < |xs| ==> CarriesBackAt(sha, xs, ys, k)
  }

  predicate CarriesBackAt(sha: Hasher, xs: seq<string>, ys: seq<string>, k: nat)
    requires 0 < k < |xs| == |ys|
  {
    xs[k] == ys[k] ==> sha.sum(xs[k - 1]) == sha.sum(ys[k - 1])
  }

  lemma {:induction false} EqualOrCollide(sha: Hasher, xs: seq<string>, ys: seq<string>, n: nat)
    requires CarriesBack(sha, xs, ys) && n <= |xs| && (n > 0 ==> sha.sum(xs[n - 1]) == sha.sum(ys[n - 1]))
    ensures xs[..n] == ys[..n] || Collide(sha, LastDifference(xs, ys, n))
  {
    if n > 0 && xs[n - 1] == ys[n - 1] {
      assert n > 1 ==> CarriesBackAt(sha, xs, ys, n - 1);
      EqualOrCollide(sha, xs, ys, n - 1);
      assert xs[..n] == xs[..n - 1] + [xs[n - 1]] && ys[..n] == ys[..n - 1] + [ys[n - 1]];
    }
  }

  predicate AgreeAt(sha: Hasher, a: seq<Entry>, b: seq<Entry>, k: nat)
    requires k < |a| && k < |b|
  {
    a[k].hash == b[k].hash && Fields(sha, a[k]) == Fields(sha, b[k])
  }

  /** Two chained lists of entries of equal length with the same last hash agree on every hash and on
      every entry's hashed fields, or a search over them finds two different strings with one digest. */
  lemma SameHeadSameEntries(sha: Hasher, a: seq<Entry>, b: seq<Entry>)
    requires Digest(sha) && Chained(sha, a, "") && Chained(sha, b, "") && |a| == |b|
    requires HeadOf(a, "") == HeadOf(b, "")
    ensures
      || (forall k :: 0 <= k < |a| ==> AgreeAt(sha, a, b, k))
      || Collide(sha, LastDifference(HashedStrings(sha, a), HashedStrings(sha, b), |a|))
  {
    HashedCarriesBack(sha, a, b);
    if a != [] {
      HashIsOfHashed(sha, a, |a| - 1);
      HashIsOfHashed(sha, b, |a| - 1);
    }
    EqualOrCollide(sha, HashedStrings(sha, a), HashedStrings(sha, b), |a|);
    if HashedStrings(sha, a)[..|a|] == HashedStrings(sha, b)[..|a|] {
      EqualHashedAgree(sha, a, b);
    }
  }

  /** Two texts that verification accepts, whoever wrote them and in whatever JSON form, with as many
      lines and the same last hash: their entries agree line by line on hash and hashed fields, or a
      search over them finds two different strings with one digest. */
  lemma SameHeadSameLog(sha: Hasher, c: Codec, a: string, b: string)
    requires Digest(sha)
    requires Check(sha, c, ScanLines(a), "") == Intact && Check(sha, c, ScanLines(b), "") == Intact
    requires |ScanLines(a)| == |ScanLines(b)| && LastHash(c, ScanLines(a)) == LastHash(c, ScanLines(b))
    ensures AllDecode(c, ScanLines(a)) && AllDecode(c, ScanLines(b))
    ensures
      var x, y := Entries(c, ScanLines(a)), Entries(c, ScanLines(b));
      || (forall k :: 0 <= k < |x| ==> AgreeAt(sha, x, y, k))
      || Collide(sha, LastDifference(HashedStrings(sha, x), HashedStrings(sha, y), |x|))
  {
    VerifyMeansChained(sha, c, a);
    VerifyMeansChained(sha, c, b);
    SameHeadSameEntries(sha, Entries(c, ScanLines(a)), Entries(c, ScanLines(b)));
  }

  lemma HashedCarriesBack(sha: Hasher, a: seq<Entry>, b: seq<Entry>)
    requires Digest(sha) && Chained(sha, a, "") && Chained(sha, b, "") && |a| == |b|
    ensures CarriesBack(sha, HashedStrings(sha, a), HashedStrings(sha, b))
  {
    forall k | 0 < k < |a|
      ensures CarriesBackAt(sha, HashedStrings(sha, a), HashedStrings(sha, b), k)
    {
      OneBack(sha, a, b, k);
    }
  }

  lemma OneBack(sha: Hasher, a: seq<Entry>, b: seq<Entry>, k: nat)
    requires Digest(sha) && Chained(sha, a, "") && Chained(sha, b, "") && 0 < k < |a| == |b|
    ensures CarriesBackAt(sha, HashedStrings(sha, a), HashedStrings(sha, b), k)
  {
    HashIsOfHashed(sha, a, k - 1);
    HashIsOfHashed(sha, b, k - 1);
    if HashedStrings(sha, a)[k] == HashedStrings(sha, b)[k] {
      SameHashedAgree(sha, a, b, k);
    }
  }

  lemma EqualHashedAgree(sha: Hasher, a: seq<Entry>, b: seq<Entry>)
    requires Digest(sha) && Chained(sha, a, "") && Chained(sha, b, "") && |a| == |b|
    requires HashedStrings(sha, a)[..|a|] == HashedStrings(sha, b)[..|a|]
    ensures forall k :: 0 <= k < |a| ==> AgreeAt(sha, a, b, k)
  {
    forall k | 0 <= k < |a| ensures AgreeAt(sha, a, b, k) {
      assert HashedStrings(sha, a)[..|a|][k] == HashedStrings(sha, b)[..|a|][k];
      SameHashedAgree(sha, a, b, k);
    }
  }

  lemma HashIsOfHashed(sha: Hasher, entries: seq<Entry>, k: nat)
    requires Chained(sha, entries, "") && k < |entries|
    ensures HashBefore(entries, "", k + 1) == sha.sum(HashedStrings(sha, entries)[k])
  {
    assert LinkedAt(sha, entries, "", k);
  }

  lemma SameHashedAgree(sha: Hasher, a: seq<Entry>, b: seq<Entry>, k: nat)
    requires Digest(sha) && Chained(sha, a, "") && Chained(sha, b, "") && k < |a| && k < |b|
    requires HashedStrings(sha, a)[k] == HashedStrings(sha, b)[k]
    ensures AgreeAt(sha, a, b, k) && HashBefore(a, "", k) == HashBefore(b, "", k)
  {
    assert LinkedAt(sha, a, "", k) && LinkedAt(sha, b, "", k);
    HashBeforeSize(sha, a, k);
    HashBeforeSize(sha, b, k);
    SplitEqual(HashBefore(a, "", k), Fields(sha, a[k]), HashBefore(b, "", k), Fields(sha, b[k]));
  }

  lemma HashBeforeSize(sha: Hasher, entries: seq<Entry>, k: nat)
    requires Digest(sha) && Chained(sha, entries, "") && k <= |entries|
    ensures |HashBefore(entries, "", k)| == if k == 0 then 0 else 64
  {
    assert k > 0 ==> LinkedAt(sha, entries, "", k - 1);
  }

  /** An entry that keeps its hash can be replaced unnoticed exactly by one with the same concatenation of
      hashed fields, or one with which it makes two different strings of one digest. */
  lemma ReplacementUnnoticed(sha: Hasher, entries: seq<Entry>, k: nat, e: Entry)
    requires Chained(sha, entries, "") && k < |entries| && e.hash == entries[k].hash
    ensures Chained(sha, entries[k := e], "")
            <==> || Fields(sha, e) == Fields(sha, entries[k])
                 || Collide(sha, (HashBefore(entries, "", k) + Fields(sha, e), Hashed(sha, entries, k)))
  {
    var other := entries[k := e];
    assert LinkedAt(sha, entries, "", k);
    forall n | 0 <= n < |entries| && n != k ensures LinkedAt(sha, other, "", n) {
      assert LinkedAt(sha, entries, "", n);
      assert HashBefore(other, "", n) == HashBefore(entries, "", n);
    }
    assert LinkedAt(sha, other, "", k) <==> e.hash == HashWithPrev(sha, HashBefore(entries, "", k), e);
    if HashBefore(entries, "", k) + Fields(sha, e) == Hashed(sha, entries, k) {
      SplitEqual(HashBefore(entries, "", k), Fields(sha, e), HashBefore(entries, "", k), Fields(sha, entries[k]));
    }
  }

  lemma SameAround(a: string, x: string, y: string, b: string)
    requires a + x + b == a + y + b
    ensures x == y
  {
    assert |x| == |y|;
    SplitEqual(a + x, b, a + y, b);
    SplitEqual(a, x, a, y);
  }

  /** The same fields in every grouping that has one of them in the middle. */
  lemma Regrouped(a: string, b: string, c: string, d: string, e: string, f: string)
    ensures
      var whole := a + b + c + d + e + f;
      && whole == "" + a + (b + c + d + e + f) && whole == a + b + (c + d + e + f) && whole == a + b + c + (d + e + f)
      && whole == a + b + c + d + (e + f) && whole == a + b + c + d + e + f + ""
  {
  }

  /** An entry edited in exactly one of the six fields that a hash covers is noticed, or else two different
      strings with one digest are at hand. Number and previous hash may have been edited along with it. */
  lemma EditNoticed(sha: Hasher, entries: seq<Entry>, k: nat, e: Entry) returns (x: string, y: string)
    requires Chained(sha, entries, "") && k < |entries| && e.hash == entries[k].hash
    requires
      var o := entries[k].(seqNo := e.seqNo, prevHash := e.prevHash);
      || (e == o.(jobID := e.jobID) && e.jobID != o.jobID)
      || (e == o.(command := e.command) && e.command != o.command)
      || (e == o.(step := e.step) && e.step != o.step)
      || (e == o.(exit := e.exit) && e.exit != o.exit)
      || (e == o.(durationMs := e.durationMs) && e.durationMs != o.durationMs)
      || (e == o.(timestamp := e.timestamp) && sha.instant(e.timestamp) != sha.instant(o.timestamp))
    ensures Chained(sha, entries[k := e], "") ==> x != y && sha.sum(x) == sha.sum(y)
  {
    var o, prev := entries[k], HashBefore(entries, "", k);
    ReplacementUnnoticed(sha, entries, k, e);
    x, y := prev + Fields(sha, e), prev + Fields(sha, o);
    if Fields(sha, e) == Fields(sha, o) {
      SameFields(sha, e, o);
    }
  }

  /** Entries with the same hashed text that agree on five fields agree on the sixth. */
  lemma SameFields(sha: Hasher, e: Entry, o: Entry)
    requires Fields(sha, e) == Fields(sha, o)
    ensures
      var s := e.(seqNo := o.seqNo, prevHash := o.prevHash, hash := o.hash);
      && (s == o.(jobID := s.jobID) ==> e.jobID == o.jobID)
      && (s == o.(command := s.command) ==> e.command == o.command)
      && (s == o.(step := s.step) ==> e.step == o.step)
      && (s == o.(exit := s.exit) ==> e.exit == o.exit)
      && (s == o.(durationMs := s.durationMs) ==> e.durationMs == o.durationMs)
      && (s == o.(timestamp := s.timestamp) ==> sha.instant(e.timestamp) == sha.instant(o.timestamp))
  {
    var s := e.(seqNo := o.seqNo, prevHash := o.prevHash, hash := o.hash);
    var (d, t, i) := (Decimal(e.exit), Decimal(e.durationMs), sha.instant(e.timestamp));
    var (d', t', i') := (Decimal(o.exit), Decimal(o.durationMs), sha.instant(o.timestamp));
    Regrouped(e.jobID, e.command, e.step, d, t, i);
    Regrouped(o.jobID, o.command, o.step, d', t', i');
    if s == o.(jobID := s.jobID) {
      SameAround("", e.jobID, o.jobID, e.command + e.step + d + t + i);
    } else if s == o.(command := s.command) {
      SameAround(e.jobID, e.command, o.command, e.step + d + t + i);
    } else if s == o.(step := s.step) {
      SameAround(e.jobID + e.command, e.step, o.step, d + t + i);
    } else if s == o.(exit := s.exit) {
      SameAround(e.jobID + e.command + e.step, d, d', t + i);
      DecimalInjective(e.exit, o.exit);
    } else if s == o.(durationMs := s.durationMs) {
      SameAround(e.jobID + e.command + e.step + d, t, t', i);
      DecimalInjective(e.durationMs, o.durationMs);
    } else if s == o.(timestamp := s.timestamp) {
      SameAround(e.jobID + e.command + e.step + d + t, i, i', "");
    }
  }

  /** Number and previous hash of any entry of any verified log can be changed at will. */
  lemma NumbersUncovered(sha: Hasher, entries: seq<Entry>, k: nat, seqNo: Word, prevHash: string)
    requires Chained(sha, entries, "") && k < |entries|
    ensures Chained(sha, entries[k := entries[k].(seqNo := seqNo, prevHash := prevHash)], "")
  {
    ReplacementUnnoticed(sha, entries, k, entries[k].(seqNo := seqNo, prevHash := prevHash));
  }

  /** Characters can move from one field to the next: of these two entries one can stand for the other. */
  lemma BoundariesUncovered(sha: Hasher, entries: seq<Entry>, k: nat, e: Entry)
    requires Chained(sha, entries, "") && k < |entries|
    requires entries[k] == e.(jobID := "ab", command := "c") && e.seqNo > 0
    ensures
      var moved := entries[k].(jobID := "a", command := "bc", seqNo := 0, prevHash := "");
      moved != entries[k] && Chained(sha, entries[k := moved], "")
  {
    var moved := entries[k].(jobID := "a", command := "bc", seqNo := 0, prevHash := "");
    assert "ab" + "c" == "a" + "bc";
    ReplacementUnnoticed(sha, entries, k, moved);
  }
}
