/** A codec that has what the audit log needs of JSON, and a log that a crash spoils. */
module AuditExamples {
  import opened Bytes
  import opened Text
  import opened AuditLogs
  import opened AuditRuns

  // ---- A codec with braces around its fields -----------------------------------------------

  /** A character as two harmless ones. */
  function Code(ch: char): string {
    [(0x100 + ch as int / 1088) as char, (0x100 + ch as int % 1088) as char]
  }

  function Coded(s: string): string {
    if s == "" then "" else Code(s[0]) + Coded(s[1..])
  }

  function Unary(n: int): string {
    if n < 0 then "-" + seq(-n, _ => '1') else "+" + seq(n, _ => '1')
  }

  function Parts(e: Entry): seq<string> {
    [Unary(e.seqNo), Unary(e.timestamp), Coded(e.jobID), Coded(e.command), Coded(e.step),
     Unary(e.exit), Unary(e.durationMs), Coded(e.prevHash), Coded(e.hash)]
  }

  function Joined(parts: seq<string>): string {
    if parts == [] then "" else parts[0] + [';'] + Joined(parts[1..])
  }

  function Braced(e: Entry): string {
    "{" + Joined(Parts(e)) + "}"
  }

  ghost function Unbraced(s: string): Option<Entry> {
    if exists e :: Braced(e) == s then
      var e :| Braced(e) == s;
      Some(e)
    else None
  }

  ghost function Toy(): Codec {
    Codec(e => Braced(e), s => Unbraced(s))
  }

  /** None of the characters that structure a log. */
  predicate Harmless(s: string) {
    forall k :: 0 <= k < |s| ==> s[k] != '{' && s[k] != '}' && s[k] != ';' && s[k] != '\n' && s[k] != '\r'
  }

  lemma {:induction false} CodedIsHarmless(s: string)
    ensures Harmless(Coded(s))
  {
    if s != "" {
      CodedIsHarmless(s[1..]);
    }
  }

  lemma CodeInjective(a: char, b: char)
    requires Code(a) == Code(b)
    ensures a == b
  {
    assert Code(a)[0] == Code(b)[0] && Code(a)[1] == Code(b)[1];
    assert a as int / 1088 == b as int / 1088 && a as int % 1088 == b as int % 1088;
  }

  lemma {:induction false} CodedInjective(s: string, t: string)
    requires Coded(s) == Coded(t)
    ensures s == t
  {
    if s != "" && t != "" {
      SplitEqual(Code(s[0]), Coded(s[1..]), Code(t[0]), Coded(t[1..]));
      CodeInjective(s[0], t[0]);
      CodedInjective(s[1..], t[1..]);
    }
  }

  lemma UnaryInjective(m: int, n: int)
    requires Unary(m) == Unary(n)
    ensures m == n
  {
    assert Unary(m)[0] == Unary(n)[0] && |Unary(m)| == |Unary(n)|;
  }

  lemma {:induction false} JoinedInjective(p: seq<string>, q: seq<string>)
    requires |p| == |q| && Joined(p) == Joined(q)
    requires forall k :: 0 <= k < |p| ==> Harmless(p[k]) && Harmless(q[k])
    ensures p == q
  {
    if p != [] {
      FindAfter(p[0], ';', Joined(p[1..]));
      FindAfter(q[0], ';', Joined(q[1..]));
      SplitEqual(p[0] + [';'], Joined(p[1..]), q[0] + [';'], Joined(q[1..]));
      SplitEqual(p[0], [';'], q[0], [';']);
      JoinedInjective(p[1..], q[1..]);
    }
  }

  lemma PartsAreHarmless(e: Entry)
    ensures forall k :: 0 <= k < |Parts(e)| ==> Harmless(Parts(e)[k])
  {
    CodedIsHarmless(e.jobID);
    CodedIsHarmless(e.command);
    CodedIsHarmless(e.step);
    CodedIsHarmless(e.prevHash);
    CodedIsHarmless(e.hash);
    UnaryIsHarmless(e.seqNo);
    UnaryIsHarmless(e.timestamp);
    UnaryIsHarmless(e.exit);
    UnaryIsHarmless(e.durationMs);
  }

  lemma UnaryIsHarmless(n: int)
    ensures Harmless(Unary(n))
  {
  }

  lemma PartsInjective(e: Entry, f: Entry)
    requires Parts(e) == Parts(f)
    ensures e == f
  {
    var p, q := Parts(e), Parts(f);
    assert p[0] == q[0] && p[1] == q[1] && p[2] == q[2] && p[3] == q[3] && p[4] == q[4];
    assert p[5] == q[5] && p[6] == q[6] && p[7] == q[7] && p[8] == q[8];
    UnaryInjective(e.seqNo, f.seqNo);
    UnaryInjective(e.exit, f.exit);
    UnaryInjective(e.durationMs, f.durationMs);
    UnaryInjective(e.timestamp, f.timestamp);
    CodedInjective(e.jobID, f.jobID);
    CodedInjective(e.command, f.command);
    CodedInjective(e.step, f.step);
    CodedInjective(e.prevHash, f.prevHash);
    CodedInjective(e.hash, f.hash);
  }

  lemma BracedInjective(e: Entry, f: Entry)
    requires Braced(e) == Braced(f)
    ensures e == f
  {
    var x, y := Joined(Parts(e)), Joined(Parts(f));
    assert x == Braced(e)[1..|Braced(e)| - 1] && y == Braced(f)[1..|Braced(f)| - 1];
    PartsAreHarmless(e);
    PartsAreHarmless(f);
    JoinedInjective(Parts(e), Parts(f));
    PartsInjective(e, f);
  }

  /** Neither braces nor ends of lines. */
  predicate Unstructured(s: string) {
    forall k :: 0 <= k < |s| ==> s[k] != '{' && s[k] != '}' && s[k] != '\n' && s[k] != '\r'
  }

  lemma {:induction false} JoinedIsUnstructured(parts: seq<string>)
    requires forall k :: 0 <= k < |parts| ==> Harmless(parts[k])
    ensures Unstructured(Joined(parts))
  {
    if parts != [] {
      JoinedIsUnstructured(parts[1..]);
    }
  }

  /** An opening brace in front and nowhere else, a closing one at the end and nowhere else. */
  lemma BracedShape(e: Entry)
    ensures
      var s := Braced(e);
      && |s| >= 2 && s[0] == '{' && s[|s| - 1] == '}' && Plain(s)
      && (forall k :: 0 < k < |s| ==> s[k] != '{') && (forall k :: 0 <= k < |s| - 1 ==> s[k] != '}')
  {
    var s, inner := Braced(e), Joined(Parts(e));
    PartsAreHarmless(e);
    JoinedIsUnstructured(Parts(e));
    assert forall k :: 0 < k < |s| - 1 ==> s[k] == inner[k - 1];
  }

  lemma ToyDecodes(e: Entry)
    ensures Toy().decode(Toy().encode(e)) == Some(e)
  {
    var r := Unbraced(Braced(e));
    assert r.Some? && Braced(r.value) == Braced(e);
    BracedInjective(r.value, e);
  }

  lemma NotBraced(s: string)
    requires s == "" || s[|s| - 1] != '}' || exists k :: 0 < k < |s| && s[k] == '{'
    ensures Toy().decode(s) == None
  {
    forall e ensures Braced(e) != s {
      BracedShape(e);
    }
  }

  lemma PrefixFails(e: Entry, k: nat)
    requires k < |Toy().encode(e)|
    ensures Toy().decode(Toy().encode(e)[..k]) == None
  {
    BracedShape(e);
    NotBraced(Braced(e)[..k]);
  }

  lemma GluedFails(ps: seq<Piece>)
    requires |ps| > 1 && Pieces(Toy(), ps)
    ensures Toy().decode(Glued(Toy(), ps)) == None
  {
    var init, last := ps[..|ps| - 1], ps[|ps| - 1];
    var before, s := Glued(Toy(), init), Glued(Toy(), ps);
    GluedNotEmpty(init);
    BracedShape(last.e);
    assert 0 < last.n <= |Toy().encode(last.e)|;
    assert s[|before|] == Braced(last.e)[..last.n][0] == '{';
    NotBraced(s);
  }

  lemma GluedNotEmpty(ps: seq<Piece>)
    requires ps != [] && Pieces(Toy(), ps)
    ensures Glued(Toy(), ps) != ""
  {
    var last := ps[|ps| - 1];
    assert 0 < last.n <= |Toy().encode(last.e)|;
  }

  /** What the log needs of its codec can be had. */
  lemma ToyIsLines()
    ensures JsonLines(Toy())
  {
    forall e ensures Toy().decode(Toy().encode(e)) == Some(e) {
      ToyDecodes(e);
    }
    forall e ensures Toy().encode(e) != "" && '\n' !in Toy().encode(e) && '\r' !in Toy().encode(e) {
      BracedShape(e);
    }
    forall e, k | 0 <= k < |Toy().encode(e)| ensures Toy().decode(Toy().encode(e)[..k]) == None {
      PrefixFails(e, k);
    }
    forall ps: seq<Piece> | |ps| > 1 && Pieces(Toy(), ps) ensures Toy().decode(Glued(Toy(), ps)) == None {
      GluedFails(ps);
    }
  }

  // ---- A crash that spoils a log -----------------------------------------------------------

  /** An empty log, a crash after one character of the first entry, a reopening, and an append that
      succeeds: the log no longer verifies. */
  lemma CrashSpoilsLog(sha: Hasher, e: Entry, now: Instant)
    ensures
      var next := Sealed(sha, "", 0, e, now);
      && 1 <= |Toy().encode(next)| && var file := Crashed(Toy(), [], next, 1);
      var (head, seqNo) := Replayed(Toy(), ScanLines(file), "", 0);
      !Verifies(sha, Toy(), file + (Toy().encode(Sealed(sha, head, seqNo, e, now)) + "\n"))
  {
    ToyIsLines();
    var next := Sealed(sha, "", 0, e, now);
    BracedShape(next);
    AppendAfterCrash(sha, Toy(), [], next, 1, e, now);
  }

  /** The text itself as its digest, so that no two texts collide. */
  function Plainly(): Hasher {
    Hasher(s => s, _ => "Z")
  }

  /** Two whole appends, the first one not synced: the second one covers the head from before the first, and
      the log no longer verifies. */
  lemma UnsyncedSpoilsLog(e: Entry, f: Entry, now: Instant)
    ensures
      var ops := [Append(e, now, 0, false), Append(f, now, 0, true)];
      !Verifies(Plainly(), Toy(), After(Plainly(), Toy(), ops).file)
  {
    var sha, ops := Plainly(), [Append(e, now, 0, false), Append(f, now, 0, true)];
    var x, y := Sealed(sha, "", 0, e, now), Sealed(sha, "", 0, f, now);
    TwoAppends(sha, Toy(), ops, x, y);
    ToyIsLines();
    RenderedVerifies(sha, Toy(), [x, y]);
    assert x.hash == Fields(sha, x) && y.hash == Fields(sha, y);
    assert |x.hash| > 0;
    assert !LinkedAt(sha, [x, y], "", 1);
  }

  lemma TwoAppends(sha: Hasher, c: Codec, ops: seq<Op>, x: Entry, y: Entry)
    requires |ops| == 2 && ops[0].Append? && ops[1].Append? && ops[0].missing == ops[1].missing == 0 && !ops[0].synced
    requires x == Sealed(sha, "", 0, ops[0].e, ops[0].now) && y == Sealed(sha, "", 0, ops[1].e, ops[1].now)
    ensures After(sha, c, ops).file == Rendered(c, [x, y])
  {
    assert ops[..1][..0] == [] && ops[..1][0] == ops[0];
    var a, b := c.encode(x) + "\n", c.encode(y) + "\n";
    assert a[..|a|] == a && b[..|b|] == b;
    assert After(sha, c, ops[..1]) == State("" + a, "", 0);
    assert After(sha, c, ops).file == "" + a + b;
    RenderedAppend(c, [], x);
    RenderedAppend(c, [x], y);
    assert [] + [x] == [x] && [x] + [y] == [x, y];
  }
}
