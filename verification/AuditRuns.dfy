/** Runs of the audit log: appends that may fail or be cut off at any character, reopens, and crashes. */
module AuditRuns {
  import opened Bytes
  import opened Text
  import opened AuditLogs

  // ---- Runs of appends and reopens ---------------------------------------------------------

  /** An append of which the last `missing` characters of its line do not reach the file, or a reopening. */
  datatype Op = Append(e: Entry, now: Instant, missing: nat, synced: bool) | Reopen

  predicate Succeeds(op: Op) {
    op.Append? ==> op.missing == 0 && op.synced
  }

  function Through(line: string, missing: nat): nat {
    if missing <= |line| then |line| - missing else 0
  }

  datatype State = State(file: string, head: string, seqNo: Word)

  function After(sha: Hasher, c: Codec, ops: seq<Op>): State {
    if ops == [] then State("", "", 0)
    else
      var s := After(sha, c, ops[..|ops| - 1]);
      match ops[|ops| - 1]
      case Append(e, now, missing, synced) =>
        var sealed := Sealed(sha, s.head, s.seqNo, e, now);
        var line := c.encode(sealed) + "\n";
        var file := s.file + line[..Through(line, missing)];
        if missing == 0 && synced then State(file, sealed.hash, sealed.seqNo) else State(file, s.head, s.seqNo)
      case Reopen =>
        var (head, seqNo) := Replayed(c, ScanLines(s.file), "", 0);
        State(s.file, head, seqNo)
  }

  function EntriesAfter(sha: Hasher, ops: seq<Op>): seq<Entry> {
    if ops == [] then []
    else
      var es := EntriesAfter(sha, ops[..|ops| - 1]);
      match ops[|ops| - 1]
      case Append(e, now, _, _) => es + [Sealed(sha, HeadOf(es, ""), Number(|es|), e, now)]
      case Reopen => es
  }

  /** Over every run of successful appends and reopens the file holds the appended entries, chained
      and numbered 1, 2, ..., verification accepts it, and the writer holds the last hash and number. */
  lemma {:induction false} RunsVerify(sha: Hasher, c: Codec, ops: seq<Op>)
    requires JsonLines(c) && forall k :: 0 <= k < |ops| ==> Succeeds(ops[k])
    ensures
      var es, s := EntriesAfter(sha, ops), After(sha, c, ops);
      && s == State(Rendered(c, es), HeadOf(es, ""), Number(|es|))
      && Chained(sha, es, "") && Numbered(es)
      && Check(sha, c, ScanLines(s.file), "") == Intact
  {
    var es := EntriesAfter(sha, ops);
    if ops != [] {
      var init, before := ops[..|ops| - 1], EntriesAfter(sha, ops[..|ops| - 1]);
      RunsVerify(sha, c, init);
      match ops[|ops| - 1]
      case Append(e, now, _, _) =>
        assert Succeeds(ops[|ops| - 1]);
        var sealed := Sealed(sha, HeadOf(before, ""), Number(|before|), e, now);
        AppendExtends(sha, c, before, sealed);
        assert (c.encode(sealed) + "\n")[..|c.encode(sealed)| + 1] == c.encode(sealed) + "\n";
      case Reopen =>
        ReopenRestores(c, before);
    }
    RenderedVerifies(sha, c, es);
  }

  lemma AppendExtends(sha: Hasher, c: Codec, es: seq<Entry>, sealed: Entry)
    requires Chained(sha, es, "") && Numbered(es)
    requires sealed.seqNo == Number(|es| + 1) && sealed.hash == HashWithPrev(sha, HeadOf(es, ""), sealed)
    ensures Rendered(c, es + [sealed]) == Rendered(c, es) + (c.encode(sealed) + "\n")
    ensures Chained(sha, es + [sealed], "") && Numbered(es + [sealed]) && HeadOf(es + [sealed], "") == sealed.hash
  {
    RenderedAppend(c, es, sealed);
    Regroup(Rendered(c, es), c.encode(sealed), "\n");
    ChainedAppend(sha, es, sealed, "");
    NumberedAppend(es, sealed);
  }

  lemma NumberedAppend(es: seq<Entry>, e: Entry)
    requires Numbered(es) && e.seqNo == Number(|es| + 1)
    ensures Numbered(es + [e])
  {
    forall k | 0 <= k < |es + [e]| ensures (es + [e])[k].seqNo == Number(k + 1) {
      assert k < |es| ==> (es + [e])[k] == es[k];
    }
  }

  lemma ReopenRestores(c: Codec, es: seq<Entry>)
    requires WholeLines(c) && Numbered(es)
    ensures Replayed(c, ScanLines(Rendered(c, es)), "", 0) == (HeadOf(es, ""), Number(|es|))
  {
    assert Rendered(c, es) + "" == Rendered(c, es);
    ScanRendered(c, es, "");
    ReplayFollows(c, es, ScanLines(""), "", 0);
  }

  // ---- Runs with failing appends -----------------------------------------------------------

  /** The file as lines that have ended and pieces of encodings behind them. */
  datatype Disk = Disk(lines: seq<string>, tail: seq<Piece>)

  ghost predicate OnDisk(c: Codec, d: Disk) {
    Pieces(c, d.tail) && forall k :: 0 <= k < |d.lines| ==> OneLine(d.lines[k])
  }

  function TextOf(c: Codec, d: Disk): string
    requires Pieces(c, d.tail)
  {
    Unlines(d.lines) + Glued(c, d.tail)
  }

  /** The disk after n characters of an entry's line were added. */
  function Extended(c: Codec, d: Disk, sealed: Entry, n: nat): Disk
    requires Pieces(c, d.tail)
  {
    if n == 0 then d
    else if n <= |c.encode(sealed)| then Disk(d.lines, d.tail + [Piece(sealed, n)])
    else Disk(d.lines + [Glued(c, d.tail) + c.encode(sealed)], [])
  }

  lemma {:induction false} GluedIsPlain(c: Codec, ps: seq<Piece>)
    requires WholeLines(c) && Pieces(c, ps)
    ensures Plain(Glued(c, ps)) && (Glued(c, ps) == "" <==> ps == [])
  {
    if ps != [] {
      GluedIsPlain(c, ps[..|ps| - 1]);
    }
  }

  lemma ExtendedOnDisk(c: Codec, d: Disk, sealed: Entry, n: nat)
    requires WholeLines(c) && OnDisk(c, d) && n <= |c.encode(sealed)| + 1
    ensures OnDisk(c, Extended(c, d, sealed, n))
    ensures TextOf(c, Extended(c, d, sealed, n)) == TextOf(c, d) + (c.encode(sealed) + "\n")[..n]
  {
    var line := c.encode(sealed) + "\n";
    if n == 0 {
      assert TextOf(c, d) + line[..0] == TextOf(c, d);
    } else if n <= |c.encode(sealed)| {
      assert line[..n] == c.encode(sealed)[..n];
      PieceOnDisk(c, d, Piece(sealed, n));
    } else {
      assert line[..n] == line;
      LineOnDisk(c, d, sealed);
    }
  }

  lemma PieceOnDisk(c: Codec, d: Disk, p: Piece)
    requires OnDisk(c, d) && 0 < p.n <= |c.encode(p.e)|
    ensures OnDisk(c, Disk(d.lines, d.tail + [p]))
    ensures TextOf(c, Disk(d.lines, d.tail + [p])) == TextOf(c, d) + c.encode(p.e)[..p.n]
  {
    GluedMore(c, d.tail, p);
    Regroup(Unlines(d.lines), Glued(c, d.tail), c.encode(p.e)[..p.n]);
  }

  lemma LineOnDisk(c: Codec, d: Disk, sealed: Entry)
    requires WholeLines(c) && OnDisk(c, d)
    ensures
      var whole := Glued(c, d.tail) + c.encode(sealed);
      && OnDisk(c, Disk(d.lines + [whole], []))
      && TextOf(c, Disk(d.lines + [whole], [])) == TextOf(c, d) + (c.encode(sealed) + "\n")
  {
    var glued := Glued(c, d.tail);
    GluedIsPlain(c, d.tail);
    PlainIsOneLine(glued + c.encode(sealed));
    UnlinesAppend(d.lines, glued + c.encode(sealed));
    LineText(Unlines(d.lines), glued, c.encode(sealed));
  }

  lemma LineText(before: string, glued: string, line: string)
    ensures before + (glued + line) + "\n" + "" == before + glued + (line + "\n")
  {
  }

  lemma {:induction false} FileIsOnDisk(sha: Hasher, c: Codec, ops: seq<Op>) returns (d: Disk)
    requires WholeLines(c)
    ensures OnDisk(c, d) && After(sha, c, ops).file == TextOf(c, d)
  {
    if ops == [] {
      d := Disk([], []);
    } else {
      d := FileIsOnDisk(sha, c, ops[..|ops| - 1]);
      if ops[|ops| - 1].Append? {
        var s, op := After(sha, c, ops[..|ops| - 1]), ops[|ops| - 1];
        var sealed := Sealed(sha, s.head, s.seqNo, op.e, op.now);
        var n := Through(c.encode(sealed) + "\n", op.missing);
        ExtendedOnDisk(c, d, sealed, n);
        d := Extended(c, d, sealed, n);
      }
    }
  }

  /** The lines a reader finds. */
  function LinesOf(c: Codec, d: Disk): seq<string>
    requires Pieces(c, d.tail)
  {
    d.lines + if d.tail == [] then [] else [Glued(c, d.tail)]
  }

  lemma DiskLines(c: Codec, d: Disk)
    requires WholeLines(c) && OnDisk(c, d)
    ensures ScanLines(TextOf(c, d)) == LinesOf(c, d)
  {
    GluedIsPlain(c, d.tail);
    PlainIsOneLine(Glued(c, d.tail));
    ScanUnlines(d.lines, Glued(c, d.tail));
    ScanLastLine(Glued(c, d.tail));
  }

  predicate AtLineStart(text: string) {
    text == "" || text[|text| - 1] == '\n'
  }

  lemma {:induction false} UnlinesEnd(lines: seq<string>)
    ensures AtLineStart(Unlines(lines))
  {
    if lines != [] {
      UnlinesEnd(lines[1..]);
    }
  }

  lemma AtLineStartIff(c: Codec, d: Disk)
    requires WholeLines(c) && OnDisk(c, d)
    ensures AtLineStart(TextOf(c, d)) <==> d.tail == []
  {
    UnlinesEnd(d.lines);
    GluedIsPlain(c, d.tail);
    var text, glued := TextOf(c, d), Glued(c, d.tail);
    if d.tail != [] {
      assert text[|text| - 1] == glued[|glued| - 1] && glued[|glued| - 1] in glued;
    } else {
      assert text == Unlines(d.lines);
    }
  }

  /** Adding n characters of an entry's line keeps a log verifiable exactly if there are none, or the
      file stands at the start of a line, the whole entry gets through and it covers the last hash. */
  lemma ExtendedVerifiesIff(sha: Hasher, c: Codec, d: Disk, sealed: Entry, n: nat)
    requires JsonLines(c) && OnDisk(c, d) && 0 < n <= |c.encode(sealed)| + 1
    ensures Pieces(c, Extended(c, d, sealed, n).tail)
    ensures Check(sha, c, LinesOf(c, Extended(c, d, sealed, n)), "") == Intact
            <==> && Check(sha, c, LinesOf(c, d), "") == Intact && d.tail == [] && n >= |c.encode(sealed)|
                 && sealed.hash == HashWithPrev(sha, LastHash(c, LinesOf(c, d)), sealed)
  {
    var p := Piece(sealed, if n <= |c.encode(sealed)| then n else |c.encode(sealed)|);
    ExtendedLines(c, d, sealed, n, p);
    LastLineVerifiesIff(sha, c, d, p);
    assert d.tail == [] ==> LinesOf(c, d) == d.lines;
  }

  lemma ExtendedLines(c: Codec, d: Disk, sealed: Entry, n: nat, p: Piece)
    requires Pieces(c, d.tail) && 0 < n <= |c.encode(sealed)| + 1
    requires p == Piece(sealed, if n <= |c.encode(sealed)| then n else |c.encode(sealed)|) && c.encode(sealed) != ""
    ensures Pieces(c, d.tail + [p])
    ensures
      var next := Extended(c, d, sealed, n);
      Pieces(c, next.tail) && LinesOf(c, next) == d.lines + [Glued(c, d.tail + [p])]
  {
    GluedMore(c, d.tail, p);
    assert c.encode(sealed)[..|c.encode(sealed)|] == c.encode(sealed);
  }

  lemma LastLineVerifiesIff(sha: Hasher, c: Codec, d: Disk, p: Piece)
    requires JsonLines(c) && OnDisk(c, d) && 0 < p.n <= |c.encode(p.e)| && Pieces(c, d.tail + [p])
    ensures Check(sha, c, d.lines + [Glued(c, d.tail + [p])], "") == Intact
            <==> && Check(sha, c, d.lines, "") == Intact && d.tail == [] && p.n == |c.encode(p.e)|
                 && p.e.hash == HashWithPrev(sha, LastHash(c, d.lines), p.e)
  {
    var last := Glued(c, d.tail + [p]);
    CheckOneMore(sha, c, d.lines, last);
    if d.tail == [] {
      GluedMore(c, [], p);
      assert last == c.encode(p.e)[..p.n];
      assert c.encode(p.e)[..|c.encode(p.e)|] == c.encode(p.e);
    } else {
      assert |d.tail + [p]| > 1;
    }
  }

  /** An entry whose line lacks its last characters adds nothing to the file, or finds it at the start of a
      line, gets through as a whole and covers the hash of the last entry. */
  predicate FitsInto(sha: Hasher, c: Codec, file: string, sealed: Entry, missing: nat) {
    var n := Through(c.encode(sealed) + "\n", missing);
    n > 0 ==>
      && AtLineStart(file) && n >= |c.encode(sealed)|
      && sealed.hash == HashWithPrev(sha, LastHash(c, ScanLines(file)), sealed)
  }

  predicate Fits(sha: Hasher, c: Codec, ops: seq<Op>, k: nat)
    requires k < |ops|
  {
    ops[k].Append? ==>
      var s := After(sha, c, ops[..k]);
      FitsInto(sha, c, s.file, Sealed(sha, s.head, s.seqNo, ops[k].e, ops[k].now), ops[k].missing)
  }

  lemma AppendVerifiesIff(sha: Hasher, c: Codec, d: Disk, sealed: Entry, missing: nat)
    requires JsonLines(c) && OnDisk(c, d)
    ensures
      var file, line := TextOf(c, d), c.encode(sealed) + "\n";
      Check(sha, c, ScanLines(file + line[..Through(line, missing)]), "") == Intact
      <==> Check(sha, c, ScanLines(file), "") == Intact && FitsInto(sha, c, file, sealed, missing)
  {
    var line := c.encode(sealed) + "\n";
    var n := Through(line, missing);
    if n == 0 {
      assert TextOf(c, d) + line[..n] == TextOf(c, d);
    } else {
      ExtendedVerifiesIff(sha, c, d, sealed, n);
      ExtendedOnDisk(c, d, sealed, n);
      DiskLines(c, d);
      DiskLines(c, Extended(c, d, sealed, n));
      AtLineStartIff(c, d);
    }
  }

  predicate AllFit(sha: Hasher, c: Codec, ops: seq<Op>) {
    forall k :: 0 <= k < |ops| ==> Fits(sha, c, ops, k)
  }

  lemma AllFitStep(sha: Hasher, c: Codec, ops: seq<Op>)
    requires ops != []
    ensures AllFit(sha, c, ops) <==> AllFit(sha, c, ops[..|ops| - 1]) && Fits(sha, c, ops, |ops| - 1)
  {
    var init := ops[..|ops| - 1];
    forall k | 0 <= k < |init| ensures Fits(sha, c, ops, k) <==> Fits(sha, c, init, k) {
      assert init[..k] == ops[..k];
    }
    if AllFit(sha, c, ops) {
      forall k | 0 <= k < |init| ensures Fits(sha, c, init, k) {
        assert Fits(sha, c, ops, k);
      }
    }
  }

  predicate Verifies(sha: Hasher, c: Codec, file: string) {
    Check(sha, c, ScanLines(file), "") == Intact
  }

  /** Over every run of appends, failing or not, and reopens: the log verifies exactly when every append
      fits. */
  lemma {:induction false} RunsVerifyIff(sha: Hasher, c: Codec, ops: seq<Op>)
    requires JsonLines(c)
    ensures Verifies(sha, c, After(sha, c, ops).file) <==> AllFit(sha, c, ops)
  {
    if ops != [] {
      RunsVerifyIff(sha, c, ops[..|ops| - 1]);
      AllFitStep(sha, c, ops);
      LastOpVerifiesIff(sha, c, ops);
    }
  }

  lemma LastOpVerifiesIff(sha: Hasher, c: Codec, ops: seq<Op>)
    requires JsonLines(c) && ops != []
    ensures
      var n := |ops| - 1;
      Verifies(sha, c, After(sha, c, ops).file)
      <==> Verifies(sha, c, After(sha, c, ops[..n]).file) && Fits(sha, c, ops, n)
  {
    var n := |ops| - 1;
    if ops[n].Append? {
      var s, op := After(sha, c, ops[..n]), ops[n];
      var d := FileIsOnDisk(sha, c, ops[..n]);
      AppendVerifiesIff(sha, c, d, Sealed(sha, s.head, s.seqNo, op.e, op.now), op.missing);
    }
  }

  /** An append covers the last hash exactly when the writer's head is that hash, or else two different
      strings have one digest. */
  lemma CoversLastHashIff(sha: Hasher, head: string, seqNo: Word, e: Entry, now: Instant, last: string)
    ensures
      var sealed := Sealed(sha, head, seqNo, e, now);
      sealed.hash == HashWithPrev(sha, last, sealed)
      <==> head == last || Collide(sha, (head + Fields(sha, sealed), last + Fields(sha, sealed)))
  {
    var fields := Fields(sha, Sealed(sha, head, seqNo, e, now));
    if head + fields == last + fields {
      assert |head| == |last|;
      SplitEqual(head, fields, last, fields);
    }
  }

  // ---- Crashes -----------------------------------------------------------------------------

  /** The file after a crash that let `written` bytes of the next entry's line through. */
  function Crashed(c: Codec, es: seq<Entry>, next: Entry, written: nat): string
    requires written <= |c.encode(next)| + 1
  {
    Rendered(c, es) + (c.encode(next) + "\n")[..written]
  }

  lemma PieceIsOneLine(c: Codec, e: Entry, k: nat)
    requires WholeLines(c) && k <= |c.encode(e)|
    ensures OneLine(c.encode(e)[..k])
    ensures forall f :: OneLine(c.encode(e)[..k] + c.encode(f))
  {
    forall f ensures OneLine(c.encode(e)[..k] + c.encode(f)) {
      assert c.encode(f)[|c.encode(f)| - 1] in c.encode(f);
    }
    if k > 0 {
      assert c.encode(e)[k - 1] in c.encode(e);
    }
  }

  /** Reopening after a crash restores the last whole entry; an entry that lacks only its newline
      counts as whole. */
  lemma CrashReplay(sha: Hasher, c: Codec, es: seq<Entry>, next: Entry, written: nat)
    requires JsonLines(c) && Numbered(es) && next.seqNo == Number(|es| + 1) && written <= |c.encode(next)| + 1
    ensures Replayed(c, ScanLines(Crashed(c, es, next, written)), "", 0)
            == if written < |c.encode(next)| then (HeadOf(es, ""), Number(|es|)) else (next.hash, Number(|es| + 1))
  {
    var line := c.encode(next);
    if written == |line| + 1 {
      assert (line + "\n")[..written] == line + "\n";
      RenderedAppend(c, es, next);
      assert Crashed(c, es, next, written) == Rendered(c, es + [next]);
      ReopenRestores(c, es + [next]);
    } else {
      assert (line + "\n")[..written] == line[..written];
      PieceReplay(c, es, next, written);
    }
  }

  lemma PieceReplay(c: Codec, es: seq<Entry>, next: Entry, written: nat)
    requires JsonLines(c) && Numbered(es) && next.seqNo == Number(|es| + 1) && written <= |c.encode(next)|
    ensures Replayed(c, ScanLines(Rendered(c, es) + c.encode(next)[..written]), "", 0)
            == if written < |c.encode(next)| then (HeadOf(es, ""), Number(|es|)) else (next.hash, Number(|es| + 1))
  {
    var piece := c.encode(next)[..written];
    PieceIsOneLine(c, next, written);
    ScanLastLine(piece);
    ScanRendered(c, es, piece);
    ReplayFollows(c, es, ScanLines(piece), "", 0);
    if written == |c.encode(next)| {
      assert piece == c.encode(next);
    } else {
      assert c.decode(piece) == None;
    }
  }

  /** Opening does not cut a partial line off, so the next append is glued to it: after a crash the
      log verifies again if and only if the crash fell exactly between two lines. */
  lemma AppendAfterCrash(sha: Hasher, c: Codec, es: seq<Entry>, next: Entry, written: nat, e: Entry, now: Instant)
    requires JsonLines(c) && Numbered(es) && Chained(sha, es, "")
    requires next.seqNo == Number(|es| + 1) && next.hash == HashWithPrev(sha, HeadOf(es, ""), next)
    requires written <= |c.encode(next)| + 1
    ensures
      var file := Crashed(c, es, next, written);
      var (head, seqNo) := Replayed(c, ScanLines(file), "", 0);
      var line := c.encode(Sealed(sha, head, seqNo, e, now)) + "\n";
      Check(sha, c, ScanLines(file + line), "") == Intact <==> written == 0 || written == |c.encode(next)| + 1
  {
    var file := Crashed(c, es, next, written);
    var (head, seqNo) := Replayed(c, ScanLines(file), "", 0);
    var appended := Sealed(sha, head, seqNo, e, now);
    CrashReplay(sha, c, es, next, written);
    if written == 0 {
      assert file == Rendered(c, es);
      AppendAtBoundary(sha, c, es, appended);
    } else if written == |c.encode(next)| + 1 {
      RenderedAppend(c, es, next);
      assert (c.encode(next) + "\n")[..written] == c.encode(next) + "\n";
      assert file == Rendered(c, es + [next]);
      ChainedAppend(sha, es, next, "");
      AppendAtBoundary(sha, c, es + [next], appended);
    } else {
      AppendAfterPiece(sha, c, es, next, written, appended);
    }
  }

  lemma AppendAtBoundary(sha: Hasher, c: Codec, es: seq<Entry>, appended: Entry)
    requires WholeLines(c) && Chained(sha, es, "") && appended.hash == HashWithPrev(sha, HeadOf(es, ""), appended)
    ensures Check(sha, c, ScanLines(Rendered(c, es) + (c.encode(appended) + "\n")), "") == Intact
  {
    RenderedAppend(c, es, appended);
    assert Rendered(c, es) + (c.encode(appended) + "\n") == Rendered(c, es + [appended]);
    ChainedAppend(sha, es, appended, "");
    RenderedVerifies(sha, c, es + [appended]);
  }

  lemma TwoGlued(c: Codec, p: Piece, e: Entry)
    requires JsonLines(c) && 0 < p.n <= |c.encode(p.e)|
    ensures c.decode(c.encode(p.e)[..p.n] + c.encode(e)) == None
  {
    GluedPair(c, p, e);
    assert |[p, Piece(e, |c.encode(e)|)]| > 1;
  }

  lemma GluedPair(c: Codec, p: Piece, e: Entry)
    requires 0 < p.n <= |c.encode(p.e)| && c.encode(e) != ""
    ensures
      var ps := [p, Piece(e, |c.encode(e)|)];
      Pieces(c, ps) && Glued(c, ps) == c.encode(p.e)[..p.n] + c.encode(e)
  {
    var q := Piece(e, |c.encode(e)|);
    GluedMore(c, [], p);
    GluedMore(c, [p], q);
    assert [] + [p] == [p] && [p] + [q] == [p, q] && c.encode(e)[..q.n] == c.encode(e);
  }

  lemma GluedText(c: Codec, es: seq<Entry>, next: Entry, written: nat, line: string)
    requires written <= |c.encode(next)|
    ensures Crashed(c, es, next, written) + (line + "\n")
            == Rendered(c, es) + (c.encode(next)[..written] + line + "\n" + "")
  {
    var piece := c.encode(next)[..written];
    assert (c.encode(next) + "\n")[..written] == piece;
    assert Rendered(c, es) + piece + (line + "\n") == Rendered(c, es) + (piece + line + "\n" + "");
  }

  lemma AppendAfterPiece(sha: Hasher, c: Codec, es: seq<Entry>, next: Entry, written: nat, appended: Entry)
    requires JsonLines(c) && 0 < written <= |c.encode(next)|
    ensures Check(sha, c, ScanLines(Crashed(c, es, next, written) + (c.encode(appended) + "\n")), "") != Intact
  {
    var glued := c.encode(next)[..written] + c.encode(appended);
    GluedText(c, es, next, written, c.encode(appended));
    PieceIsOneLine(c, next, written);
    ScanLine(glued, "");
    ScanRendered(c, es, glued + "\n" + "");
    CheckFollows(sha, c, es, ScanLines(glued + "\n" + ""), "");
    TwoGlued(c, Piece(next, written), appended);
  }
}
