/** The hash-chained audit log: one encoded entry per line, each entry's hash covering the previous
    hash and the entry's fields. The digest and the JSON codec are parameters. */
module AuditLogs {
  import opened Bytes
  import opened Text

  const WORD := 0x1_0000_0000_0000_0000
  const HALF_WORD := 0x8000_0000_0000_0000

  /** Unsigned and signed 64-bit numbers. */
  type Word = n: nat | n < WORD
  type Int64 = n: int | -HALF_WORD <= n < HALF_WORD

  /** Nanoseconds from 1970 on, of an instant in one of the years 0 to 9999. */
  type Instant = t: int | -62167219200_000_000_000 <= t < 253402300800_000_000_000

  datatype Entry = Entry(
    seqNo: Word, timestamp: Instant, jobID: string, command: string, step: string, exit: Int64, durationMs: Int64,
    prevHash: string, hash: string)

  /** The instant that stands for no time given: the beginning of year 1. */
  const ZERO_TIME: Instant := -62135596800_000_000_000

  function Next(n: Word): Word {
    if n == WORD - 1 then 0 else n + 1
  }

  /** The number of the n-th entry. */
  function Number(n: nat): Word {
    if n == 0 then 0 else Next(Number(n - 1))
  }

  lemma {:induction false} NumberWraps(n: nat)
    ensures Number(n) == n % 0x1_0000_0000_0000_0000
  {
    if n > 0 {
      NumberWraps(n - 1);
      NextWraps(n - 1);
    }
  }

  lemma NextWraps(n: nat)
    ensures Next(n % WORD) == (n + 1) % WORD
  {
    var q, r := n / WORD, n % WORD;
    assert n == q * WORD + r;
    if r == WORD - 1 {
      assert n + 1 == (q + 1) * WORD;
    } else {
      assert n + 1 == q * WORD + (r + 1);
    }
  }

  /** The digest in hexadecimal, and instants as RFC 3339 in UTC. */
  datatype Hasher = Hasher(sum: string -> string, instant: Instant -> string)

  datatype Codec = Codec(encode: Entry -> string, decode: string -> Option<Entry>)

  /** The first n characters of an entry's encoding. */
  datatype Piece = Piece(e: Entry, n: nat)

  predicate Pieces(c: Codec, ps: seq<Piece>) {
    forall k :: 0 <= k < |ps| ==> 0 < ps[k].n <= |c.encode(ps[k].e)|
  }

  function Glued(c: Codec, ps: seq<Piece>): string
    requires Pieces(c, ps)
  {
    if ps == [] then ""
    else
      var last := ps[|ps| - 1];
      Glued(c, ps[..|ps| - 1]) + c.encode(last.e)[..last.n]
  }

  /** What the log needs of the JSON codec: entries decode to themselves; an encoding is one line;
      neither a strict prefix of an encoding nor several pieces of encodings glued together decode. */
  ghost predicate JsonLines(c: Codec) {
    WholeLines(c) && PiecesFail(c)
  }

  ghost predicate WholeLines(c: Codec) {
    && (forall e :: c.decode(c.encode(e)) == Some(e))
    && (forall e :: c.encode(e) != "" && '\n' !in c.encode(e) && '\r' !in c.encode(e))
  }

  ghost predicate PiecesFail(c: Codec) {
    && (forall e, k :: 0 <= k < |c.encode(e)| ==> c.decode(c.encode(e)[..k]) == None)
    && (forall ps :: |ps| > 1 && Pieces(c, ps) ==> c.decode(Glued(c, ps)) == None)
  }

  lemma GluedMore(c: Codec, ps: seq<Piece>, p: Piece)
    requires Pieces(c, ps) && 0 < p.n <= |c.encode(p.e)|
    ensures Pieces(c, ps + [p]) && Glued(c, ps + [p]) == Glued(c, ps) + c.encode(p.e)[..p.n]
  {
    assert (ps + [p])[..|ps|] == ps;
  }

  /** A hex SHA-256 digest has 64 characters. */
  ghost predicate Digest(sha: Hasher) {
    forall s :: |sha.sum(s)| == 64
  }

  /** The hashed fields, concatenated without separators; seqNo and prevHash are not among them. */
  function Fields(sha: Hasher, e: Entry): string {
    e.jobID + e.command + e.step + Decimal(e.exit) + Decimal(e.durationMs) + sha.instant(e.timestamp)
  }

  function HashWithPrev(sha: Hasher, prev: string, e: Entry): string {
    sha.sum(prev + Fields(sha, e))
  }

  /** The entry an append writes. */
  function Sealed(sha: Hasher, head: string, seqNo: Word, e: Entry, now: Instant): Entry {
    var stamped := e.(seqNo := Next(seqNo), prevHash := head,
                      timestamp := if e.timestamp == ZERO_TIME then now else e.timestamp);
    stamped.(hash := HashWithPrev(sha, head, stamped))
  }

  // ---- The log -----------------------------------------------------------------------------

  /** Head and sequence number after reading lines up to the first one that does not decode. */
  function Replayed(c: Codec, lines: seq<string>, head: string, seqNo: Word): (string, Word) {
    if lines == [] then (head, seqNo)
    else match c.decode(lines[0])
      case None => (head, seqNo)
      case Some(e) => Replayed(c, lines[1..], e.hash, e.seqNo)
  }

  datatype Verdict = Intact | Undecodable | Tampered(seqNo: Word)

  function Check(sha: Hasher, c: Codec, lines: seq<string>, prev: string): Verdict {
    if lines == [] then Intact
    else match c.decode(lines[0])
      case None => Undecodable
      case Some(e) =>
        if e.hash != HashWithPrev(sha, prev, e) then Tampered(e.seqNo) else Check(sha, c, lines[1..], e.hash)
  }

  class Log {
    const sha: Hasher
    const codec: Codec
    var file: string
    var head: string
    var seqNo: Word

    /** Opening replays the file; the file itself is left as it is. */
    constructor (sha: Hasher, codec: Codec, file: string)
      ensures this.sha == sha && this.codec == codec && this.file == file
      ensures (head, seqNo) == Replayed(codec, ScanLines(file), "", 0)
    {
      this.sha := sha;
      this.codec := codec;
      this.file := file;
      head, seqNo := "", 0;
      new;
      Replay();
    }

    method Replay()
      requires head == "" && seqNo == 0
      modifies this`head, this`seqNo
      ensures (head, seqNo) == Replayed(codec, ScanLines(file), "", 0)
    {
      var lines := ScanLines(file);
      var k := 0;
      while k < |lines|
        invariant 0 <= k <= |lines|
        invariant Replayed(codec, lines, "", 0) == Replayed(codec, lines[k..], head, seqNo)
      {
        var entry := codec.decode(lines[k]);
        assert lines[k..][1..] == lines[k + 1..];
        if entry == None {
          break;
        }
        head, seqNo := entry.value.hash, entry.value.seqNo;
        k := k + 1;
      }
    }

    /** `written` bytes of the line reach the file; the append succeeds if that is all of it and it
        is synced. A failed append leaves head and sequence number alone. */
    method Append(e: Entry, now: Instant, written: nat, synced: bool) returns (chainHead: Option<string>)
      requires written <= |codec.encode(Sealed(sha, head, seqNo, e, now))| + 1
      modifies this
      ensures
        var s := Sealed(sha, old(head), old(seqNo), e, now);
        var line := codec.encode(s) + "\n";
        && file == old(file) + line[..written]
        && if written == |line| && synced
           then chainHead == Some(s.hash) && head == s.hash && seqNo == Next(old(seqNo))
           else chainHead == None && head == old(head) && seqNo == old(seqNo)
      ensures
        var at := if e.timestamp == ZERO_TIME then now else e.timestamp;
        var hash := sha.sum(old(head) + (e.jobID + e.command + e.step + Decimal(e.exit) + Decimal(e.durationMs)
                                         + sha.instant(at)));
        var s := Entry(Next(old(seqNo)), at, e.jobID, e.command, e.step, e.exit, e.durationMs, old(head), hash);
        var line := codec.encode(s) + "\n";
        && written <= |line| && file == old(file) + line[..written]
        && chainHead == (if written == |line| && synced then Some(hash) else None)
    {
      var s := Sealed(sha, head, seqNo, e, now);
      var line := codec.encode(s) + "\n";
      file := file + line[..written];
      if written < |line| || !synced {
        return None;
      }
      head, seqNo := s.hash, s.seqNo;
      return Some(s.hash);
    }

    method Verify() returns (v: Verdict)
      ensures v == Check(sha, codec, ScanLines(file), "")
    {
      var lines := ScanLines(file);
      var prev := "";
      var k := 0;
      while k < |lines|
        invariant 0 <= k <= |lines|
        invariant Check(sha, codec, lines, "") == Check(sha, codec, lines[k..], prev)
      {
        assert lines[k..][1..] == lines[k + 1..];
        match codec.decode(lines[k])
        case None =>
          return Undecodable;
        case Some(e) =>
          if e.hash != HashWithPrev(sha, prev, e) {
            return Tampered(e.seqNo);
          }
          prev := e.hash;
          k := k + 1;
      }
      return Intact;
    }
  }

  // ---- Chains of entries -------------------------------------------------------------------

  /** The hash in front of entry number k, or after the last entry. */
  function HashBefore(entries: seq<Entry>, prev: string, k: nat): string
    requires k <= |entries|
  {
    if k == 0 then prev else entries[k - 1].hash
  }

  function HeadOf(entries: seq<Entry>, prev: string): string {
    HashBefore(entries, prev, |entries|)
  }

  predicate LinkedAt(sha: Hasher, entries: seq<Entry>, prev: string, k: nat)
    requires k < |entries|
  {
    entries[k].hash == HashWithPrev(sha, HashBefore(entries, prev, k), entries[k])
  }

  /** What verification recomputes: each hash covers the hash before it. */
  predicate Chained(sha: Hasher, entries: seq<Entry>, prev: string) {
    forall k :: 0 <= k < |entries| ==> LinkedAt(sha, entries, prev, k)
  }

  predicate Numbered(entries: seq<Entry>) {
    forall k :: 0 <= k < |entries| ==> entries[k].seqNo == Number(k + 1)
  }

  function Encodings(c: Codec, entries: seq<Entry>): (lines: seq<string>)
    ensures |lines| == |entries| && forall k :: 0 <= k < |lines| ==> lines[k] == c.encode(entries[k])
  {
    seq(|entries|, k requires 0 <= k < |entries| => c.encode(entries[k]))
  }

  function Rendered(c: Codec, entries: seq<Entry>): string {
    Unlines(Encodings(c, entries))
  }

  lemma ScanRendered(c: Codec, entries: seq<Entry>, rest: string)
    requires WholeLines(c)
    ensures ScanLines(Rendered(c, entries) + rest) == Encodings(c, entries) + ScanLines(rest)
  {
    ScanUnlines(Encodings(c, entries), rest);
  }

  lemma RenderedAppend(c: Codec, entries: seq<Entry>, e: Entry)
    ensures Rendered(c, entries + [e]) == Rendered(c, entries) + c.encode(e) + "\n"
  {
    UnlinesAppend(Encodings(c, entries), c.encode(e));
    assert Encodings(c, entries + [e]) == Encodings(c, entries) + [c.encode(e)];
  }

  lemma ChainedAppend(sha: Hasher, entries: seq<Entry>, e: Entry, prev: string)
    ensures Chained(sha, entries + [e], prev)
            <==> Chained(sha, entries, prev) && e.hash == HashWithPrev(sha, HeadOf(entries, prev), e)
  {
    var all := entries + [e];
    forall k | 0 <= k < |entries| ensures LinkedAt(sha, all, prev, k) <==> LinkedAt(sha, entries, prev, k) {
      assert k > 0 ==> all[k - 1] == entries[k - 1];
    }
    assert LinkedAt(sha, all, prev, |entries|) <==> e.hash == HashWithPrev(sha, HeadOf(entries, prev), e);
    if Chained(sha, all, prev) {
      forall k | 0 <= k < |entries| ensures LinkedAt(sha, entries, prev, k) {
        assert LinkedAt(sha, all, prev, k);
      }
    }
  }

  lemma {:induction false} CheckFollows(sha: Hasher, c: Codec, entries: seq<Entry>, more: seq<string>, prev: string)
    requires WholeLines(c)
    ensures Chained(sha, entries, prev) ==>
              Check(sha, c, Encodings(c, entries) + more, prev) == Check(sha, c, more, HeadOf(entries, prev))
    ensures !Chained(sha, entries, prev) ==> Check(sha, c, Encodings(c, entries) + more, prev) != Intact
  {
    var lines := Encodings(c, entries) + more;
    if entries == [] {
      assert lines == more;
    } else {
      var e, tail := entries[0], entries[1..];
      assert lines[0] == c.encode(e) && lines[1..] == Encodings(c, tail) + more;
      CheckFollows(sha, c, tail, more, e.hash);
      ChainedTail(sha, entries, prev);
    }
  }

  lemma ChainedTail(sha: Hasher, entries: seq<Entry>, prev: string)
    requires entries != []
    ensures Chained(sha, entries, prev)
            <==> entries[0].hash == HashWithPrev(sha, prev, entries[0]) && Chained(sha, entries[1..], entries[0].hash)
    ensures HeadOf(entries, prev) == HeadOf(entries[1..], entries[0].hash)
  {
    var tail := entries[1..];
    forall k | 0 <= k < |tail|
      ensures LinkedAt(sha, tail, entries[0].hash, k) <==> LinkedAt(sha, entries, prev, k + 1)
    {
      assert k > 0 ==> tail[k - 1] == entries[k];
    }
    if Chained(sha, tail, entries[0].hash) && LinkedAt(sha, entries, prev, 0) {
      forall k | 0 <= k < |entries| ensures LinkedAt(sha, entries, prev, k) {
        assert k > 0 ==> LinkedAt(sha, tail, entries[0].hash, k - 1);
      }
    }
    if Chained(sha, entries, prev) {
      assert LinkedAt(sha, entries, prev, 0);
    }
  }

  lemma {:induction false} ReplayFollows(c: Codec, entries: seq<Entry>, more: seq<string>, head: string, seqNo: Word)
    requires WholeLines(c)
    ensures Replayed(c, Encodings(c, entries) + more, head, seqNo)
            == Replayed(c, more, HeadOf(entries, head), if entries == [] then seqNo else entries[|entries| - 1].seqNo)
  {
    var lines := Encodings(c, entries) + more;
    if entries == [] {
      assert lines == more;
    } else {
      assert lines[0] == c.encode(entries[0]) && lines[1..] == Encodings(c, entries[1..]) + more;
      ReplayFollows(c, entries[1..], more, entries[0].hash, entries[0].seqNo);
    }
  }

  /** Two different strings with one digest. */
  predicate Collide(sha: Hasher, pair: (string, string)) {
    pair.0 != pair.1 && sha.sum(pair.0) == sha.sum(pair.1)
  }

  // ---- What verification accepts -----------------------------------------------------------

  predicate AllDecode(c: Codec, lines: seq<string>) {
    forall k :: 0 <= k < |lines| ==> c.decode(lines[k]).Some?
  }

  function Entries(c: Codec, lines: seq<string>): seq<Entry>
    requires AllDecode(c, lines)
  {
    seq(|lines|, k requires 0 <= k < |lines| => c.decode(lines[k]).value)
  }

  lemma {:induction false} CheckMeansChained(sha: Hasher, c: Codec, lines: seq<string>, prev: string)
    ensures Check(sha, c, lines, prev) == Intact <==> AllDecode(c, lines) && Chained(sha, Entries(c, lines), prev)
  {
    if lines != [] && c.decode(lines[0]).Some? {
      CheckMeansChained(sha, c, lines[1..], c.decode(lines[0]).value.hash);
      EntriesTail(c, lines);
      if AllDecode(c, lines) {
        ChainedTail(sha, Entries(c, lines), prev);
      }
    }
  }

  lemma EntriesTail(c: Codec, lines: seq<string>)
    requires lines != [] && c.decode(lines[0]).Some?
    ensures AllDecode(c, lines) <==> AllDecode(c, lines[1..])
    ensures AllDecode(c, lines) ==>
              Entries(c, lines)[0] == c.decode(lines[0]).value && Entries(c, lines)[1..] == Entries(c, lines[1..])
  {
    assert forall k :: 0 <= k < |lines| - 1 ==> lines[1..][k] == lines[k + 1];
    if AllDecode(c, lines[1..]) {
      forall k | 0 <= k < |lines| ensures c.decode(lines[k]).Some? {
        assert k > 0 ==> c.decode(lines[1..][k - 1]).Some?;
      }
    }
  }

  /** The first line that does not decode, or whose hash does not cover the one before, decides the answer. */
  lemma {:induction false} FirstFailure(sha: Hasher, c: Codec, lines: seq<string>, prev: string, k: nat)
    requires k < |lines| && AllDecode(c, lines[..k]) && Chained(sha, Entries(c, lines[..k]), prev)
    ensures
      var before := if k == 0 then prev else c.decode(lines[..k][k - 1]).value.hash;
      match c.decode(lines[k])
      case None => Check(sha, c, lines, prev) == Undecodable
      case Some(e) => e.hash != HashWithPrev(sha, before, e) ==> Check(sha, c, lines, prev) == Tampered(e.seqNo)
  {
    if k > 0 {
      var first := c.decode(lines[..k][0]).value;
      assert lines[..k][1..] == lines[1..][..k - 1];
      EntriesTail(c, lines[..k]);
      ChainedTail(sha, Entries(c, lines[..k]), prev);
      FirstFailure(sha, c, lines[1..], first.hash, k - 1);
    }
  }

  /** Any text at all passes verification exactly when each of its lines decodes and each hash covers the
      hash before it. */
  lemma VerifyMeansChained(sha: Hasher, c: Codec, text: string)
    ensures
      var lines := ScanLines(text);
      Check(sha, c, lines, "") == Intact <==> AllDecode(c, lines) && Chained(sha, Entries(c, lines), "")
  {
    CheckMeansChained(sha, c, ScanLines(text), "");
  }

  lemma RenderedVerifies(sha: Hasher, c: Codec, entries: seq<Entry>)
    requires WholeLines(c)
    ensures Check(sha, c, ScanLines(Rendered(c, entries)), "") == Intact <==> Chained(sha, entries, "")
  {
    assert Rendered(c, entries) + "" == Rendered(c, entries);
    ScanRendered(c, entries, "");
    CheckFollows(sha, c, entries, ScanLines(""), "");
  }

  /** The hash the next line's entry has to cover. */
  function LastHash(c: Codec, lines: seq<string>): string {
    if lines == [] || c.decode(lines[|lines| - 1]) == None then "" else c.decode(lines[|lines| - 1]).value.hash
  }

  /** One more line verifies exactly when it decodes to an entry that covers the last hash. */
  lemma CheckOneMore(sha: Hasher, c: Codec, lines: seq<string>, line: string)
    ensures Check(sha, c, lines + [line], "") == Intact
            <==> && Check(sha, c, lines, "") == Intact && c.decode(line).Some?
                 && c.decode(line).value.hash == HashWithPrev(sha, LastHash(c, lines), c.decode(line).value)
  {
    CheckMeansChained(sha, c, lines, "");
    CheckMeansChained(sha, c, lines + [line], "");
    EntriesOneMore(c, lines, line);
    if AllDecode(c, lines + [line]) {
      ChainedAppend(sha, Entries(c, lines), c.decode(line).value, "");
    }
  }

  lemma EntriesOneMore(c: Codec, lines: seq<string>, line: string)
    ensures AllDecode(c, lines + [line]) <==> AllDecode(c, lines) && c.decode(line).Some?
    ensures AllDecode(c, lines + [line]) ==> Entries(c, lines + [line]) == Entries(c, lines) + [c.decode(line).value]
    ensures AllDecode(c, lines) ==> LastHash(c, lines) == HeadOf(Entries(c, lines), "")
  {
    var more := lines + [line];
    assert more[|lines|] == line && forall k :: 0 <= k < |lines| ==> more[k] == lines[k];
    if AllDecode(c, more) {
      forall k | 0 <= k < |lines| ensures c.decode(lines[k]).Some? {
        assert c.decode(more[k]).Some?;
      }
    }
  }
}
