/** Resumable multipart upload: the file is cut into 8 MiB parts, parts the server already holds are
    reused, and a saved upload id lets a later run continue. Every request may fail, with or without
    having taken effect. */
module S3Uploads {
  import opened Bytes
  import opened Text

  const PART_SIZE := 0x80_0000
  /** The server refuses part numbers above this one. */
  const MAX_PARTS := 10000

  type Parts = map<int, seq<byte>>

  // ---- Tiling ------------------------------------------------------------------------------

  function PartCount(size: nat): nat {
    (size + PART_SIZE - 1) / PART_SIZE
  }

  function Reached(size: nat, n: nat): nat {
    if n * PART_SIZE <= size then n * PART_SIZE else size
  }

  /** The file's parts; part number n is pieces[n - 1]. */
  function Pieces(content: seq<byte>): (pieces: seq<seq<byte>>)
    ensures |pieces| == PartCount(|content|)
  {
    seq(PartCount(|content|), i requires 0 <= i => content[Reached(|content|, i)..Reached(|content|, i + 1)])
  }

  function Concat(pieces: seq<seq<byte>>, n: nat): seq<byte>
    requires n <= |pieces|
  {
    if n == 0 then [] else Concat(pieces, n - 1) + pieces[n - 1]
  }

  lemma {:induction false} ConcatReaches(content: seq<byte>, n: nat)
    requires n <= PartCount(|content|)
    ensures Concat(Pieces(content), n) == content[..Reached(|content|, n)]
  {
    if n > 0 {
      ConcatReaches(content, n - 1);
      var from, to := Reached(|content|, n - 1), Reached(|content|, n);
      assert content[..to] == content[..from] + content[from..to];
    }
  }

  /** The parts tile the file. */
  lemma PiecesTile(content: seq<byte>)
    ensures Concat(Pieces(content), |Pieces(content)|) == content
  {
    ConcatReaches(content, PartCount(|content|));
    assert content[..|content|] == content;
  }

  lemma PieceAt(content: seq<byte>, part: int)
    requires part >= 1
    ensures
      var size := 8 * 1024 * 1024;
      && (part <= |Pieces(content)| <==> (part - 1) * size < |content|)
      && (part <= |Pieces(content)| ==>
            Pieces(content)[part - 1]
            == content[(part - 1) * size..if part * size <= |content| then part * size else |content|])
    ensures (part - 1) * PART_SIZE < |content| <==> part <= |Pieces(content)|
    ensures part <= |Pieces(content)| ==>
              Pieces(content)[part - 1] == content[(part - 1) * PART_SIZE..Reached(|content|, part)]
  {
  }

  // ---- What a completed upload contains ----------------------------------------------------

  /** A part the server lists is reused when it has the right size and an entity tag. */
  predicate Reusable(parts: Parts, pieces: seq<seq<byte>>, part: int, etag: seq<byte> -> string)
    requires 1 <= part <= |pieces|
  {
    part in parts && TrimSpace(etag(parts[part])) != "" && |parts[part]| == |pieces[part - 1]|
  }

  function Chosen(parts: Parts, pieces: seq<seq<byte>>, part: int, etag: seq<byte> -> string): (chosen: seq<byte>)
    requires 1 <= part <= |pieces|
    ensures |chosen| == |pieces[part - 1]|
  {
    if Reusable(parts, pieces, part, etag) then parts[part] else pieces[part - 1]
  }

  /** The first n parts, as a run that finds `parts` on the server completes them. */
  function Assembled(parts: Parts, pieces: seq<seq<byte>>, etag: seq<byte> -> string, n: nat): seq<byte>
    requires n <= |pieces|
  {
    if n == 0 then [] else Assembled(parts, pieces, etag, n - 1) + Chosen(parts, pieces, n, etag)
  }

  /** Every part that would be reused holds this file's bytes. */
  ghost predicate Current(parts: Parts, pieces: seq<seq<byte>>, etag: seq<byte> -> string) {
    forall part :: 1 <= part <= |pieces| && Reusable(parts, pieces, part, etag) ==> parts[part] == pieces[part - 1]
  }

  lemma {:induction false} AssembledIff(parts: Parts, pieces: seq<seq<byte>>, etag: seq<byte> -> string, n: nat)
    requires n <= |pieces|
    ensures |Assembled(parts, pieces, etag, n)| == |Concat(pieces, n)|
    ensures (forall part :: 1 <= part <= n ==> Chosen(parts, pieces, part, etag) == pieces[part - 1])
            <==> Assembled(parts, pieces, etag, n) == Concat(pieces, n)
  {
    if n > 0 {
      AssembledIff(parts, pieces, etag, n - 1);
      AppendEqual(Assembled(parts, pieces, etag, n - 1), Chosen(parts, pieces, n, etag),
                  Concat(pieces, n - 1), pieces[n - 1]);
    }
  }

  lemma AppendEqual(a: seq<byte>, b: seq<byte>, c: seq<byte>, d: seq<byte>)
    requires |a| == |c|
    ensures a + b == c + d <==> a == c && b == d
  {
    if a + b == c + d {
      assert a == (a + b)[..|a|] && b == (a + b)[|a|..];
    }
  }

  /** A completed upload holds the file if and only if every reused part does: only sizes are
      compared, so a part left by different content of equal size goes through. */
  lemma CompletesToFileIff(parts: Parts, content: seq<byte>, etag: seq<byte> -> string)
    ensures Assembled(parts, Pieces(content), etag, |Pieces(content)|) == content
            <==> Current(parts, Pieces(content), etag)
  {
    PiecesTile(content);
    CompletesToPiecesIff(parts, Pieces(content), etag);
  }

  lemma CompletesToPiecesIff(parts: Parts, pieces: seq<seq<byte>>, etag: seq<byte> -> string)
    ensures Assembled(parts, pieces, etag, |pieces|) == Concat(pieces, |pieces|) <==> Current(parts, pieces, etag)
  {
    AssembledIff(parts, pieces, etag, |pieces|);
    if Assembled(parts, pieces, etag, |pieces|) == Concat(pieces, |pieces|) {
      forall part | 1 <= part <= |pieces| && Reusable(parts, pieces, part, etag)
        ensures parts[part] == pieces[part - 1]
      {
        assert Chosen(parts, pieces, part, etag) == pieces[part - 1];
      }
    }
  }

  /** A one-byte file pushed over a part left by another one-byte file uploads the other file. */
  lemma StalePartExample()
    ensures PartCount(1) == 1 && Assembled(map[1 := [1]], Pieces([2]), _ => "e", 1) == [1]
  {
    PieceAt([2], 1);
    StalePart(map[1 := [1]], Pieces([2]), _ => "e");
  }

  lemma StalePart(parts: Parts, pieces: seq<seq<byte>>, etag: seq<byte> -> string)
    requires |pieces| == 1 && 1 in parts && |parts[1]| == |pieces[0]| && etag(parts[1]) == "e"
    ensures Assembled(parts, pieces, etag, 1) == parts[1]
  {
    TrimSpaceFixes("e");
    assert Assembled(parts, pieces, etag, 0) == [];
  }

  // ---- One run -----------------------------------------------------------------------------

  datatype UploadState = UploadState(bucket: string, key: string, uploadID: string)

  /** What a run may leave: parts it found, and parts of its own file. */
  ghost predicate Derived(before: Parts, after: Parts, pieces: seq<seq<byte>>) {
    forall part :: part in after ==>
      (part in before && after[part] == before[part])
      || (1 <= part <= |pieces| && after[part] == pieces[part - 1])
  }

  /** The first n parts are provided, and the others are as they were found. */
  ghost predicate Done(existing: Parts, now: Parts, pieces: seq<seq<byte>>, etag: seq<byte> -> string, n: nat)
    requires n <= |pieces|
  {
    (forall part :: 1 <= part <= n ==> part in now && now[part] == Chosen(existing, pieces, part, etag))
    && forall part :: n < part ==> (part in now <==> part in existing) && (part in now ==> now[part] == existing[part])
  }

  ghost predicate Numbered(uploads: map<string, Parts>) {
    forall u, part :: u in uploads && part in uploads[u] ==> 1 <= part <= MAX_PARTS
  }

  function Joined(parts: Parts, n: nat): seq<byte>
    requires forall part :: 1 <= part <= n ==> part in parts
  {
    if n == 0 then [] else Joined(parts, n - 1) + parts[n]
  }

  lemma {:induction false} JoinedIsAssembled(parts: Parts, found: Parts, pieces: seq<seq<byte>>,
                                             etag: seq<byte> -> string, n: nat)
    requires n <= |pieces|
    requires Done(found, parts, pieces, etag, |pieces|)
    ensures Joined(parts, n) == Assembled(found, pieces, etag, n)
  {
    if n > 0 {
      JoinedIsAssembled(parts, found, pieces, etag, n - 1);
    }
  }

  /** The server's uploads and finished object for one bucket and key, and the saved state file,
      which is kept only for a job that has an id. */
  class Transfer {
    const etag: seq<byte> -> string
    const bucket: string
    const key: string
    const job: string
    var uploads: map<string, Parts>
    var finished: Option<seq<byte>>
    var state: Option<UploadState>
    /** Some request or access to the state file failed in this run. */
    ghost var trouble: bool

    ghost predicate Valid()
      reads this
    {
      Numbered(uploads) && (TrimSpace(job) == "" ==> state == None)
    }

    constructor (etag: seq<byte> -> string, bucket: string, key: string, job: string)
      ensures this.etag == etag && this.bucket == bucket && this.key == key && this.job == job
      ensures Valid() && uploads == map[] && finished == None && state == None && !trouble
    {
      this.etag := etag;
      this.bucket := bucket;
      this.key := key;
      this.job := job;
      uploads, finished, state, trouble := map[], None, None, false;
    }

    /** The upload a run continues, if the saved state is for this bucket and key. */
    function Resumes(): (r: Option<string>)
      reads this
      ensures forall u :: r == Some(u) <==> u != "" && state == Some(UploadState(TrimSpace(bucket), TrimSpace(key), u))
    {
      if state.Some? && state.value.bucket == TrimSpace(bucket) && state.value.key == TrimSpace(key)
         && state.value.uploadID != "" then Some(state.value.uploadID) else None
    }

    /** The parts the next run finds. */
    ghost function Found(): Parts
      reads this
    {
      if Resumes().Some? && Resumes().value in uploads then uploads[Resumes().value] else map[]
    }

    /** What makes a run fail even if every request succeeds. */
    ghost predicate Hopeless(content: seq<byte>)
      reads this
    {
      TrimSpace(bucket) == "" || TrimSpace(key) == "" || |Pieces(content)| > MAX_PARTS
      || (Resumes().Some? && Resumes().value !in uploads)
    }

    /** Starts an upload under a new id and saves the id. */
    method StartUpload() returns (id: Option<string>)
      requires Valid()
      modifies this`uploads, this`state, this`trouble
      ensures Valid() && (id == None ==> trouble)
      ensures id.Some? ==> id.value != "" && id.value in uploads && uploads[id.value] == map[]
      ensures id.Some? && TrimSpace(job) != "" ==>
                state == Some(UploadState(TrimSpace(bucket), TrimSpace(key), id.value))
      ensures id == None || TrimSpace(job) == "" ==> state == old(state)
      ensures forall u :: u in old(uploads) ==> u in uploads && uploads[u] == old(uploads)[u]
      ensures forall u :: u in uploads && u !in old(uploads) ==> uploads[u] == map[]
    {
      var granted: Option<string> := *;
      if granted == None {
        trouble := true;
        return None;
      }
      var u := TrimSpace(granted.value);
      if u == "" || u in uploads {
        trouble := true;
        return None;
      }
      uploads := uploads[u := map[]];
      if TrimSpace(job) != "" {
        var saved: bool := *;
        if !saved {
          trouble := true;
          return None;
        }
        state := Some(UploadState(TrimSpace(bucket), TrimSpace(key), u));
      }
      return Some(u);
    }

    method UploadPart(u: string, part: int, data: seq<byte>) returns (ok: bool)
      requires Valid() && u in uploads
      modifies this`uploads, this`trouble
      ensures Valid() && u in uploads && (!ok ==> trouble || !(1 <= part <= MAX_PARTS))
      ensures uploads[u] == old(uploads)[u] || uploads[u] == old(uploads)[u][part := data]
      ensures ok ==> 1 <= part <= MAX_PARTS && uploads[u] == old(uploads)[u][part := data]
    {
      var stored: bool := *;
      var replied: bool := *;
      if !stored {
        trouble := true;
      }
      if !stored || part < 1 || part > MAX_PARTS {
        return false;
      }
      uploads := uploads[u := uploads[u][part := data]];
      ok := replied && TrimSpace(etag(data)) != "";
      if !ok {
        trouble := true;
      }
    }

    /** Completing joins the listed parts into the object and ends the upload. */
    method Complete(u: string, n: nat) returns (ok: bool)
      requires Valid() && u in uploads && forall part :: 1 <= part <= n ==> part in uploads[u]
      modifies this`uploads, this`finished, this`trouble
      ensures Valid() && (!ok ==> trouble)
      ensures ok ==> finished == Some(Joined(old(uploads)[u], n))
      ensures (uploads == old(uploads) && finished == old(finished))
              || (uploads == old(uploads) - {u} && finished == Some(Joined(old(uploads)[u], n)))
    {
      var happens: bool := *;
      if !happens {
        trouble := true;
        return false;
      }
      finished := Some(Joined(uploads[u], n));
      uploads := uploads - {u};
      ok := *;
      if !ok {
        trouble := true;
      }
    }

    /** Goes through the parts in order, reusing or uploading each. */
    method UploadMissing(u: string, content: seq<byte>) returns (ok: bool)
      requires Valid() && u in uploads
      modifies this`uploads, this`trouble
      ensures Valid() && u in uploads && Derived(old(uploads)[u], uploads[u], Pieces(content))
      ensures !ok ==> trouble || |Pieces(content)| > MAX_PARTS
      ensures ok ==> Done(old(uploads)[u], uploads[u], Pieces(content), etag, |Pieces(content)|)
      ensures ok ==> forall part :: 1 <= part <= |Pieces(content)| ==>
                var found, piece := old(uploads)[u], Pieces(content)[part - 1];
                && part in uploads[u]
                && uploads[u][part]
                   == if part in found && TrimSpace(etag(found[part])) != "" && |found[part]| == |piece|
                      then found[part]
                      else piece
    {
      ghost var pieces := Pieces(content);
      var existing := uploads[u];
      var part, offset := 1, 0;
      while offset < |content|
        invariant Valid() && u in uploads
        invariant 1 <= part <= |pieces| + 1 && offset == (part - 1) * PART_SIZE
        invariant Derived(existing, uploads[u], pieces) && Done(existing, uploads[u], pieces, etag, part - 1)
        decreases |content| - offset
      {
        PieceAt(content, part);
        var size := if |content| - offset < PART_SIZE then |content| - offset else PART_SIZE;
        ok := ProvidePart(u, part, content[offset..offset + size], existing, pieces);
        if !ok {
          return;
        }
        part, offset := part + 1, offset + PART_SIZE;
      }
      PieceAt(content, part);
      return true;
    }

    method ProvidePart(u: string, part: int, data: seq<byte>, existing: Parts, ghost pieces: seq<seq<byte>>)
      returns (ok: bool)
      requires Valid() && u in uploads && 1 <= part <= |pieces| && data == pieces[part - 1]
      requires Derived(existing, uploads[u], pieces) && Done(existing, uploads[u], pieces, etag, part - 1)
      modifies this`uploads, this`trouble
      ensures Valid() && u in uploads && Derived(existing, uploads[u], pieces)
      ensures !ok ==> trouble || part > MAX_PARTS
      ensures ok ==> Done(existing, uploads[u], pieces, etag, part)
    {
      if part in existing && TrimSpace(etag(existing[part])) != "" && |existing[part]| == |data| {
        return true;
      }
      ok := UploadPart(u, part, data);
    }

    /** One run: continues the saved upload or starts one, uploads what cannot be reused, completes.
        A saved upload that the server no longer has makes every run fail. */
    method Push(content: seq<byte>) returns (ok: bool)
      requires Valid()
      modifies this
      ensures Valid()
      ensures ok ==> finished == Some(Assembled(old(Found()), Pieces(content), etag, |Pieces(content)|))
      ensures finished == old(finished)
              || finished == Some(Assembled(old(Found()), Pieces(content), etag, |Pieces(content)|))
      ensures Derived(old(Found()), Found(), Pieces(content))
      ensures !ok ==> trouble || old(Hopeless(content))
      ensures !ok && !trouble ==>
                || TrimSpace(bucket) == "" || TrimSpace(key) == "" || |Pieces(content)| > 10000
                || old(Resumes().Some? && Resumes().value !in uploads)
      ensures old(Resumes().Some? && Resumes().value !in uploads) ==>
                !ok && uploads == old(uploads) && finished == old(finished) && state == old(state)
    {
      trouble := false;
      if TrimSpace(bucket) == "" || TrimSpace(key) == "" {
        return false;
      }
      var readable: bool := *;
      if !readable {
        trouble := true;
        return false;
      }
      var u: string;
      if Resumes().Some? {
        u := Resumes().value;
        if u !in uploads {
          return false;
        }
      } else {
        var started := StartUpload();
        if started == None {
          return false;
        }
        u := started.value;
      }
      var listed: bool := *;
      if !listed {
        trouble := true;
        return false;
      }
      ok := Finish(u, content);
    }

    /** The part of a run after the server has listed upload u. */
    method Finish(u: string, content: seq<byte>) returns (ok: bool)
      requires Valid() && u in uploads && (Resumes() == Some(u) || state == None)
      modifies this
      ensures Valid()
      ensures ok ==> finished == Some(Assembled(old(uploads)[u], Pieces(content), etag, |Pieces(content)|))
      ensures finished == old(finished)
              || finished == Some(Assembled(old(uploads)[u], Pieces(content), etag, |Pieces(content)|))
      ensures Derived(old(uploads)[u], Found(), Pieces(content))
      ensures !ok ==> trouble || |Pieces(content)| > MAX_PARTS
    {
      ok := UploadMissing(u, content);
      if ok {
        ok := CompleteUpload(u, PartCount(|content|), old(uploads)[u], Pieces(content));
      }
    }

    /** Completes an upload whose parts are all there and forgets the saved state. */
    method CompleteUpload(u: string, n: nat, ghost existing: Parts, ghost pieces: seq<seq<byte>>) returns (ok: bool)
      requires Valid() && u in uploads && (Resumes() == Some(u) || state == None) && n == |pieces|
      requires Derived(existing, uploads[u], pieces) && Done(existing, uploads[u], pieces, etag, n)
      modifies this
      ensures Valid() && (!ok ==> trouble) && Derived(existing, Found(), pieces)
      ensures ok ==> finished == Some(Assembled(existing, pieces, etag, |pieces|))
      ensures finished == old(finished) || finished == Some(Assembled(existing, pieces, etag, |pieces|))
    {
      JoinedIsAssembled(uploads[u], existing, pieces, etag, n);
      ok := Complete(u, n);
      var cleaned: bool := *;
      if ok && cleaned {
        state := None;
      }
    }
  }

  // ---- Interrupted runs --------------------------------------------------------------------

  lemma DerivedStaysCurrent(before: Parts, after: Parts, pieces: seq<seq<byte>>, etag: seq<byte> -> string)
    requires Current(before, pieces, etag) && Derived(before, after, pieces)
    ensures Current(after, pieces, etag)
  {
    forall part | 1 <= part <= |pieces| && Reusable(after, pieces, part, etag)
      ensures after[part] == pieces[part - 1]
    {
      assert part in before && after[part] == before[part] ==> Reusable(before, pieces, part, etag);
    }
  }

  ghost predicate DerivedAt(found: seq<Parts>, pieces: seq<seq<byte>>, i: nat)
    requires i + 1 < |found|
  {
    Derived(found[i], found[i + 1], pieces)
  }

  lemma {:induction false} AlwaysCurrent(found: seq<Parts>, pieces: seq<seq<byte>>, etag: seq<byte> -> string, k: nat)
    requires k < |found| && found[0] == map[]
    requires forall i: nat :: i + 1 < |found| ==> DerivedAt(found, pieces, i)
    ensures Current(found[k], pieces, etag)
  {
    if k > 0 {
      AlwaysCurrent(found, pieces, etag, k - 1);
      assert DerivedAt(found, pieces, k - 1);
      DerivedStaysCurrent(found[k - 1], found[k], pieces, etag);
    }
  }

  /** However many runs on the same file were interrupted, and wherever, the next run that completes
      produces exactly the file. */
  lemma ResumedUploadIsTheFile(found: seq<Parts>, content: seq<byte>, etag: seq<byte> -> string, k: nat)
    requires k < |found| && found[0] == map[]
    requires forall i: nat :: i + 1 < |found| ==> DerivedAt(found, Pieces(content), i)
    ensures Assembled(found[k], Pieces(content), etag, |Pieces(content)|) == content
  {
    AlwaysCurrent(found, Pieces(content), etag, k);
    CompletesToFileIff(found[k], content, etag);
  }
}
