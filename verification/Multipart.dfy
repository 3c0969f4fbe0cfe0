/** The chunking loop of a multipart upload, `upload_parts` in `src/backup.rs`. */
module Multipart {
  import opened Wrappers
  import opened Bytes

  const MULTIPART_CHUNK: nat := 16 * 1024 * 1024

  const I32_MAX: int := 0x7FFF_FFFF

  /** `part_number += 1` on an i32, wrapping as a release build does. */
  function NextPart(n: int): int {
    if n == I32_MAX then -I32_MAX - 1 else n + 1
  }

  datatype Part = Part(number: int, body: Bytes)

  datatype UploadError = ReadFailed | UploadPartFailed(number: int)

  function Bodies(parts: seq<Part>): Bytes {
    if parts == [] then [] else Bodies(parts[..|parts| - 1]) + parts[|parts| - 1].body
  }

  /** The file being read: a read may fail, which `failed` records, or return any non-empty amount up to what is asked and left. */
  class Source {
    const data: Bytes
    var pos: nat
    ghost var failed: bool

    constructor (data: Bytes)
      ensures this.data == data && pos == 0 && !failed
    {
      this.data, pos, failed := data, 0, false;
    }

    method Read(buf: array<byte>, start: nat) returns (n: Option<nat>)
      requires pos <= |data| && start <= buf.Length && !failed
      modifies this`pos, this`failed, buf
      ensures pos <= |data|
      ensures n.None? <==> failed
      ensures n.Some? ==> start + n.value <= buf.Length && pos == old(pos) + n.value
      ensures n.Some? ==> buf[..start + n.value] == old(buf[..start]) + data[old(pos)..pos]
      ensures n == Some(0) ==> start == buf.Length || pos == |data|
      ensures n.None? ==> pos == old(pos)
    {
      var fails: bool := *;
      if fails {
        failed := true;
        return None;
      }
      if start == buf.Length || pos == |data| {
        assert data[pos..pos] == [];
        return Some(0);
      }
      var k: nat :| 1 <= k <= buf.Length - start && k <= |data| - pos;
      forall i | 0 <= i < k {
        buf[start + i] := data[pos + i];
      }
      pos := pos + k;
      return Some(k);
    }
  }

  /** The store the parts go to: an upload may fail, which `failed` records. */
  class Store {
    var stored: seq<Part>
    ghost var failed: bool

    constructor ()
      ensures stored == [] && !failed
    {
      stored, failed := [], false;
    }

    method UploadPart(part: Part) returns (ok: bool)
      requires !failed
      modifies this
      ensures ok <==> !failed
      ensures stored == if ok then old(stored) + [part] else old(stored)
    {
      ok := *;
      if ok {
        stored := stored + [part];
      } else {
        failed := true;
      }
    }
  }

  /** How many parts a file of this length needs. */
  function PartCount(length: nat): nat {
    (length + MULTIPART_CHUNK - 1) / MULTIPART_CHUNK
  }

  function PartNumber(i: nat): int {
    if i == 0 then 1 else NextPart(PartNumber(i - 1))
  }

  /** Every part but possibly the last is a full chunk, none is empty, and the numbers count up from 1. */
  ghost predicate WellCut(parts: seq<Part>) {
    && (forall i :: 0 <= i < |parts| ==> 0 < |parts[i].body| <= MULTIPART_CHUNK && parts[i].number == PartNumber(i))
    && (forall i :: 0 <= i < |parts| - 1 ==> |parts[i].body| == MULTIPART_CHUNK)
  }

  lemma AppendPart(parts: seq<Part>, part: Part)
    requires WellCut(parts) && 0 < |part.body| <= MULTIPART_CHUNK && part.number == PartNumber(|parts|)
    requires parts != [] ==> |parts[|parts| - 1].body| == MULTIPART_CHUNK
    ensures WellCut(parts + [part]) && Bodies(parts + [part]) == Bodies(parts) + part.body
  {
    assert (parts + [part])[..|parts|] == parts;
  }

  lemma Extend(data: Bytes, i: nat, j: nat)
    requires i <= j <= |data|
    ensures data[..j] == data[..i] + data[i..j]
  {
  }

  /** Fills the buffer as far as the file allows, over as many short reads as it takes. */
  method FillChunk(file: Source, buf: array<byte>) returns (filled: Option<nat>)
    requires file.pos <= |file.data| && !file.failed
    modifies file`pos, file`failed, buf
    ensures file.pos <= |file.data|
    ensures filled.None? <==> file.failed
    ensures filled.Some? ==> filled.value <= buf.Length && file.pos == old(file.pos) + filled.value
    ensures filled.Some? ==> buf[..filled.value] == file.data[old(file.pos)..file.pos]
    ensures filled.Some? && filled.value < buf.Length ==> file.pos == |file.data|
  {
    var n := 0;
    while true
      invariant n <= buf.Length && file.pos <= |file.data| && file.pos == old(file.pos) + n
      invariant buf[..n] == file.data[old(file.pos)..file.pos]
      invariant (n < buf.Length || n == 0) && !file.failed
      decreases buf.Length - n
    {
      ghost var before := file.pos;
      var r := file.Read(buf, n);
      if r.None? {
        return None;
      }
      assert file.data[old(file.pos)..file.pos] == file.data[old(file.pos)..before] + file.data[before..file.pos];
      if r.value == 0 {
        break;
      }
      n := n + r.value;
      if n == buf.Length {
        break;
      }
    }
    return Some(n);
  }

  /** What is stored so far: a well-cut beginning of the file, in full chunks unless the file is at its end. */
  ghost predicate StoredUpTo(parts: seq<Part>, data: Bytes, pos: nat) {
    && pos <= |data| && WellCut(parts) && Bodies(parts) == data[..pos]
    && (parts != [] && |parts[|parts| - 1].body| < MULTIPART_CHUNK ==> pos == |data|)
  }

  lemma StoredMore(parts: seq<Part>, part: Part, data: Bytes, i: nat, j: nat)
    requires StoredUpTo(parts, data, i) && i < j <= |data| && part.body == data[i..j]
    requires part.number == PartNumber(|parts|)
    requires j - i <= MULTIPART_CHUNK && (j - i < MULTIPART_CHUNK ==> j == |data|)
    ensures StoredUpTo(parts + [part], data, j)
  {
    AppendPart(parts, part);
    Extend(data, i, j);
  }

  /** At any point what is stored is the beginning of the file, and at its end the file. */
  lemma StoredIs(parts: seq<Part>, data: Bytes, pos: nat)
    requires StoredUpTo(parts, data, pos)
    ensures WellCut(parts) && Bodies(parts) <= data
    ensures pos == |data| ==> Bodies(parts) == data
  {
    assert pos == |data| ==> data[..pos] == data;
  }

  /** One upload: the bytes from `i` to `j` of the file as the next part. */
  method StorePart(store: Store, part: Part, ghost data: Bytes, ghost i: nat, ghost j: nat) returns (ok: bool)
    requires !store.failed && StoredUpTo(store.stored, data, i) && i < j <= |data| && part.body == data[i..j]
    requires part.number == PartNumber(|store.stored|)
    requires j - i <= MULTIPART_CHUNK && (j - i < MULTIPART_CHUNK ==> j == |data|)
    modifies store
    ensures ok <==> !store.failed
    ensures store.stored == if ok then old(store.stored) + [part] else old(store.stored)
    ensures StoredUpTo(store.stored, data, if ok then j else i)
  {
    StoredMore(store.stored, part, data, i, j);
    ok := store.UploadPart(part);
  }

  /**
   * For every schedule of short reads: the upload succeeds exactly when no read and
   * no upload fails, and then the parts are the file, cut into full chunks and one
   * remainder; an error names the failure that happened. What is stored is always
   * a well-cut beginning of the file.
   */
  method UploadParts(file: Source, store: Store) returns (r: Result<(seq<Part>, nat), UploadError>)
    requires file.pos == 0 && !file.failed && !store.failed && store.stored == []
    modifies file`pos, file`failed, store
    ensures r.Ok? <==> !file.failed && !store.failed
    ensures r == Err(ReadFailed) <==> file.failed
    ensures r.Err? && !file.failed ==> r.error == UploadPartFailed(PartNumber(|store.stored|))
    ensures r.Ok? ==> WellCut(r.value.0) && Bodies(r.value.0) == file.data && r.value.1 == |file.data|
    ensures r.Ok? ==> r.value.0 == store.stored
    ensures WellCut(store.stored) && Bodies(store.stored) <= file.data
  {
    var buf := new byte[MULTIPART_CHUNK];
    var parts: seq<Part> := [];
    var partNumber := 1;
    var total := 0;
    while true
      invariant fresh(buf) && buf.Length == MULTIPART_CHUNK
      invariant !file.failed && !store.failed && parts == store.stored && total == file.pos
      invariant StoredUpTo(parts, file.data, file.pos) && partNumber == PartNumber(|parts|)
      decreases |file.data| - file.pos
    {
      ghost var before := file.pos;
      StoredIs(parts, file.data, before);
      var filled := FillChunk(file, buf);
      if filled.None? {
        return Err(ReadFailed);
      }
      if filled.value == 0 {
        break;
      }
      total := total + filled.value;
      var part := Part(partNumber, buf[..filled.value]);
      var uploaded := StorePart(store, part, file.data, before, file.pos);
      if !uploaded {
        return Err(UploadPartFailed(partNumber));
      }
      parts := parts + [part];
      partNumber := NextPart(partNumber);
    }
    return Ok((parts, total));
  }

  /** The contract leaves one outcome: parts that are well cut from the same file are the same parts. */
  lemma {:induction false} CutIsUnique(p: seq<Part>, q: seq<Part>)
    requires WellCut(p) && WellCut(q) && Bodies(p) == Bodies(q)
    ensures p == q
  {
    BodiesLength(p);
    BodiesLength(q);
    if p == [] {
    } else {
      SplitLast(p);
      SplitLast(q);
      var n := |p| - 1;
      CutIsUnique(p[..n], q[..n]);
      assert p == p[..n] + [p[n]] && q == q[..n] + [q[n]];
    }
  }

  lemma SplitLast(parts: seq<Part>)
    requires WellCut(parts) && parts != []
    ensures var n := |parts| - 1;
            && WellCut(parts[..n])
            && n * MULTIPART_CHUNK <= |Bodies(parts)|
            && Bodies(parts[..n]) == Bodies(parts)[..n * MULTIPART_CHUNK]
            && parts[n] == Part(PartNumber(n), Bodies(parts)[n * MULTIPART_CHUNK..])
  {
    FullLength(parts, |parts| - 1);
  }

  lemma {:induction false} FullLength(parts: seq<Part>, n: nat)
    requires WellCut(parts) && n < |parts|
    ensures |Bodies(parts[..n])| == n * MULTIPART_CHUNK
  {
    if n <= 0 {
    } else {
      FullLength(parts, n - 1);
      assert parts[..n][..n - 1] == parts[..n - 1];
    }
  }

  lemma RoundUp(n: nat, rest: nat)
    requires 0 < rest <= MULTIPART_CHUNK
    ensures PartCount(n * MULTIPART_CHUNK + rest) == n + 1
  {
    var excess := rest - 1;
    assert n * MULTIPART_CHUNK + rest + MULTIPART_CHUNK - 1 == (n + 1) * MULTIPART_CHUNK + excess;
    assert ((n + 1) * MULTIPART_CHUNK + excess) / MULTIPART_CHUNK == n + 1;
  }

  /** As many parts as full chunks cover the length, rounded up. */
  lemma BodiesLength(parts: seq<Part>)
    requires WellCut(parts)
    ensures |parts| == PartCount(|Bodies(parts)|) == (|Bodies(parts)| + 16777215) / 16777216
  {
    if parts != [] {
      FullLength(parts, |parts| - 1);
      RoundUp(|parts| - 1, |parts[|parts| - 1].body|);
    }
  }

  /** The numbers are 1, 2, …, k exactly while k fits an i32; file lengths past that wrap. */
  lemma {:induction false} NumbersCountUp(k: nat)
    ensures (forall i :: 0 <= i < k ==> PartNumber(i) == i + 1) <==> k <= I32_MAX
  {
    if k <= I32_MAX {
      if k > 0 { NumbersCountUp(k - 1); }
      if k > 1 { assert PartNumber(k - 2) == k - 1; }
    } else {
      NumbersCountUp(I32_MAX);
      assert PartNumber(I32_MAX - 1) == I32_MAX;
      assert PartNumber(I32_MAX) == NextPart(PartNumber(I32_MAX - 1));
    }
  }
}
