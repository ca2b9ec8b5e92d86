/** Resuming an interrupted program deploy: which buffers may be written into, and what a full write leaves. */
module DeployBuffers {
  import opened Results
  import opened Positional

  const BUFFER_HEADER: nat := 37
  const BUFFER_TAG: int := 1

  type Bytes = seq<nat>

  datatype BufferState = BufferState(
    tag: int,
    hasAuthority: bool,
    written: nat,
    capacity: nat,
    firstMismatch: Option<nat>,
    resumable: bool)

  /** The first four bytes, little endian; -1 when there are fewer. */
  function TagOf(data: Bytes): int {
    if |data| >= 4 then data[0] + 0x100 * data[1] + 0x10000 * data[2] + 0x1000000 * data[3] else -1
  }

  /** The tag is the numeral of the first four bytes with the last one in front; a buffer's starts 1, 0, 0, 0. */
  lemma TagIsLittleEndian(data: Bytes)
    requires |data| >= 4 && forall i :: 0 <= i < 4 ==> data[i] < 0x100
    ensures TagOf(data) == Value([data[3], data[2], data[1], data[0]], 0x100)
    ensures TagOf(data) == BUFFER_TAG <==> data[..4] == [1, 0, 0, 0]
  {
    assert Value([], 0x100) == 0;
    assert [data[3]][..0] == [] && [data[3], data[2]][..1] == [data[3]];
    assert [data[3], data[2], data[1]][..2] == [data[3], data[2]];
    assert [data[3], data[2], data[1], data[0]][..3] == [data[3], data[2], data[1]];
    assert data[..4] == [data[0], data[1], data[2], data[3]];
    var a, b, c := Value([data[3]], 0x100), Value([data[3], data[2]], 0x100), Value([data[3], data[2], data[1]], 0x100);
    assert a == data[3] && b == a * 0x100 + data[2] && c == b * 0x100 + data[1];
  }

  function PayloadOf(data: Bytes): Bytes {
    if |data| < BUFFER_HEADER then [] else data[BUFFER_HEADER..]
  }

  /** The ELF begins behind 37 bytes of header; shorter data holds none of it. */
  lemma PayloadIs(data: Bytes)
    ensures |data| < 37 ==> PayloadOf(data) == []
    ensures |data| >= 37 ==> |PayloadOf(data)| == |data| - 37 && forall i :: 37 <= i < |data| ==> PayloadOf(data)[i - 37] == data[i]
  {
  }

  function Expected(elf: Bytes, i: nat): nat { if i < |elf| then elf[i] else 0 }

  /** A written byte that contradicts the ELF; a zero proves nothing. */
  predicate Contradicts(payload: Bytes, elf: Bytes, i: nat)
    requires i < |payload|
  {
    payload[i] != Expected(elf, i) && payload[i] != 0
  }

  /** How many leading bytes already equal the ELF. */
  function CommonPrefix(payload: Bytes, elf: Bytes): (n: nat)
    ensures n <= |payload| && n <= |elf| && payload[..n] == elf[..n]
    ensures n < |payload| && n < |elf| ==> payload[n] != elf[n]
  {
    if payload == [] || elf == [] || payload[0] != elf[0] then 0
    else
      var m := CommonPrefix(payload[1..], elf[1..]);
      assert payload[..m + 1] == [payload[0]] + payload[1..][..m] && elf[..m + 1] == [elf[0]] + elf[1..][..m];
      m + 1
  }

  /** The comparison as the script makes it: one loop for the written prefix, one for a contradiction. */
  method InspectDeployBuffer(data: Bytes, elf: Bytes) returns (s: BufferState)
    ensures s.tag == TagOf(data) && s.capacity == |PayloadOf(data)| && s.written == CommonPrefix(PayloadOf(data), elf)
    ensures s.hasAuthority <==> s.tag == BUFFER_TAG && |data| >= BUFFER_HEADER && data[4] == 1
    ensures s.firstMismatch.Some? ==> s.firstMismatch.value < s.capacity && Contradicts(PayloadOf(data), elf, s.firstMismatch.value)
    ensures forall i :: 0 <= i < (if s.firstMismatch.Some? then s.firstMismatch.value else s.capacity) ==>
              !Contradicts(PayloadOf(data), elf, i)
    ensures s.resumable <==> s.tag == BUFFER_TAG && Resumable(PayloadOf(data), elf)
  {
    var tag := if |data| >= 4 then data[0] + 0x100 * data[1] + 0x10000 * data[2] + 0x1000000 * data[3] else -1;
    var authority := tag == BUFFER_TAG && |data| >= BUFFER_HEADER && data[4] == 1;
    var payload := PayloadOf(data);
    var written := 0;
    while written < |payload| && written < |elf| && payload[written] == elf[written]
      invariant 0 <= written <= |payload| && written <= |elf| && payload[..written] == elf[..written]
    {
      written := written + 1;
    }
    PrefixIsUnique(payload, elf, written);
    var firstMismatch: Option<nat> := None;
    var i := 0;
    while i < |payload|
      invariant 0 <= i <= |payload| && firstMismatch.None?
      invariant forall j :: 0 <= j < i ==> !Contradicts(payload, elf, j)
    {
      var expected := if i < |elf| then elf[i] else 0;
      if payload[i] != expected && payload[i] != 0 {
        assert Contradicts(payload, elf, i);
        firstMismatch := Some(i);
        break;
      }
      i := i + 1;
    }
    s := BufferState(tag, authority, written, |payload|, firstMismatch, tag == BUFFER_TAG && firstMismatch.None?);
  }

  lemma PrefixIsUnique(payload: Bytes, elf: Bytes, n: nat)
    requires n <= |payload| && n <= |elf| && payload[..n] == elf[..n]
    requires n < |payload| && n < |elf| ==> payload[n] != elf[n]
    ensures CommonPrefix(payload, elf) == n
  {
    SamePrefix(payload, elf, CommonPrefix(payload, elf));
    SamePrefix(payload, elf, n);
  }

  lemma SamePrefix(payload: Bytes, elf: Bytes, n: nat)
    requires n <= |payload| && n <= |elf| && payload[..n] == elf[..n]
    ensures forall i :: 0 <= i < n ==> payload[i] == elf[i]
  {
    assert forall i :: 0 <= i < n ==> payload[..n][i] == elf[..n][i];
  }

  /** Every payload byte is zero or the one the finished buffer would hold there. */
  predicate Resumable(payload: Bytes, elf: Bytes) {
    forall i :: 0 <= i < |payload| ==> !Contradicts(payload, elf, i)
  }

  // ------------------------------------------------------------ writing chunks

  /** A chunk of the ELF, written at its own offset. */
  datatype Chunk = Chunk(start: nat, end: nat)

  predicate InBounds(c: Chunk, payload: Bytes, elf: Bytes) {
    c.start <= c.end <= |elf| && c.end <= |payload|
  }

  function Write(payload: Bytes, elf: Bytes, c: Chunk): (r: Bytes)
    requires InBounds(c, payload, elf)
    ensures |r| == |payload|
    ensures forall i :: 0 <= i < |payload| ==> r[i] == if c.start <= i < c.end then elf[i] else payload[i]
  {
    payload[..c.start] + elf[c.start..c.end] + payload[c.end..]
  }

  predicate AllInBounds(chunks: seq<Chunk>, payload: Bytes, elf: Bytes) {
    forall k :: 0 <= k < |chunks| ==> InBounds(chunks[k], payload, elf)
  }

  function WriteAll(payload: Bytes, elf: Bytes, chunks: seq<Chunk>): (r: Bytes)
    requires AllInBounds(chunks, payload, elf)
    ensures |r| == |payload|
    decreases |chunks|
  {
    if chunks == [] then payload else WriteAll(Write(payload, elf, chunks[0]), elf, chunks[1..])
  }

  predicate Covered(chunks: seq<Chunk>, i: nat) {
    exists k :: 0 <= k < |chunks| && chunks[k].start <= i < chunks[k].end
  }

  /** Whatever the chunks and their order: a byte they cover is the ELF's, any other keeps its value. */
  lemma {:induction false} WrittenBytes(payload: Bytes, elf: Bytes, chunks: seq<Chunk>, i: nat)
    requires AllInBounds(chunks, payload, elf) && i < |payload|
    ensures Covered(chunks, i) ==> i < |elf|
    ensures WriteAll(payload, elf, chunks)[i] == if Covered(chunks, i) then elf[i] else payload[i]
    decreases |chunks|
  {
    if chunks != [] {
      var next, rest := Write(payload, elf, chunks[0]), chunks[1..];
      WrittenBytes(next, elf, rest, i);
      assert Covered(rest, i) ==> Covered(chunks, i) by {
        if Covered(rest, i) {
          var k :| 0 <= k < |rest| && rest[k].start <= i < rest[k].end;
          assert chunks[k + 1].start <= i < chunks[k + 1].end;
        }
      }
      assert Covered(chunks, i) ==> (chunks[0].start <= i < chunks[0].end) || Covered(rest, i) by {
        if Covered(chunks, i) {
          var k :| 0 <= k < |chunks| && chunks[k].start <= i < chunks[k].end;
          assert k > 0 ==> rest[k - 1].start <= i < rest[k - 1].end;
        }
      }
    }
  }

  /** Any partial write of the ELF leaves a resumable buffer resumable, and never lowers the written prefix. */
  lemma PartialWritesResume(payload: Bytes, elf: Bytes, chunks: seq<Chunk>)
    requires AllInBounds(chunks, payload, elf) && Resumable(payload, elf)
    ensures Resumable(WriteAll(payload, elf, chunks), elf)
    ensures CommonPrefix(WriteAll(payload, elf, chunks), elf) >= CommonPrefix(payload, elf)
  {
    var r := WriteAll(payload, elf, chunks);
    forall i | 0 <= i < |r| ensures !Contradicts(r, elf, i) {
      WrittenBytes(payload, elf, chunks, i);
      assert !Contradicts(payload, elf, i);
    }
    var was := CommonPrefix(payload, elf);
    SamePrefix(payload, elf, was);
    forall i | 0 <= i < was ensures r[i] == elf[i] {
      WrittenBytes(payload, elf, chunks, i);
    }
  }

  /** The finished buffer: the ELF and zero padding. */
  function Finished(elf: Bytes, capacity: nat): Bytes
    requires |elf| <= capacity
  {
    elf + Zeros(capacity - |elf|)
  }

  /** Writing all of the ELF into a resumable buffer that can hold it gives the ELF and zeros, whatever was there. */
  lemma FullWriteFinishes(payload: Bytes, elf: Bytes, chunks: seq<Chunk>)
    requires AllInBounds(chunks, payload, elf) && Resumable(payload, elf) && |elf| <= |payload|
    requires forall i :: 0 <= i < |elf| ==> Covered(chunks, i)
    ensures WriteAll(payload, elf, chunks) == Finished(elf, |payload|)
  {
    var r := WriteAll(payload, elf, chunks);
    forall i | 0 <= i < |r| ensures r[i] == Finished(elf, |payload|)[i] {
      WrittenBytes(payload, elf, chunks, i);
      assert !Contradicts(payload, elf, i);
    }
  }

  /** The single-byte chunks at which a buffer already agrees with the ELF. */
  function Agreeing(payload: Bytes, elf: Bytes, n: nat): (chunks: seq<Chunk>)
    requires n <= |payload| && n <= |elf|
    ensures forall k :: 0 <= k < |chunks| ==> chunks[k].end == chunks[k].start + 1 && chunks[k].end <= n
    ensures forall i :: 0 <= i < n ==> (Covered(chunks, i) <==> payload[i] == elf[i])
  {
    if n == 0 then []
    else
      var before := Agreeing(payload, elf, n - 1);
      if payload[n - 1] != elf[n - 1] then before
      else
        var chunks := before + [Chunk(n - 1, n)];
        assert forall k :: 0 <= k < |before| ==> chunks[k] == before[k];
        assert chunks[|before|] == Chunk(n - 1, n);
        assert forall i :: 0 <= i < n - 1 ==> (Covered(chunks, i) <==> Covered(before, i));
        chunks
  }

  /** These partial writes, into a zeroed buffer, give this payload. */
  predicate Produces(chunks: seq<Chunk>, payload: Bytes, elf: Bytes) {
    AllInBounds(chunks, Zeros(|payload|), elf) && WriteAll(Zeros(|payload|), elf, chunks) == payload
  }

  /**
   * A buffer is resumable exactly when some partial writes of this ELF into a zeroed buffer produce it:
   * the check accepts every interrupted deploy of the ELF and nothing else.
   */
  lemma ResumableIffInterrupted(payload: Bytes, elf: Bytes)
    ensures Resumable(payload, elf) <==>
            exists chunks :: Produces(chunks, payload, elf)
  {
    var zeros := Zeros(|payload|);
    if Resumable(payload, elf) {
      var n := if |payload| < |elf| then |payload| else |elf|;
      var chunks := Agreeing(payload, elf, n);
      assert AllInBounds(chunks, zeros, elf);
      var r := WriteAll(zeros, elf, chunks);
      forall i | 0 <= i < |payload| ensures r[i] == payload[i] {
        WrittenBytes(zeros, elf, chunks, i);
        assert !Contradicts(payload, elf, i);
      }
      assert r == payload;
      assert Produces(chunks, payload, elf);
    }
    if exists chunks :: Produces(chunks, payload, elf) {
      var chunks :| Produces(chunks, payload, elf);
      assert Resumable(zeros, elf);
      PartialWritesResume(zeros, elf, chunks);
    }
  }

  // ------------------------------------------------------------ the deployed program

  datatype ProgramElf = ProgramElf(sha: string, size: nat, prefixSha: Option<string>, paddingZero: bool)

  /** What is read of a deployed program: hashes of the payload and of its first `prefixBytes` bytes. */
  function ReadProgram(payload: Bytes, prefixBytes: nat, sha: Bytes -> string): ProgramElf {
    if |payload| >= prefixBytes
    then ProgramElf(sha(payload), |payload|, Some(sha(payload[..prefixBytes])),
                    forall i :: prefixBytes <= i < |payload| ==> payload[i] == 0)
    else ProgramElf(sha(payload), |payload|, None, false)
  }

  predicate ElfMatches(deployed: Option<ProgramElf>, localSha: string, localBytes: nat) {
    if deployed.None? || localSha == "" then false
    else if deployed.value.size == localBytes then deployed.value.sha == localSha
    else deployed.value.prefixSha == Some(localSha) && deployed.value.paddingZero
  }

  /**
   * The check on a deployed program accepts the ELF followed by zeros, at any capacity; and where the
   * hash tells the ELF from every other text, it accepts nothing else.
   */
  lemma MatchesIff(payload: Bytes, elf: Bytes, sha: Bytes -> string)
    requires sha(elf) != ""
    ensures |elf| <= |payload| && payload == Finished(elf, |payload|) ==>
              ElfMatches(Some(ReadProgram(payload, |elf|, sha)), sha(elf), |elf|)
    ensures (forall other :: sha(other) == sha(elf) ==> other == elf)
            && ElfMatches(Some(ReadProgram(payload, |elf|, sha)), sha(elf), |elf|) ==>
              |elf| <= |payload| && payload == Finished(elf, |payload|)
  {
    if |elf| <= |payload| {
      var rest := Zeros(|payload| - |elf|);
      if payload == elf + rest {
        assert payload[..|elf|] == elf;
        assert forall i :: |elf| <= i < |payload| ==> payload[i] == rest[i - |elf|];
        assert |payload| == |elf| ==> payload == elf;
      }
      if payload[..|elf|] == elf && forall i :: |elf| <= i < |payload| ==> payload[i] == 0 {
        assert payload == elf + rest;
      }
      assert |payload| == |elf| ==> payload[..|elf|] == payload;
    }
  }
}
