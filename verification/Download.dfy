/** The two callbacks that receive a download: buffered into a file, or gathered in memory
    (source/download.cpp). */
module Download {
  type Byte = bv8

  const ONE_MO: nat := 1_000_000

  function Flatten(chunks: seq<seq<Byte>>): seq<Byte> {
    if chunks == [] then [] else Flatten(chunks[..|chunks| - 1]) + chunks[|chunks| - 1]
  }

  lemma FlattenMore(chunks: seq<seq<Byte>>, i: nat)
    requires i < |chunks|
    ensures Flatten(chunks[..i + 1]) == Flatten(chunks[..i]) + chunks[i]
  {
    assert chunks[..i + 1][..i] == chunks[..i];
  }

  lemma FlattenStart(chunks: seq<seq<Byte>>, i: nat)
    requires i <= |chunks|
    ensures Flatten(chunks[..i]) <= Flatten(chunks)
    decreases |chunks| - i
  {
    if i < |chunks| {
      FlattenMore(chunks, i);
      FlattenStart(chunks, i + 1);
    } else {
      assert chunks[..i] == chunks;
    }
  }

  // ---------------------------------------------------------------- what is written when

  /** The blocks handed to fwrite so far, and the bytes in the buffer. */
  datatype Plan = Plan(sent: seq<seq<Byte>>, buffered: seq<Byte>)

  const NOTHING := Plan([], [])

  function Flushed(p: Plan): Plan {
    if p.buffered == [] then p else Plan(p.sent + [p.buffered], [])
  }

  /** One more chunk, with a buffer of `size` bytes: a chunk that fills the buffer is written
      behind what is buffered, and one that does not fit any more makes room. */
  function Fed(p: Plan, chunk: seq<Byte>, size: nat): Plan {
    if |chunk| >= size then Plan(Flushed(p).sent + [chunk], [])
    else if |p.buffered| + |chunk| > size then Plan(p.sent + [p.buffered], chunk)
    else Plan(p.sent, p.buffered + chunk)
  }

  function Planned(chunks: seq<seq<Byte>>, size: nat): Plan {
    if chunks == [] then NOTHING else Fed(Planned(chunks[..|chunks| - 1], size), chunks[|chunks| - 1], size)
  }

  /** All blocks that a download hands to fwrite, the last flush included. */
  function Writes(chunks: seq<seq<Byte>>): seq<seq<Byte>> {
    Flushed(Planned(chunks, ONE_MO)).sent
  }

  lemma PlannedMore(chunks: seq<seq<Byte>>, i: nat, size: nat)
    requires i < |chunks|
    ensures Planned(chunks[..i + 1], size) == Fed(Planned(chunks[..i], size), chunks[i], size)
  {
    assert chunks[..i + 1][..i] == chunks[..i];
  }

  lemma FlattenAppend(blocks: seq<seq<Byte>>, b: seq<Byte>)
    ensures Flatten(blocks + [b]) == Flatten(blocks) + b
  {
    assert (blocks + [b])[..|blocks|] == blocks;
  }

  lemma FedKeeps(p: Plan, chunk: seq<Byte>, size: nat)
    ensures var q := Fed(p, chunk, size);
      Flatten(q.sent) + q.buffered == Flatten(p.sent) + p.buffered + chunk
  {
    if |chunk| >= size {
      FlattenAppend(p.sent, p.buffered);
      FlattenAppend(Flushed(p).sent, chunk);
    } else if |p.buffered| + |chunk| > size {
      FlattenAppend(p.sent, p.buffered);
    } else {
      assert Flatten(p.sent) + (p.buffered + chunk) == Flatten(p.sent) + p.buffered + chunk;
    }
  }

  /** No byte is dropped, doubled or moved: written and buffered blocks are the chunks. */
  lemma {:induction false} PlannedKeeps(chunks: seq<seq<Byte>>, size: nat)
    ensures var p := Planned(chunks, size); Flatten(p.sent) + p.buffered == Flatten(chunks)
    decreases |chunks|
  {
    if chunks != [] {
      PlannedKeeps(chunks[..|chunks| - 1], size);
      FedKeeps(Planned(chunks[..|chunks| - 1], size), chunks[|chunks| - 1], size);
    }
  }

  /** Together the writes of a download are its data. */
  lemma WritesAreData(chunks: seq<seq<Byte>>)
    ensures Flatten(Writes(chunks)) == Flatten(chunks)
  {
    var p := Planned(chunks, ONE_MO);
    PlannedKeeps(chunks, ONE_MO);
    FlattenAppend(p.sent, p.buffered);
  }

  // ---------------------------------------------------------------- how often is written

  /** Any two writes in a row, the pending one included, have more than `size` bytes. */
  ghost predicate Dense(p: Plan, size: nat) {
    && |p.buffered| <= size && (forall i :: 0 <= i < |p.sent| ==> p.sent[i] != [])
    && (forall i, j :: 0 <= i < |p.sent| && 0 <= j < |p.sent| && j == i + 1 ==> |p.sent[i]| + |p.sent[j]| > size)
    && (p.sent != [] ==>
          var last := |p.sent[|p.sent| - 1]|;
          last + |p.buffered| >= size && (p.buffered != [] ==> last + |p.buffered| > size))
  }

  lemma FedDense(p: Plan, chunk: seq<Byte>, size: nat)
    requires Dense(p, size) && 0 < size
    ensures Dense(Fed(p, chunk, size), size)
  {
  }

  lemma {:induction false} PlannedDense(chunks: seq<seq<Byte>>, size: nat)
    requires 0 < size
    ensures Dense(Planned(chunks, size), size)
    decreases |chunks|
  {
    if chunks != [] {
      PlannedDense(chunks[..|chunks| - 1], size);
      FedDense(Planned(chunks[..|chunks| - 1], size), chunks[|chunks| - 1], size);
    }
  }

  lemma {:induction false} TwoBlocks(blocks: seq<seq<Byte>>)
    requires |blocks| >= 2
    ensures |blocks[0]| + |blocks[1]| <= |Flatten(blocks)|
    decreases |blocks|
  {
    var n := |blocks| - 1;
    if n > 1 {
      TwoBlocks(blocks[..n]);
    } else {
      assert blocks == [blocks[0], blocks[1]] && blocks[..1] == [blocks[0]] && [blocks[0]][..0] == [];
    }
  }

  /** No write is empty, and any two in a row have more than a million bytes. */
  ghost predicate Collected(w: seq<seq<Byte>>) {
    && (forall i :: 0 <= i < |w| ==> w[i] != [])
    && (forall i, j :: 0 <= i < |w| && 0 <= j < |w| && j == i + 1 ==> |w[i]| + |w[j]| > 1_000_000)
  }

  /** Small chunks are collected, and data of up to a million bytes are written at once. */
  lemma WritesAreLarge(chunks: seq<seq<Byte>>)
    ensures var w, data := Writes(chunks), Flatten(chunks);
      && Collected(w)
      && (|data| <= 1_000_000 ==> w == if data == [] then [] else [data])
  {
    var w := Writes(chunks);
    assert Collected(w) by {
      PlannedDense(chunks, ONE_MO);
      FlushedDense(Planned(chunks, ONE_MO));
    }
    WritesAreData(chunks);
    OneBlock(w);
  }

  lemma FlushedDense(p: Plan)
    requires Dense(p, 1_000_000)
    ensures Collected(Flushed(p).sent)
  {
  }

  lemma OneBlock(w: seq<seq<Byte>>)
    requires Collected(w)
    ensures |Flatten(w)| <= 1_000_000 ==> w == if Flatten(w) == [] then [] else [Flatten(w)]
  {
    if |w| >= 2 {
      TwoBlocks(w);
      assert |w[0]| + |w[1]| > 1_000_000;
    } else if |w| == 1 {
      assert w[..0] == [] && Flatten(w) == w[0];
    }
  }

  // ---------------------------------------------------------------- what the disk takes

  /** How many bytes the disk takes at the n-th write. */
  type Disk = nat -> nat

  function Part(block: seq<Byte>, n: nat, disk: Disk): (part: seq<Byte>)
    ensures part <= block && (part == block <==> |block| <= disk(n))
  {
    if |block| <= disk(n) then block else block[..disk(n)]
  }

  /** The file after these writes. */
  function Taken(blocks: seq<seq<Byte>>, disk: Disk): seq<Byte> {
    if blocks == [] then []
    else
      var n := |blocks| - 1;
      Taken(blocks[..n], disk) + Part(blocks[n], n, disk)
  }

  lemma TakenAppend(blocks: seq<seq<Byte>>, b: seq<Byte>, disk: Disk)
    ensures Taken(blocks + [b], disk) == Taken(blocks, disk) + Part(b, |blocks|, disk)
  {
    assert (blocks + [b])[..|blocks|] == blocks;
  }

  /** No write is short. */
  ghost predicate AllTaken(blocks: seq<seq<Byte>>, disk: Disk) {
    forall i :: 0 <= i < |blocks| ==> |blocks[i]| <= disk(i)
  }

  /** Nothing is missing exactly if no write is short; and what is missing shows in the length. */
  lemma {:induction false} TakenIsAll(blocks: seq<seq<Byte>>, disk: Disk)
    ensures |Taken(blocks, disk)| <= |Flatten(blocks)|
    ensures Taken(blocks, disk) == Flatten(blocks) <==> AllTaken(blocks, disk)
    ensures |Taken(blocks, disk)| == |Flatten(blocks)| <==> AllTaken(blocks, disk)
    decreases |blocks|
  {
    if blocks != [] {
      var n := |blocks| - 1;
      TakenIsAll(blocks[..n], disk);
      assert AllTaken(blocks, disk) <==> AllTaken(blocks[..n], disk) && |blocks[n]| <= disk(n) by {
        assert forall i :: 0 <= i < n ==> blocks[..n][i] == blocks[i];
      }
    }
  }

  lemma {:induction false} BlockFits(blocks: seq<seq<Byte>>, i: nat)
    requires i < |blocks|
    ensures |blocks[i]| <= |Flatten(blocks)|
    decreases |blocks|
  {
    if i < |blocks| - 1 {
      BlockFits(blocks[..|blocks| - 1], i);
    }
  }

  lemma DiskTakesAll(blocks: seq<seq<Byte>>, disk: Disk)
    requires forall n :: |Flatten(blocks)| <= disk(n)
    ensures AllTaken(blocks, disk)
  {
    forall i | 0 <= i < |blocks|
      ensures |blocks[i]| <= disk(i)
    {
      BlockFits(blocks, i);
    }
  }

  /** The file is complete. */
  ghost predicate Complete(chunks: seq<seq<Byte>>, disk: Disk) {
    AllTaken(Writes(chunks), disk)
  }

  /** The download is reported as a success: the last flush, if any, is not short. */
  predicate Reported(chunks: seq<seq<Byte>>, disk: Disk) {
    var p := Planned(chunks, ONE_MO);
    p.buffered == [] || |p.buffered| <= disk(|p.sent|)
  }

  /** A complete file is reported; and a reported one is complete exactly if none of the writes
      before the last flush was short. */
  lemma ReportedIsComplete(chunks: seq<seq<Byte>>, disk: Disk)
    ensures Complete(chunks, disk) ==> Reported(chunks, disk)
    ensures Reported(chunks, disk) ==>
      (Complete(chunks, disk) <==> AllTaken(Planned(chunks, ONE_MO).sent, disk))
  {
    var p, w := Planned(chunks, ONE_MO), Writes(chunks);
    assert forall i :: 0 <= i < |p.sent| ==> w[i] == p.sent[i];
    assert p.buffered != [] ==> w[|p.sent|] == p.buffered;
  }

  /** A disk that takes nothing of the first write and all of the second. */
  const HICCUP: Disk := n => if n == 0 then 0 else 1

  /** A million bytes and one more, of which only the last arrives: reported as a success. */
  lemma ShortWriteUnnoticed(big: seq<Byte>)
    requires |big| == 1_000_000
    ensures Reported([big, [1]], HICCUP) && !Complete([big, [1]], HICCUP)
    ensures Taken(Writes([big, [1]]), HICCUP) == [1] != Flatten([big, [1]])
  {
    var chunks := [big, [1]];
    assert chunks[..1] == [big] && [big][..0] == [];
    assert Planned([big], ONE_MO) == Plan([big], []);
    assert Planned(chunks, ONE_MO) == Plan([big], [1]);
    var w := Writes(chunks);
    assert w == [big, [1]];
    TakenAppend([], big, HICCUP);
    TakenAppend([big], [1], HICCUP);
    assert [big] + [[1]] == w && [] + [big] == [big];
    assert |w[0]| > HICCUP(0);
    TakenIsAll(w, HICCUP);
  }

  // ---------------------------------------------------------------- the code

  /** ntwrk_struct_t: the file, and a buffer with one byte more than it may hold. */
  class Writer {
    const data: array?<Byte>
    const dataSize: nat
    const disk: Disk
    var offset: nat
    var out: seq<Byte>
    var writes: nat
    ghost var sent: seq<seq<Byte>>      // the blocks handed to fwrite

    /** A buffer that could not be allocated is null. The file has what the disk took. */
    ghost predicate Valid()
      reads this, data
    {
      && (data != null ==> 0 < dataSize && data.Length == dataSize + 1 && offset <= dataSize)
      && (data == null ==> offset == 0)
      && writes == |sent| && out == Taken(sent, disk)
    }

    ghost function State(): Plan
      reads this, data
    {
      Plan(sent, if data != null && offset <= data.Length then data[..offset] else [])
    }

    constructor (gotBuffer: bool, size: nat, disk: Disk)
      requires 0 < size
      ensures Valid() && State() == NOTHING && dataSize == size && this.disk == disk
      ensures (data != null) == gotBuffer && (data != null ==> fresh(data))
    {
      dataSize := size;
      this.disk := disk;
      offset, out, writes, sent := 0, [], 0, [];
      if gotBuffer {
        data := new Byte[size + 1];
      } else {
        data := null;
      }
    }

    /** fwrite to the file. */
    method FWrite(bytes: seq<Byte>) returns (count: nat)
      requires writes == |sent| && out == Taken(sent, disk)
      modifies `out, `writes, `sent
      ensures writes == |sent| && out == Taken(sent, disk) && old(out) <= out
      ensures sent == old(sent) + [bytes]
      ensures count <= |bytes| && (count == |bytes| <==> |bytes| <= disk(|old(sent)|))
    {
      TakenAppend(sent, bytes, disk);
      count := if |bytes| <= disk(writes) then |bytes| else disk(writes);
      out := out + bytes[..count];
      writes := writes + 1;
      sent := sent + [bytes];
    }

    /** The buffer is written and empty; how much the disk took is not looked at. */
    method Empty()
      requires Valid() && data != null
      modifies `out, `writes, `sent, `offset
      ensures Valid() && old(out) <= out && offset == 0
      ensures State() == Plan(old(State()).sent + [old(State()).buffered], [])
    {
      var count := FWrite(data[..offset]);
      offset := 0;
    }

    /** memcpy behind the buffered bytes, and a NUL. */
    method Copy(contents: seq<Byte>)
      requires data != null && offset + |contents| < data.Length
      modifies data
      ensures data[..offset + |contents|] == old(data[..offset]) + contents && data[offset + |contents|] == 0
    {
      ghost var was := data[..offset];
      forall i | 0 <= i < |contents| {
        data[offset + i] := contents[i];
      }
      data[offset + |contents|] := 0;
      assert data[..offset] == was && data[offset..offset + |contents|] == contents;
    }

    /** A block that fits is buffered. */
    method Store(contents: seq<Byte>)
      requires Valid() && data != null && offset + |contents| <= dataSize
      modifies `offset, data
      ensures Valid() && State() == Plan(old(State()).sent, old(State()).buffered + contents) && data[offset] == 0
    {
      Copy(contents);
      offset := offset + |contents|;
    }

    /** A block too large for the buffer goes directly to the file. */
    method Direct(contents: seq<Byte>)
      requires Valid() && data != null
      modifies `out, `writes, `sent, `offset
      ensures Valid() && old(out) <= out && State() == Plan(Flushed(old(State())).sent + [contents], [])
    {
      if offset != 0 {
        Empty();
      }
      var count := FWrite(contents);
    }

    /** WriteMemoryCallback: the chunk is written or buffered as planned. The file only grows, and
        the offset stays inside the buffer, with a NUL behind what was stored. */
    method WriteMemoryCallback(contents: seq<Byte>) returns (realsize: nat)
      requires Valid()
      modifies this, data
      ensures Valid() && old(out) <= out
      ensures data == null ==> realsize == 0 && State() == old(State()) && out == old(out)
      ensures data != null ==> realsize == |contents| && State() == Fed(old(State()), contents, dataSize)
      ensures data != null && |contents| < dataSize ==> data[offset] == 0
    {
      if data == null || dataSize == 0 {
        return 0;
      }
      realsize := |contents|;
      if realsize >= dataSize {
        Direct(contents);
        return;
      }
      if offset + realsize > dataSize {
        Empty();
      }
      Store(contents);
    }

    /** The last write of downloadFile, the only one whose result is looked at. */
    method Finish() returns (ok: bool)
      requires Valid()
      modifies `out, `writes, `sent
      ensures out == Taken(sent, disk) && old(out) <= out && sent == Flushed(old(State())).sent
      ensures ok <==> old(State()).buffered == [] || |old(State()).buffered| <= disk(|old(State()).sent|)
    {
      ok := true;
      if offset != 0 {
        var count := FWrite(data[..offset]);
        ok := count == offset;
      }
    }
  }

  /** MemoryStruct_t */
  class Memory {
    var memory: array<Byte>
    var size: nat

    ghost predicate Valid()
      reads this
    {
      size < memory.Length
    }

    ghost function Contents(): seq<Byte>
      requires Valid()
      reads this, memory
    {
      memory[..size]
    }

    /** malloc(1) */
    constructor ()
      ensures Valid() && Contents() == [] && fresh(memory)
    {
      memory := new Byte[1];
      size := 0;
    }

    /** WriteMemoryCallback2; `granted` says whether realloc finds room. */
    method WriteMemoryCallback2(contents: seq<Byte>, granted: bool) returns (realsize: nat)
      requires Valid()
      modifies this, memory
      ensures Valid() && (memory == old(memory) || fresh(memory))
      ensures contents == [] || !granted ==> realsize == 0 && memory == old(memory) && Contents() == old(Contents())
      ensures contents != [] && granted ==>
        && realsize == |contents| && Contents() == old(Contents()) + contents
        && memory[size] == 0 && memory.Length == size + 1
    {
      if |contents| == 0 {
        return 0;
      }
      if !granted {
        return 0;
      }
      ghost var was := memory[..size];
      var from, n := memory, size;
      var ptr := new Byte[n + |contents| + 1](i reads from =>
        if 0 <= i < n && i < from.Length then from[i] else if 0 <= i - n < |contents| then contents[i - n] else 0);
      assert ptr[..n + |contents|] == was + contents;
      memory, size := ptr, n + |contents|;
      return |contents|;
    }
  }

  /** curl hands over the chunks, and gives up when the callback takes less than it got. */
  method Perform(chunk: Writer, chunks: seq<seq<Byte>>) returns (res: bool)
    requires chunk.Valid() && chunk.State() == NOTHING
    modifies chunk, chunk.data
    ensures chunk.Valid()
    ensures chunk.data != null ==> res && chunk.State() == Planned(chunks, chunk.dataSize)
    ensures chunk.data == null ==> chunk.State() == NOTHING && (res <==> Flatten(chunks) == [])
  {
    for i := 0 to |chunks|
      invariant chunk.Valid()
      invariant chunk.data != null ==> chunk.State() == Planned(chunks[..i], chunk.dataSize)
      invariant chunk.data == null ==> chunk.State() == NOTHING && Flatten(chunks[..i]) == []
    {
      PlannedMore(chunks, i, chunk.dataSize);
      FlattenMore(chunks, i);
      FlattenStart(chunks, i + 1);
      var n := chunk.WriteMemoryCallback(chunks[i]);
      if n != |chunks[i]| {
        return false;
      }
    }
    assert chunks[..|chunks|] == chunks;
    return true;
  }

  /** A download into a file: the file has what the disk took of the planned writes, which is all
      of the data exactly if none of them was short; but only the last flush is looked at. */
  method DownloadFile(chunks: seq<seq<Byte>>, gotBuffer: bool, disk: Disk) returns (ok: bool, file: seq<Byte>)
    ensures gotBuffer ==> file == Taken(Writes(chunks), disk)
    ensures gotBuffer ==> (ok <==> Reported(chunks, disk))
    ensures gotBuffer ==> (file == Flatten(chunks) <==> Complete(chunks, disk))
    ensures gotBuffer && (forall n :: |Flatten(chunks)| <= disk(n)) ==> ok && file == Flatten(chunks)
    ensures !gotBuffer ==> file == [] && (ok <==> Flatten(chunks) == [])
    ensures |file| <= |Flatten(chunks)| && (file == Flatten(chunks) <==> |file| == |Flatten(chunks)|)
    ensures !ok ==> file != Flatten(chunks)
  {
    var chunk := new Writer(gotBuffer, ONE_MO, disk);
    var res := Perform(chunk, chunks);
    var written := chunk.Finish();
    WritesAreData(chunks);
    TakenIsAll(Writes(chunks), disk);
    ReportedIsComplete(chunks, disk);
    if forall n :: |Flatten(chunks)| <= disk(n) {
      DiskTakesAll(Writes(chunks), disk);
    }
    return res && written, chunk.out;
  }

  /** A download into memory; `grants` says which calls of realloc find room. What arrives are
      the chunks before the first refusal. */
  method DownloadMemory(chunks: seq<seq<Byte>>, grants: nat -> bool) returns (ok: bool, memory: seq<Byte>)
    ensures memory <= Flatten(chunks) && (ok <==> memory == Flatten(chunks))
    ensures (forall n :: grants(n)) ==> ok
  {
    var chunk := new Memory();
    for i := 0 to |chunks|
      invariant chunk.Valid() && fresh(chunk) && fresh(chunk.memory)
      invariant chunk.Contents() == Flatten(chunks[..i])
    {
      FlattenMore(chunks, i);
      FlattenStart(chunks, i);
      FlattenStart(chunks, i + 1);
      var n := chunk.WriteMemoryCallback2(chunks[i], grants(i));
      if n != |chunks[i]| {
        return false, chunk.memory[..chunk.size];
      }
    }
    assert chunks[..|chunks|] == chunks;
    return true, chunk.memory[..chunk.size];
  }

  /** The same data, however they are cut, end up as the same bytes in a file and in memory. */
  method DownloadBoth(a: seq<seq<Byte>>, b: seq<seq<Byte>>, disk: Disk) returns (file: seq<Byte>, memory: seq<Byte>)
    requires Flatten(a) == Flatten(b) && forall n :: |Flatten(a)| <= disk(n)
    ensures file == memory == Flatten(a)
  {
    var ok;
    ok, file := DownloadFile(a, true, disk);
    ok, memory := DownloadMemory(b, _ => true);
  }
}
