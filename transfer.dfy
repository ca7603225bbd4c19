/**
 The frames the sending side of InstaDrop puts on the WebRTC data channel,
 and a pure specification of what `sendFile` sends for a given file.

 The file is seen through two abstract collaborators of the Electron bridge:
 `getFileInfo`, whose answer is an `InfoResult`, and `readFileChunk(offset,
 length)`, a `Reader` that may also fail. `FileReader` is a reader that
 slices a byte sequence: the behaviour this model assumes of
 `readFileChunk`, of which only the type is declared.
 */
module Transfer {

  type byte = bv8

  /** Length that every `readFileChunk` call of the send loop asks for: 64 KiB. */
  const ChunkSize: nat := 64 * 1024

  /** `bufferedAmount` above which the send loop waits instead of reading: 1 MiB. */
  const HighWaterMark: nat := 1024 * 1024

  /** A frame on the data channel: the JSON text frames `meta` and `eof`, and raw binary chunks. */
  datatype Msg = Meta(name: string, size: nat) | Chunk(bytes: seq<byte>) | Eof

  datatype FileInfo = FileInfo(name: string, size: nat)

  /** What `getFileInfo(filePath)` resolves (or rejects) with. */
  datatype InfoResult = Info(info: FileInfo) | InfoError(reason: string)

  /** What one `readFileChunk(filePath, offset, length)` call resolves (or rejects) with. */
  datatype ReadResult = Read(bytes: seq<byte>) | ReadError(reason: string)

  /** `readFileChunk` bound to one file path: offset and requested length to a result. */
  type Reader = (nat, nat) -> ReadResult

  /** Why the promise returned by `sendFile` rejects. */
  datatype SendError =
    | ChannelNotOpen
    | InfoFailed(reason: string)
    | ReadFailed(offset: nat, reason: string)

  datatype SendOutcome = Sent | Failed(error: SendError)

  /** One successful read of the send loop: the offset it asked at and the bytes it got. */
  datatype ReadStep = ReadStep(offset: nat, bytes: seq<byte>)

  /** The reads of one run of the send loop and how the loop ended. */
  datatype Plan = Plan(steps: seq<ReadStep>, outcome: SendOutcome)

  /** The frames appended to the channel by one call of `sendFile`, and how the call ends. */
  datatype Sending = Sending(frames: seq<Msg>, outcome: SendOutcome)

  /**
   Every successful read at an offset below `size` returns at least one
   byte. This is enough for the loop `while (offset < size)` to end, though
   the loop needs it only at the offsets it visits; an empty read there
   makes the source loop forever. */
  ghost predicate Progress(read: Reader, size: nat) {
    forall off: nat :: off < size && read(off, ChunkSize).Read? ==> |read(off, ChunkSize).bytes| > 0
  }

  function Min(a: nat, b: nat): nat {
    if a <= b then a else b
  }

  /**
   `readFileChunk` on a file whose bytes are `file`: at most `n` bytes from
   `off`, fewer only at the end of the file, none past it. */
  function ReadFileChunk(file: seq<byte>, off: nat, n: nat): (r: seq<byte>)
    ensures |r| <= n
    ensures off <= |file| ==> |r| == Min(n, |file| - off) && r == file[off..off + |r|]
    ensures off >= |file| ==> r == []
  {
    file[Min(off, |file|)..Min(off + n, |file|)]
  }

  /** The reader that always succeeds and returns the bytes of `file`. */
  function FileReader(file: seq<byte>): Reader {
    (off: nat, n: nat) => Read(ReadFileChunk(file, off, n))
  }

  /** The bytes of the steps, in order. */
  function Concat(steps: seq<ReadStep>): seq<byte> {
    if steps == [] then [] else steps[0].bytes + Concat(steps[1..])
  }

  /** The binary chunk frames sent for the steps, one per step and in the same order. */
  function ChunkFrames(steps: seq<ReadStep>): seq<Msg> {
    seq(|steps|, j requires 0 <= j < |steps| => Chunk(steps[j].bytes))
  }

  /** What the send loop appends after `meta`: its chunks, then `eof` if it ran to the end. */
  function LoopFrames(p: Plan): seq<Msg> {
    ChunkFrames(p.steps) + (if p.outcome == Sent then [Eof] else [])
  }

  /** The bytes carried by the chunk frames of a log, in order; text frames carry none. */
  function Bodies(log: seq<Msg>): seq<byte> {
    if log == [] then []
    else (if log[0].Chunk? then log[0].bytes else []) + Bodies(log[1..])
  }

  /** The shape of a completed transfer: one `meta`, then only chunks, then one `eof`. */
  predicate IsTransferLog(log: seq<Msg>) {
    && |log| >= 2
    && log[0].Meta?
    && log[|log| - 1] == Eof
    && forall j :: 0 < j < |log| - 1 ==> log[j].Chunk?
  }

  /**
   The reads of the send loop from `off` on: while `off < size`, read
   `ChunkSize` bytes at `off`, send what came back and advance by its
   length; a failing read ends the loop with `ReadFailed`. Waiting on
   backpressure reads nothing and so does not appear here. */
  function PlanFrom(read: Reader, size: nat, off: nat): Plan
    requires Progress(read, size)
    decreases if off < size then size - off else 0
  {
    if off >= size then Plan([], Sent)
    else
      match read(off, ChunkSize)
      case ReadError(e) => Plan([], Failed(ReadFailed(off, e)))
      case Read(b) =>
        var rest := PlanFrom(read, size, off + |b|);
        Plan([ReadStep(off, b)] + rest.steps, rest.outcome)
  }

  /**
   What one call of `sendFile` appends to the channel: nothing when the
   channel is not open or the file information cannot be read; otherwise
   `meta`, one chunk per read, and `eof` once the loop has run to the end. */
  function SendSpec(channelOpen: bool, info: InfoResult, read: Reader): Sending
    requires info.Info? ==> Progress(read, info.info.size)
  {
    if !channelOpen then Sending([], Failed(ChannelNotOpen))
    else
      match info
      case InfoError(e) => Sending([], Failed(InfoFailed(e)))
      case Info(FileInfo(name, size)) =>
        var p := PlanFrom(read, size, 0);
        Sending([Meta(name, size)] + LoopFrames(p), p.outcome)
  }

  // ---------------------------------------------------------------------
  // Properties of the reads

  /** One successful read below `size` is the first step of the plan, and it is not empty. */
  lemma PlanUnfold(read: Reader, size: nat, off: nat, b: seq<byte>)
    requires Progress(read, size)
    requires off < size && read(off, ChunkSize) == Read(b)
    ensures |b| > 0
    ensures var rest := PlanFrom(read, size, off + |b|);
            PlanFrom(read, size, off) == Plan([ReadStep(off, b)] + rest.steps, rest.outcome)
  {
  }

  /** The loop has sent the steps `done` of `plan`, and the rest of `plan` is the plan from `offset`. */
  ghost predicate PlanContinues(plan: Plan, done: seq<ReadStep>, read: Reader, size: nat, offset: nat)
    requires Progress(read, size)
  {
    var rest := PlanFrom(read, size, offset);
    plan == Plan(done + rest.steps, rest.outcome)
  }

  lemma PlanAdvances(plan: Plan, done: seq<ReadStep>, read: Reader, size: nat, offset: nat, b: seq<byte>)
    requires Progress(read, size)
    requires PlanContinues(plan, done, read, size, offset)
    requires offset < size && read(offset, ChunkSize) == Read(b)
    ensures |b| > 0
    ensures PlanContinues(plan, done + [ReadStep(offset, b)], read, size, offset + |b|)
    ensures ChunkFrames(done + [ReadStep(offset, b)]) == ChunkFrames(done) + [Chunk(b)]
  {
    PlanUnfold(read, size, offset, b);
    var rest := PlanFrom(read, size, offset + |b|);
    assert (done + [ReadStep(offset, b)]) + rest.steps == done + ([ReadStep(offset, b)] + rest.steps);
    ChunkFramesAppend(done, ReadStep(offset, b));
  }

  lemma PlanStopsOnError(plan: Plan, done: seq<ReadStep>, read: Reader, size: nat, offset: nat)
    requires Progress(read, size)
    requires PlanContinues(plan, done, read, size, offset)
    requires offset < size && read(offset, ChunkSize).ReadError?
    ensures plan.outcome == Failed(ReadFailed(offset, read(offset, ChunkSize).reason))
    ensures LoopFrames(plan) == ChunkFrames(done)
  {
    assert done + [] == done;
  }

  lemma PlanStopsAtEnd(plan: Plan, done: seq<ReadStep>, read: Reader, size: nat, offset: nat)
    requires Progress(read, size)
    requires PlanContinues(plan, done, read, size, offset)
    requires offset >= size
    ensures plan.outcome == Sent
    ensures LoopFrames(plan) == ChunkFrames(done) + [Eof]
  {
    assert done + [] == done;
  }

  /** The first read is at the offset the loop starts from. */
  lemma PlanStartsAt(read: Reader, size: nat, off: nat)
    requires Progress(read, size)
    ensures var p := PlanFrom(read, size, off);
            |p.steps| > 0 ==> p.steps[0].offset == off && off < size
  {
  }

  /** Each step is what `read` returned for `ChunkSize` bytes at that step's offset. */
  ghost predicate StepsAreReads(read: Reader, steps: seq<ReadStep>) {
    forall j :: 0 <= j < |steps| ==> read(steps[j].offset, ChunkSize) == Read(steps[j].bytes)
  }

  /**
   Every step of the plan is what the reader returned, asked for
   `ChunkSize` bytes at that step's offset: the loop sends each chunk as it
   was read, neither cut nor merged. */
  lemma {:induction false} PlanStepsAreReads(read: Reader, size: nat, off: nat)
    requires Progress(read, size)
    ensures StepsAreReads(read, PlanFrom(read, size, off).steps)
    decreases if off < size then size - off else 0
  {
    if off < size && read(off, ChunkSize).Read? {
      var b := read(off, ChunkSize).bytes;
      var rest := PlanFrom(read, size, off + |b|);
      PlanStepsAreReads(read, size, off + |b|);
      var steps := PlanFrom(read, size, off).steps;
      assert steps == [ReadStep(off, b)] + rest.steps;
      forall j | 0 < j < |steps|
        ensures read(steps[j].offset, ChunkSize) == Read(steps[j].bytes)
      {
        assert steps[j] == rest.steps[j - 1];
      }
    }
  }

  /**
   Every read is at an offset below `size` at or after the start, returns
   a non-empty chunk, and the next read is at exactly the offset after it. */
  lemma {:induction false} PlanOffsetsAdvance(read: Reader, size: nat, off: nat)
    requires Progress(read, size)
    ensures var p := PlanFrom(read, size, off);
            && (forall j :: 0 <= j < |p.steps| ==> off <= p.steps[j].offset < size && |p.steps[j].bytes| > 0)
            && (forall j :: 0 <= j < |p.steps| - 1 ==>
                  p.steps[j + 1].offset == p.steps[j].offset + |p.steps[j].bytes|)
    decreases if off < size then size - off else 0
  {
    if off < size && read(off, ChunkSize).Read? {
      var b := read(off, ChunkSize).bytes;
      PlanOffsetsAdvance(read, size, off + |b|);
      PlanStartsAt(read, size, off + |b|);
    }
  }

  /**
   How the loop ends: with `Sent` exactly when the offset has reached
   `size`, or with `ReadFailed` at the offset just after the last chunk,
   which is still below `size`, because the read there failed and with
   that read's reason. */
  lemma {:induction false} PlanEnds(read: Reader, size: nat, off: nat)
    requires Progress(read, size)
    ensures var p := PlanFrom(read, size, off);
            && (p.outcome == Sent ==> off + |Concat(p.steps)| >= size)
            && (p.outcome.Failed? ==>
                  p.outcome.error.ReadFailed? &&
                  p.outcome.error.offset == off + |Concat(p.steps)| &&
                  p.outcome.error.offset < size &&
                  read(p.outcome.error.offset, ChunkSize) == ReadError(p.outcome.error.reason))
    decreases if off < size then size - off else 0
  {
    if off < size && read(off, ChunkSize).Read? {
      var b := read(off, ChunkSize).bytes;
      var rest := PlanFrom(read, size, off + |b|);
      PlanEnds(read, size, off + |b|);
      assert PlanFrom(read, size, off).steps == [ReadStep(off, b)] + rest.steps;
      assert Concat([ReadStep(off, b)] + rest.steps) == b + Concat(rest.steps) by {
        assert ([ReadStep(off, b)] + rest.steps)[1..] == rest.steps;
      }
    }
  }

  /** The file reader never returns an empty chunk before the end of the file. */
  lemma FileReaderProgress(file: seq<byte>)
    ensures Progress(FileReader(file), |file|)
  {
    forall off: nat | off < |file|
      ensures |FileReader(file)(off, ChunkSize).bytes| > 0
    {
      assert |ReadFileChunk(file, off, ChunkSize)| == Min(ChunkSize, |file| - off);
    }
  }

  /**
   Reading a whole file from `off`: the loop always completes, every chunk is
   at most 64 KiB, and the chunks concatenate to the rest of the file. */
  lemma {:induction false} FilePlanReassembles(file: seq<byte>, off: nat)
    requires off <= |file|
    ensures Progress(FileReader(file), |file|)
    ensures var p := PlanFrom(FileReader(file), |file|, off);
            && p.outcome == Sent
            && Concat(p.steps) == file[off..]
            && forall j :: 0 <= j < |p.steps| ==> |p.steps[j].bytes| <= ChunkSize
    decreases |file| - off
  {
    FileReaderProgress(file);
    if off < |file| {
      var b := ReadFileChunk(file, off, ChunkSize);
      assert FileReader(file)(off, ChunkSize) == Read(b);
      assert b == file[off..off + |b|] && |b| > 0;
      FilePlanReassembles(file, off + |b|);
      var rest := PlanFrom(FileReader(file), |file|, off + |b|);
      var steps := [ReadStep(off, b)] + rest.steps;
      assert PlanFrom(FileReader(file), |file|, off) == Plan(steps, rest.outcome);
      assert steps[1..] == rest.steps;
      assert Concat(steps) == b + file[off + |b|..];
      assert file[off..] == file[off..off + |b|] + file[off + |b|..];
    }
  }

  // ---------------------------------------------------------------------
  // Properties of the frames

  lemma AppendAssoc<T>(a: seq<T>, b: seq<T>, c: seq<T>)
    ensures (a + b) + c == a + (b + c)
  {
  }

  /** Sending one more chunk appends one more chunk frame. */
  lemma ChunkFramesAppend(steps: seq<ReadStep>, s: ReadStep)
    ensures ChunkFrames(steps + [s]) == ChunkFrames(steps) + [Chunk(s.bytes)]
  {
  }

  lemma {:induction false} BodiesAppend(a: seq<Msg>, b: seq<Msg>)
    ensures Bodies(a + b) == Bodies(a) + Bodies(b)
  {
    if a == [] {
      assert a + b == b;
    } else {
      assert (a + b)[0] == a[0];
      assert (a + b)[1..] == a[1..] + b;
      BodiesAppend(a[1..], b);
    }
  }

  /** The chunk frames of the steps carry exactly the bytes read. */
  lemma {:induction false} BodiesOfChunkFrames(steps: seq<ReadStep>)
    ensures Bodies(ChunkFrames(steps)) == Concat(steps)
  {
    if steps != [] {
      BodiesOfChunkFrames(steps[1..]);
      assert ChunkFrames(steps) == [Chunk(steps[0].bytes)] + ChunkFrames(steps[1..]);
      BodiesAppend([Chunk(steps[0].bytes)], ChunkFrames(steps[1..]));
    }
  }

  /** `meta` followed by `eof` carries no bytes. */
  lemma BodiesOfFraming(name: string, size: nat, chunks: seq<Msg>)
    ensures Bodies([Meta(name, size)] + chunks + [Eof]) == Bodies(chunks)
  {
    BodiesAppend([Meta(name, size)] + chunks, [Eof]);
    BodiesAppend([Meta(name, size)], chunks);
  }

  /** When `sendFile` does not reach the loop, it sends nothing. */
  lemma SendRejectsBeforeSending(channelOpen: bool, info: InfoResult, read: Reader)
    requires info.Info? ==> Progress(read, info.info.size)
    requires !channelOpen || info.InfoError?
    ensures var s := SendSpec(channelOpen, info, read);
            s.frames == [] && s.outcome.Failed? &&
            (s.outcome.error == ChannelNotOpen <==> !channelOpen)
  {
  }

  /**
   A successful send appends a well-formed transfer log whose `meta` names
   the file, whose chunks are the reads in order and whose bodies total the
   bytes read, which is at least the announced size. */
  lemma SentLogShape(name: string, size: nat, read: Reader)
    requires Progress(read, size)
    requires SendSpec(true, Info(FileInfo(name, size)), read).outcome == Sent
    ensures var s := SendSpec(true, Info(FileInfo(name, size)), read);
            var p := PlanFrom(read, size, 0);
            && IsTransferLog(s.frames)
            && s.frames[0] == Meta(name, size)
            && s.frames[1..|s.frames| - 1] == ChunkFrames(p.steps)
            && Bodies(s.frames) == Concat(p.steps)
            && |Bodies(s.frames)| >= size
  {
    var p := PlanFrom(read, size, 0);
    var s := SendSpec(true, Info(FileInfo(name, size)), read);
    AppendAssoc([Meta(name, size)], ChunkFrames(p.steps), [Eof]);
    assert s.frames == [Meta(name, size)] + ChunkFrames(p.steps) + [Eof];
    assert s.frames[1..|s.frames| - 1] == ChunkFrames(p.steps);
    BodiesOfFraming(name, size, ChunkFrames(p.steps));
    BodiesOfChunkFrames(p.steps);
    PlanEnds(read, size, 0);
  }

  /**
   A failing read ends the send after `meta` and the chunks read so far,
   with no `eof`. */
  lemma FailedReadLog(name: string, size: nat, read: Reader)
    requires Progress(read, size)
    requires SendSpec(true, Info(FileInfo(name, size)), read).outcome.Failed?
    ensures var s := SendSpec(true, Info(FileInfo(name, size)), read);
            var p := PlanFrom(read, size, 0);
            && s.frames == [Meta(name, size)] + ChunkFrames(p.steps)
            && Eof !in s.frames
            && s.outcome.error.ReadFailed?
            && s.outcome.error.offset == |Bodies(s.frames)| < size
            && read(s.outcome.error.offset, ChunkSize) == ReadError(s.outcome.error.reason)
  {
    var p := PlanFrom(read, size, 0);
    var s := SendSpec(true, Info(FileInfo(name, size)), read);
    PlanEnds(read, size, 0);
    assert s.frames == [Meta(name, size)] + ChunkFrames(p.steps);
    BodiesAppend([Meta(name, size)], ChunkFrames(p.steps));
    BodiesOfChunkFrames(p.steps);
    assert s.frames[0] == Meta(name, size);
    assert forall j :: 1 <= j < |s.frames| ==> s.frames[j] == ChunkFrames(p.steps)[j - 1];
  }

  /** A zero-size file is sent as `meta` then `eof`, with no chunk and no read. */
  lemma EmptyFileLog(name: string, read: Reader)
    requires Progress(read, 0)
    ensures SendSpec(true, Info(FileInfo(name, 0)), read) == Sending([Meta(name, 0), Eof], Sent)
  {
  }

  /**
   Sending a whole file over an open channel: a well-formed transfer log
   announcing its name and size, every chunk at most 64 KiB, and the chunk
   bodies are exactly the file's bytes. */
  lemma {:induction false} FileSendDeliversFile(name: string, file: seq<byte>)
    ensures Progress(FileReader(file), |file|)
    ensures var s := SendSpec(true, Info(FileInfo(name, |file|)), FileReader(file));
            && s.outcome == Sent
            && IsTransferLog(s.frames)
            && s.frames[0] == Meta(name, |file|)
            && (forall j :: 0 < j < |s.frames| - 1 ==> |s.frames[j].bytes| <= ChunkSize)
            && Bodies(s.frames) == file
  {
    FilePlanReassembles(file, 0);
    assert file[0..] == file;
    SentLogShape(name, |file|, FileReader(file));
    var p := PlanFrom(FileReader(file), |file|, 0);
    var s := SendSpec(true, Info(FileInfo(name, |file|)), FileReader(file));
    forall j | 0 < j < |s.frames| - 1
      ensures |s.frames[j].bytes| <= ChunkSize
    {
      assert s.frames[j] == ChunkFrames(p.steps)[j - 1];
    }
  }
}
