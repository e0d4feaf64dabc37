/** The body of the PTY reader thread (`Session::start_reader`): bytes read
    from the pty master are appended to a carry-over buffer, and the longest
    well-formed UTF-8 prefix of that buffer is sent on as one text chunk
    while the rest waits for the next read. Reads are given as a sequence;
    the blocking read call, the thread and the channel are not modelled. */
module PtyReader {
  import opened Common
  import opened Utf8

  /** What one `reader.read(&mut buf)` returned: `Ok(n)` with the `n` bytes
      read (`Data([])` is end of file) or `Err(_)`. */
  datatype Read = Data(bytes: seq<byte>) | ReadError

  /** A read that ends the loop: end of file or a read error. */
  predicate IsStop(r: Read)
  {
    r.ReadError? || |r.bytes| == 0
  }

  /** Every read delivers data: no end of file and no error. */
  predicate AllData(incoming: seq<Read>)
  {
    |incoming| == 0 || (!IsStop(incoming[0]) && AllData(incoming[1..]))
  }

  /** The outcome of one loop iteration: the loop breaks, or it goes on with
      the chunk it sent (if any) and the new carry-over buffer. */
  datatype Step = Stop | Continue(emitted: Option<seq<byte>>, leftover: seq<byte>)

  function Emitted(e: Option<seq<byte>>): seq<byte>
  {
    match e
    case None => []
    case Some(c) => c
  }

  /** One iteration of the reader loop, given the carry-over buffer and the
      result of the read. */
  function ReaderStep(leftover: seq<byte>, r: Read): (st: Step)
    // end of file and read errors break the loop and send nothing
    ensures st.Stop? <==> IsStop(r)
    // no byte is lost or duplicated
    ensures st.Continue? ==> Emitted(st.emitted) + st.leftover == leftover + r.bytes
    // what is sent is non-empty, well-formed text
    ensures st.Continue? && st.emitted.Some? ==> |st.emitted.value| > 0 && Valid(st.emitted.value)
  {
    if IsStop(r) then Stop
    else
      var buf := leftover + r.bytes;
      // `from_utf8` succeeds exactly when the longest valid prefix is all of `buf`
      var k := ValidUpTo(buf);
      ValidUpToIsValid(buf);
      if k == |buf| then
        assert buf[..k] == buf;
        Continue(Some(buf), [])
      else if k > 0 then
        assert buf[..k] + buf[k..] == buf;
        Continue(Some(buf[..k]), buf[k..])
      else Continue(None, buf)
  }

  /** Which bytes one iteration sends and which it keeps. */
  lemma ReaderStepCases(leftover: seq<byte>, r: Read)
    requires !IsStop(r)
    ensures var buf, st := leftover + r.bytes, ReaderStep(leftover, r);
      // a well-formed buffer is sent whole
      (Valid(buf) ==> st.emitted == Some(buf) && st.leftover == []) &&
      // otherwise exactly the longest well-formed prefix is sent and the rest kept
      (!Valid(buf) && ValidUpTo(buf) > 0 ==>
         st.emitted == Some(buf[..ValidUpTo(buf)]) && st.leftover == buf[ValidUpTo(buf)..]) &&
      // with no well-formed prefix nothing is sent and everything is kept
      (ValidUpTo(buf) == 0 ==> st.emitted.None? && st.leftover == buf)
  {
    var buf := leftover + r.bytes;
    ValidIffValidUpToAll(buf);
  }

  /** The state of the reader after a sequence of reads: the chunks sent, the
      carry-over buffer, how many reads delivered data, and whether the loop
      has ended. */
  datatype Run = Run(chunks: seq<seq<byte>>, leftover: seq<byte>, used: nat, stopped: bool)

  /** The reader loop run over `incoming`, starting from carry-over `leftover`. */
  function ReaderRun(leftover: seq<byte>, incoming: seq<Read>): (r: Run)
    ensures r.used <= |incoming|
    decreases |incoming|
  {
    if |incoming| == 0 then Run([], leftover, 0, false)
    else
      var st := ReaderStep(leftover, incoming[0]);
      if st.Stop? then Run([], leftover, 0, true)
      else
        var tail := ReaderRun(st.leftover, incoming[1..]);
        Run(ChunkList(st.emitted) + tail.chunks, tail.leftover, tail.used + 1, tail.stopped)
  }

  function ChunkList(e: Option<seq<byte>>): seq<seq<byte>>
  {
    if e.Some? then [e.value] else []
  }

  /** All bytes delivered by a sequence of reads. */
  function ReadBytes(incoming: seq<Read>): seq<byte>
  {
    if |incoming| == 0 then [] else (if incoming[0].Data? then incoming[0].bytes else []) + ReadBytes(incoming[1..])
  }

  /** The loop ends at the first end of file or read error, or when the
      reads run out. */
  lemma {:induction false} ReaderRunStops(leftover: seq<byte>, incoming: seq<Read>)
    ensures var r := ReaderRun(leftover, incoming);
      (r.stopped ==> r.used < |incoming| && IsStop(incoming[r.used])) &&
      (!r.stopped ==> r.used == |incoming|)
    decreases |incoming|
  {
    if |incoming| > 0 && !IsStop(incoming[0]) {
      var st := ReaderStep(leftover, incoming[0]);
      ReaderRunUnfold(leftover, incoming);
      ReaderRunStops(st.leftover, incoming[1..]);
      var tail := ReaderRun(st.leftover, incoming[1..]);
      if tail.stopped {
        assert incoming[1..][tail.used] == incoming[tail.used + 1];
      }
    }
  }

  /** ... and nowhere before: every read it consumed delivered data. */
  lemma {:induction false} ReaderRunUsesData(leftover: seq<byte>, incoming: seq<Read>, i: nat)
    requires i < ReaderRun(leftover, incoming).used
    ensures !IsStop(incoming[i])
    decreases |incoming|
  {
    if !IsStop(incoming[0]) && i > 0 {
      var st := ReaderStep(leftover, incoming[0]);
      ReaderRunUnfold(leftover, incoming);
      ReaderRunUsesData(st.leftover, incoming[1..], i - 1);
      assert incoming[1..][i - 1] == incoming[i];
    }
  }

  /** Unfolds one iteration of `ReaderRun` on a read that delivers data. */
  lemma ReaderRunUnfold(leftover: seq<byte>, incoming: seq<Read>)
    requires |incoming| > 0 && !IsStop(incoming[0])
    ensures var st := ReaderStep(leftover, incoming[0]);
      var tail := ReaderRun(st.leftover, incoming[1..]);
      ReaderRun(leftover, incoming) == Run(ChunkList(st.emitted) + tail.chunks, tail.leftover, tail.used + 1, tail.stopped)
  {
  }

  /** The bytes of the first `n + 1` reads are those of the first read followed by those of the next `n`. */
  lemma ReadBytesCons(incoming: seq<Read>, n: nat)
    requires 0 < |incoming| && n < |incoming| && incoming[0].Data?
    ensures ReadBytes(incoming[..n + 1]) == incoming[0].bytes + ReadBytes(incoming[1..][..n])
  {
    var p := incoming[..n + 1];
    assert p[0] == incoming[0];
    assert p[1..] == incoming[1..][..n];
  }

  /** The sequence algebra behind one step of `ReaderRunConserves`. */
  lemma ConcatStep(head: seq<seq<byte>>, e: seq<byte>, kept: seq<byte>, leftover: seq<byte>, read: seq<byte>,
                   tailChunks: seq<seq<byte>>, tailLeft: seq<byte>, later: seq<byte>)
    requires Flatten(head) == e && e + kept == leftover + read
    requires Flatten(tailChunks) + tailLeft == kept + later
    ensures Flatten(head + tailChunks) + tailLeft == leftover + (read + later)
  {
    FlattenAppend(head, tailChunks);
    calc {
      Flatten(head + tailChunks) + tailLeft;
      e + (Flatten(tailChunks) + tailLeft);
      e + (kept + later);
      (e + kept) + later;
      leftover + (read + later);
    }
  }

  /** Conservation: what was sent, followed by the carry-over buffer, is
      exactly the initial carry-over followed by every byte read. */
  lemma {:induction false} ReaderRunConserves(leftover: seq<byte>, incoming: seq<Read>)
    ensures var r := ReaderRun(leftover, incoming);
      Flatten(r.chunks) + r.leftover == leftover + ReadBytes(incoming[..r.used])
    decreases |incoming|
  {
    if |incoming| == 0 || IsStop(incoming[0]) {
      assert incoming[..0] == [];
    } else {
      var st := ReaderStep(leftover, incoming[0]);
      var tail := ReaderRun(st.leftover, incoming[1..]);
      ReaderRunUnfold(leftover, incoming);
      ReaderRunConserves(st.leftover, incoming[1..]);
      var head := ChunkList(st.emitted);
      assert Flatten(head) == Emitted(st.emitted) by {
        if st.emitted.Some? { assert head[1..] == []; }
      }
      ReadBytesCons(incoming, tail.used);
      ConcatStep(head, Emitted(st.emitted), st.leftover, leftover, incoming[0].bytes,
                 tail.chunks, tail.leftover, ReadBytes(incoming[1..][..tail.used]));
    }
  }

  /** Every chunk is non-empty, well-formed UTF-8. */
  predicate ValidChunks(cs: seq<seq<byte>>)
  {
    |cs| == 0 || (|cs[0]| > 0 && Valid(cs[0]) && ValidChunks(cs[1..]))
  }

  lemma {:induction false} ValidChunksAppend(a: seq<seq<byte>>, b: seq<seq<byte>>)
    requires ValidChunks(a) && ValidChunks(b)
    ensures ValidChunks(a + b)
  {
    if |a| == 0 {
      assert a + b == b;
    } else {
      assert (a + b)[1..] == a[1..] + b;
      ValidChunksAppend(a[1..], b);
    }
  }

  lemma {:induction false} ValidChunksEach(cs: seq<seq<byte>>, i: nat)
    requires ValidChunks(cs) && i < |cs|
    ensures |cs[i]| > 0 && Valid(cs[i])
  {
    if i > 0 {
      ValidChunksEach(cs[1..], i - 1);
    }
  }

  /** Every chunk sent is non-empty, well-formed UTF-8, so the lossy
      conversion applied to it never replaces anything. */
  lemma {:induction false} ReaderRunChunksValid(leftover: seq<byte>, incoming: seq<Read>)
    ensures ValidChunks(ReaderRun(leftover, incoming).chunks)
    decreases |incoming|
  {
    if |incoming| > 0 && !IsStop(incoming[0]) {
      var st := ReaderStep(leftover, incoming[0]);
      ReaderRunUnfold(leftover, incoming);
      ReaderRunChunksValid(st.leftover, incoming[1..]);
      var head := ChunkList(st.emitted);
      assert ValidChunks(head) by {
        if st.emitted.Some? { assert head[1..] == []; }
      }
      ValidChunksAppend(head, ReaderRun(st.leftover, incoming[1..]).chunks);
    }
  }

  /** The same, chunk by chunk. */
  lemma ReaderRunChunkValid(leftover: seq<byte>, incoming: seq<Read>, i: nat)
    requires i < |ReaderRun(leftover, incoming).chunks|
    ensures var c := ReaderRun(leftover, incoming).chunks[i]; |c| > 0 && Valid(c)
  {
    ReaderRunChunksValid(leftover, incoming);
    ValidChunksEach(ReaderRun(leftover, incoming).chunks, i);
  }

  /** After one iteration over a well-formed stream, the carry-over followed
      by the bytes still to come is again well-formed: chunks end on
      character boundaries of the stream. */
  lemma StepKeepsStreamValid(leftover: seq<byte>, r: Read, later: seq<byte>)
    requires !IsStop(r) && Valid(leftover + r.bytes + later)
    ensures Valid(ReaderStep(leftover, r).leftover + later)
  {
    var st := ReaderStep(leftover, r);
    var e := Emitted(st.emitted);
    assert e + (st.leftover + later) == leftover + r.bytes + later;
    if st.emitted.Some? {
      ValidCancel(e, st.leftover + later);
    } else {
      assert e + (st.leftover + later) == st.leftover + later;
    }
  }

  /** The carry-over part of `ValidStreamDrains`. */
  lemma {:induction false} DrainsLeftover(leftover: seq<byte>, incoming: seq<Read>)
    requires |incoming| > 0 && AllData(incoming)
    requires Valid(leftover + ReadBytes(incoming))
    ensures !ReaderRun(leftover, incoming).stopped && ReaderRun(leftover, incoming).leftover == []
    decreases |incoming|
  {
    if |incoming| == 1 {
      ReaderRunUnfold(leftover, incoming);
      assert incoming == [incoming[0]];
      LastReadDrains(leftover, incoming[0]);
    } else {
      NextStreamValid(leftover, incoming);
      ReaderRunUnfold(leftover, incoming);
      DrainsLeftover(ReaderStep(leftover, incoming[0]).leftover, incoming[1..]);
    }
  }

  /** `StepKeepsStreamValid` for the first of several reads. */
  lemma NextStreamValid(leftover: seq<byte>, incoming: seq<Read>)
    requires |incoming| > 1 && AllData(incoming)
    requires Valid(leftover + ReadBytes(incoming))
    ensures Valid(ReaderStep(leftover, incoming[0]).leftover + ReadBytes(incoming[1..]))
  {
    var later := ReadBytes(incoming[1..]);
    assert ReadBytes(incoming) == incoming[0].bytes + later;
    assert leftover + ReadBytes(incoming) == leftover + incoming[0].bytes + later;
    StepKeepsStreamValid(leftover, incoming[0], later);
  }

  /** A single read that completes a well-formed buffer empties it. */
  lemma LastReadDrains(leftover: seq<byte>, r: Read)
    requires !IsStop(r) && Valid(leftover + ReadBytes([r]))
    ensures var st := ReaderStep(leftover, r);
      !ReaderRun(st.leftover, []).stopped && ReaderRun(st.leftover, []).leftover == []
  {
    assert [r][1..] == [];
    assert ReadBytes([r]) == r.bytes + [];
    assert ReadBytes([r]) == r.bytes;
    ReaderStepCases(leftover, r);
  }

  /** A well-formed stream is delivered completely whatever the read
      boundaries: once the last read is in, nothing is left over and the
      chunks sent spell out the whole stream. */
  lemma {:induction false} ValidStreamDrains(leftover: seq<byte>, incoming: seq<Read>)
    requires |incoming| > 0 && AllData(incoming)
    requires Valid(leftover + ReadBytes(incoming))
    ensures var r := ReaderRun(leftover, incoming);
      !r.stopped && r.leftover == [] && Flatten(r.chunks) == leftover + ReadBytes(incoming)
    decreases |incoming|
  {
    DrainsLeftover(leftover, incoming);
    var r := ReaderRun(leftover, incoming);
    ReaderRunConserves(leftover, incoming);
    ReaderRunStops(leftover, incoming);
    assert incoming[..|incoming|] == incoming;
    assert Flatten(r.chunks) + [] == Flatten(r.chunks);
  }

  /** A carry-over buffer that starts with a byte no character can start
      with is never drained: nothing more is ever sent and every new byte
      piles up behind it. */
  lemma {:induction false} BadLeadNeverDrains(leftover: seq<byte>, incoming: seq<Read>)
    requires |leftover| > 0 && Width(leftover[0]) == 0
    ensures var r := ReaderRun(leftover, incoming);
      r.chunks == [] && r.leftover == leftover + ReadBytes(incoming[..r.used])
    decreases |incoming|
  {
    if |incoming| == 0 || IsStop(incoming[0]) {
      assert incoming[..0] == [];
    } else {
      var buf := BadLeadStep(leftover, incoming[0]);
      ReaderRunUnfold(leftover, incoming);
      BadLeadNeverDrains(buf, incoming[1..]);
      var tail := ReaderRun(buf, incoming[1..]);
      ReadBytesCons(incoming, tail.used);
      PileUp(leftover, incoming[0].bytes, ReadBytes(incoming[1..][..tail.used]), tail, ReaderRun(leftover, incoming));
    }
  }

  /** One iteration behind a bad lead byte sends nothing and keeps everything. */
  lemma BadLeadStep(leftover: seq<byte>, r: Read) returns (buf: seq<byte>)
    requires |leftover| > 0 && Width(leftover[0]) == 0 && !IsStop(r)
    ensures buf == leftover + r.bytes && |buf| > 0 && Width(buf[0]) == 0
    ensures ReaderStep(leftover, r) == Continue(None, buf)
  {
    buf := leftover + r.bytes;
    assert buf[0] == leftover[0];
    BadLeadHasNoValidPrefix(buf);
  }

  /** The sequence algebra behind one step of `BadLeadNeverDrains`. */
  lemma PileUp(leftover: seq<byte>, bytes: seq<byte>, later: seq<byte>, tail: Run, whole: Run)
    requires tail.chunks == [] && tail.leftover == (leftover + bytes) + later
    requires whole == Run(ChunkList(None) + tail.chunks, tail.leftover, tail.used + 1, tail.stopped)
    ensures whole.chunks == [] && whole.leftover == leftover + (bytes + later)
  {
  }

  /** A run that has already sent `chunks` over `used` reads and goes on as `tail`. */
  function Resume(chunks: seq<seq<byte>>, used: nat, tail: Run): Run
  {
    Run(chunks + tail.chunks, tail.leftover, used + tail.used, tail.stopped)
  }

  /** One iteration of `ReadLoop` on a read that delivers data keeps its
      invariant; `pending` are the reads not yet handled. */
  lemma ResumeData(whole: Run, pending: seq<Read>, chunks: seq<seq<byte>>, leftover: seq<byte>, used: nat,
                   emitted: Option<seq<byte>>, rest: seq<byte>)
    requires |pending| > 0 && !IsStop(pending[0])
    requires whole == Resume(chunks, used, ReaderRun(leftover, pending))
    requires Continue(emitted, rest) == ReaderStep(leftover, pending[0])
    ensures whole == Resume(chunks + ChunkList(emitted), used + 1, ReaderRun(rest, pending[1..]))
  {
    ReaderRunUnfold(leftover, pending);
    ResumeShift(whole, chunks, used, ChunkList(emitted), ReaderRun(rest, pending[1..]));
  }

  /** The algebra behind `ResumeData`: chunks sent by one more iteration
      move from the tail of the run to the part already done. */
  lemma ResumeShift(whole: Run, chunks: seq<seq<byte>>, used: nat, head: seq<seq<byte>>, tail: Run)
    requires whole == Resume(chunks, used, Run(head + tail.chunks, tail.leftover, tail.used + 1, tail.stopped))
    ensures whole == Resume(chunks + head, used + 1, tail)
  {
    assert chunks + (head + tail.chunks) == (chunks + head) + tail.chunks;
  }

  /** ... and on a read that ends the loop, the run is complete. */
  lemma ResumeStop(whole: Run, incoming: seq<Read>, chunks: seq<seq<byte>>, leftover: seq<byte>, used: nat)
    requires used < |incoming| && IsStop(incoming[used])
    requires whole == Resume(chunks, used, ReaderRun(leftover, incoming[used..]))
    ensures whole == Run(chunks, leftover, used, true)
  {
    assert incoming[used..][0] == incoming[used];
    assert chunks + [] == chunks;
  }

  /** One loop iteration after a read of `bytes.len() > 0` bytes: extend the
      carry-over buffer, then send it whole if it is well-formed, or send its
      longest well-formed prefix if that is not empty, keeping the rest. */
  method CarryOver(leftover: seq<byte>, bytes: seq<byte>) returns (emitted: Option<seq<byte>>, rest: seq<byte>)
    requires |bytes| > 0
    ensures Continue(emitted, rest) == ReaderStep(leftover, Data(bytes))
  {
    var buf := leftover + bytes;
    ValidIffValidUpToAll(buf);
    if Valid(buf) {
      emitted, rest := Some(buf), [];
    } else {
      var k := ValidUpTo(buf);
      if k > 0 {
        emitted, rest := Some(buf[..k]), buf[k..];
      } else {
        emitted, rest := None, buf;
      }
    }
  }

  /** The reader thread's loop over the given reads, starting from an empty
      carry-over buffer as the thread does. */
  method ReadLoop(incoming: seq<Read>) returns (chunks: seq<seq<byte>>, leftover: seq<byte>, used: nat, stopped: bool)
    ensures Run(chunks, leftover, used, stopped) == ReaderRun([], incoming)
  {
    chunks, leftover, used, stopped := [], [], 0, false;
    ghost var whole := ReaderRun([], incoming);
    assert incoming[0..] == incoming;
    while used < |incoming|
      invariant used <= |incoming|
      invariant whole == Resume(chunks, used, ReaderRun(leftover, incoming[used..]))
    {
      var r := incoming[used];
      if IsStop(r) {
        // `Ok(0)` (end of file) and `Err(_)` end the thread
        ResumeStop(whole, incoming, chunks, leftover, used);
        stopped := true;
        return;
      }
      var emitted, rest := CarryOver(leftover, r.bytes);
      assert incoming[used..][0] == r && incoming[used..][1..] == incoming[used + 1..];
      ResumeData(whole, incoming[used..], chunks, leftover, used, emitted, rest);
      chunks := chunks + ChunkList(emitted);
      leftover := rest;
      used := used + 1;
    }
    assert incoming[used..] == [];
  }
}
