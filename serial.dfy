/**
 * The serial transport of src/modules/Serial.js: the size-tiered pacing of
 * outbound payloads, the chunked writer, the FIFO write queue, the debounced
 * receive batcher and the open/close flags.
 *
 * The Web Serial API, streams, timers and promises are outside the model.
 * Their outcomes arrive as parameters (`Outcome`, `failAt`) and their events
 * as methods (`ReadValue`, `TimerFired`, `ReadFinished`, `RunNextWrite`).
 * Ghost logs record what reached the wire and what was delivered upward.
 */
module Serial {
  import opened Common

  type Byte = b: int | 0 <= b < 256

  /** A JavaScript number as `Number.isFinite` sees it; `undefined` and NaN are `NonFinite`. */
  datatype Number = Finite(v: int) | NonFinite

  /** The result of a foreign asynchronous call: resolved, or rejected with a message. */
  datatype Outcome = Ok | Fail(reason: string)

  /** What the wire sees from one `_writeBytes`: a `writer.write(chunk)` or an inserted `_sleep(ms)`. */
  datatype WireEvent = Chunk(data: seq<Byte>) | Sleep(ms: nat)

  /** Calls to the `onSuccess` / `onFail` hooks. */
  datatype Notice = Connected | Failed

  /** The identity of a port object handed out by `navigator.serial.requestPort`. */
  type PortId = nat

  /** `n` calls of `onFail`, as a `disconnect` with `n` listeners makes. */
  function Failures(n: nat): (r: seq<Notice>)
    ensures |r| == n && forall i :: 0 <= i < n ==> r[i] == Failed
  {
    seq(n, _ => Failed)
  }

  /** One payload waiting on the write chain, with the options `_writeBytes` receives. */
  datatype WriteJob = WriteJob(bytes: seq<Byte>, chunkSize: Number, chunkDelayMs: Number)

  const DefaultChunkSize: nat := 64
  const DefaultChunkDelayMs: nat := 2
  const DefaultBaudRate: int := 115200

  // ---------------------------------------------------------------------------
  // Pacing

  /** The pacing table: chunk size and inter-chunk delay for a payload of `n` bytes. */
  function PacingTier(n: nat): (tier: (nat, nat))
  {
    if n <= 256 then (n, 0)
    else if n <= 1024 then (64, 2)
    else if n <= 2048 then (32, 5)
    else (16, 8)
  }

  /** `send`'s choice of chunk size and delay, made by successive overriding `if`s. */
  method ChoosePacing(n: nat) returns (chunkSize: nat, chunkDelayMs: nat)
    ensures (chunkSize, chunkDelayMs) == PacingTier(n)
  {
    chunkSize := n;
    chunkDelayMs := 0;
    if n > 256 {
      chunkSize := 64;
      chunkDelayMs := 2;
    }
    if n > 1024 {
      chunkSize := 32;
      chunkDelayMs := 5;
    }
    if n > 2048 {
      chunkSize := 16;
      chunkDelayMs := 8;
    }
  }

  /** `Number.isFinite(chunkSize) && chunkSize > 0 ? chunkSize : 64` */
  function SafeChunkSize(chunkSize: Number): (size: nat)
    ensures size > 0
  {
    if chunkSize.Finite? && chunkSize.v > 0 then chunkSize.v else DefaultChunkSize
  }

  /** `Number.isFinite(chunkDelayMs) && chunkDelayMs >= 0 ? chunkDelayMs : 2` */
  function SafeChunkDelay(chunkDelayMs: Number): (delay: nat)
  {
    if chunkDelayMs.Finite? && chunkDelayMs.v >= 0 then chunkDelayMs.v else DefaultChunkDelayMs
  }

  /** Number of chunks of at most `size` bytes needed for `n` bytes. */
  function CeilDiv(n: nat, size: nat): nat
    requires size > 0
  {
    (n + size - 1) / size
  }

  /**
   * Reference definition of what `_writeBytes` puts on the wire: consecutive
   * chunks of `size` bytes (the last may be shorter), with a sleep of `delay`
   * after every chunk that is followed by more data, when `delay > 0`.
   */
  function Paced(bytes: seq<Byte>, size: nat, delay: nat): seq<WireEvent>
    requires size > 0
    decreases |bytes|
  {
    if |bytes| == 0 then []
    else if |bytes| <= size then [Chunk(bytes)]
    else [Chunk(bytes[..size])] + (if delay > 0 then [Sleep(delay)] else []) + Paced(bytes[size..], size, delay)
  }

  /** The payloads of the chunk events, in order. */
  function ChunksOf(events: seq<WireEvent>): seq<seq<Byte>>
  {
    if |events| == 0 then []
    else (if events[0].Chunk? then [events[0].data] else []) + ChunksOf(events[1..])
  }

  /** The number of sleep events. */
  function SleepCount(events: seq<WireEvent>): nat
  {
    if |events| == 0 then 0
    else (if events[0].Sleep? then 1 else 0) + SleepCount(events[1..])
  }

  lemma {:induction false} ChunksOfAppend(a: seq<WireEvent>, b: seq<WireEvent>)
    ensures ChunksOf(a + b) == ChunksOf(a) + ChunksOf(b)
    ensures SleepCount(a + b) == SleepCount(a) + SleepCount(b)
    decreases |a|
  {
    if |a| == 0 {
      assert a + b == b;
    } else {
      var ab := a + b;
      assert ab[0] == a[0] && ab[1..] == a[1..] + b;
      ChunksOfAppend(a[1..], b);
      var head := if a[0].Chunk? then [a[0].data] else [];
      assert ChunksOf(ab) == head + ChunksOf(a[1..] + b);
      assert ChunksOf(a) == head + ChunksOf(a[1..]);
      AppendAssoc(head, ChunksOf(a[1..]), ChunksOf(b));
    }
  }

  /** Dividing off one more chunk: `ceil((n + size) / size) == ceil(n / size) + 1`. */
  lemma CeilDivStep(n: nat, size: nat)
    requires size > 0
    ensures CeilDiv(n + size, size) == CeilDiv(n, size) + 1
  {
    var x := n + size - 1;
    var q, r := x / size, x % size;
    var q2, r2 := (x + size) / size, (x + size) % size;
    assert size * (q2 - q - 1) == r - r2;
    var k := q2 - q - 1;
    if k >= 1 {
      MulAtLeast(k, size);
    } else if k <= -1 {
      MulAtLeast(-k, size);
    }
  }

  lemma MulAtLeast(k: int, size: nat)
    requires k >= 1 && size > 0
    ensures size * k >= size
  {
  }

  lemma CeilDivSmall(n: nat, size: nat)
    requires 0 < n <= size
    ensures CeilDiv(n, size) == 1
  {
  }

  /** One step of `Paced` seen through `ChunksOf` and `SleepCount`. */
  lemma PacedUnfold(bytes: seq<Byte>, size: nat, delay: nat)
    requires 0 < size < |bytes|
    ensures ChunksOf(Paced(bytes, size, delay)) == [bytes[..size]] + ChunksOf(Paced(bytes[size..], size, delay))
    ensures SleepCount(Paced(bytes, size, delay)) == (if delay > 0 then 1 else 0) + SleepCount(Paced(bytes[size..], size, delay))
  {
    var head := [Chunk(bytes[..size])];
    var gap: seq<WireEvent> := if delay > 0 then [Sleep(delay)] else [];
    var tail := Paced(bytes[size..], size, delay);
    assert Paced(bytes, size, delay) == head + gap + tail;
    ChunksOfAppend(head + gap, tail);
    ChunksOfAppend(head, gap);
    assert ChunksOf(head) == [bytes[..size]] && SleepCount(head) == 0 by {
      assert ChunksOf(head[1..]) == [] && SleepCount(head[1..]) == 0;
    }
    assert ChunksOf(gap) == [] && SleepCount(gap) == |gap| by {
      if delay > 0 { assert ChunksOf(gap[1..]) == [] && SleepCount(gap[1..]) == 0; }
    }
  }

  /** A payload that fits in one chunk is written as that single chunk. */
  lemma PacedSingle(bytes: seq<Byte>, size: nat, delay: nat)
    requires 0 < |bytes| <= size
    ensures ChunksOf(Paced(bytes, size, delay)) == [bytes]
    ensures SleepCount(Paced(bytes, size, delay)) == 0
  {
    var ev := Paced(bytes, size, delay);
    assert ChunksOf(ev[1..]) == [] && SleepCount(ev[1..]) == 0;
  }

  /**
   * The chunks written for one payload: their concatenation is the payload,
   * there are `ceil(N / size)` of them, none is empty or longer than `size`,
   * and all but the last have exactly `size` bytes.
   */
  lemma {:induction false} PacedChunks(bytes: seq<Byte>, size: nat, delay: nat)
    requires size > 0
    ensures Concat(ChunksOf(Paced(bytes, size, delay))) == bytes
    ensures |ChunksOf(Paced(bytes, size, delay))| == CeilDiv(|bytes|, size)
    ensures ChunkSizes(ChunksOf(Paced(bytes, size, delay)), size)
    decreases |bytes|
  {
    var cs := ChunksOf(Paced(bytes, size, delay));
    if |bytes| == 0 {
      assert cs == [];
    } else if |bytes| <= size {
      PacedSingle(bytes, size, delay);
      CeilDivSmall(|bytes|, size);
      assert Concat([bytes]) == Concat([bytes][..0]) + bytes;
    } else {
      var rest := bytes[size..];
      var tail := ChunksOf(Paced(rest, size, delay));
      PacedChunks(rest, size, delay);
      PacedUnfold(bytes, size, delay);
      assert cs == [bytes[..size]] + tail;
      assert Concat(cs) == bytes by {
        ConcatCons(bytes[..size], tail);
        assert bytes == bytes[..size] + rest;
      }
      assert |cs| == CeilDiv(|bytes|, size) by {
        CeilDivStep(|rest|, size);
        assert |rest| + size == |bytes|;
      }
      ChunkSizesCons(bytes[..size], tail, size);
    }
  }

  /** No chunk is empty or longer than `size`, and all but the last have exactly `size` bytes. */
  predicate ChunkSizes(cs: seq<seq<Byte>>, size: nat)
  {
    && (forall i :: 0 <= i < |cs| ==> 0 < |cs[i]| <= size)
    && (forall i :: 0 <= i < |cs| - 1 ==> |cs[i]| == size)
  }

  /** A full chunk in front of well-sized chunks keeps them well-sized. */
  lemma ChunkSizesCons(head: seq<Byte>, tail: seq<seq<Byte>>, size: nat)
    requires 0 < |head| == size && ChunkSizes(tail, size)
    ensures ChunkSizes([head] + tail, size)
  {
    var cs := [head] + tail;
    forall i | 0 <= i < |cs|
      ensures 0 < |cs[i]| <= size && (i < |cs| - 1 ==> |cs[i]| == size)
    {
      if i > 0 { assert cs[i] == tail[i - 1]; }
    }
  }

  /** A non-empty payload starts with a chunk. */
  lemma PacedStartsWithChunk(bytes: seq<Byte>, size: nat, delay: nat)
    requires size > 0 && |bytes| > 0
    ensures |Paced(bytes, size, delay)| > 0 && Paced(bytes, size, delay)[0].Chunk?
  {
  }

  /**
   * Sleeps are inserted only between two chunks, never first or last, each of
   * `delay` ms; with `delay > 0` there are `ceil(N / size) - 1` of them, and
   * none with `delay == 0`.
   */
  lemma {:induction false} PacedSleeps(bytes: seq<Byte>, size: nat, delay: nat)
    requires size > 0
    ensures SleepCount(Paced(bytes, size, delay)) ==
              if delay > 0 && |bytes| > 0 then CeilDiv(|bytes|, size) - 1 else 0
    ensures forall i :: 0 <= i < |Paced(bytes, size, delay)| && Paced(bytes, size, delay)[i].Sleep? ==>
              && 0 < i < |Paced(bytes, size, delay)| - 1
              && Paced(bytes, size, delay)[i - 1].Chunk?
              && Paced(bytes, size, delay)[i + 1].Chunk?
              && Paced(bytes, size, delay)[i].ms == delay
    decreases |bytes|
  {
    var ev := Paced(bytes, size, delay);
    if |bytes| == 0 {
    } else if |bytes| <= size {
      CeilDivSmall(|bytes|, size);
      assert SleepCount(ev) == 0 by { assert SleepCount(ev[1..]) == 0; }
    } else {
      var rest := bytes[size..];
      var gap: seq<WireEvent> := if delay > 0 then [Sleep(delay)] else [];
      var tail := Paced(rest, size, delay);
      PacedSleeps(rest, size, delay);
      PacedStartsWithChunk(rest, size, delay);
      ChunksOfAppend([Chunk(bytes[..size])] + gap, tail);
      ChunksOfAppend([Chunk(bytes[..size])], gap);
      assert SleepCount([Chunk(bytes[..size])]) == 0 by {
        assert SleepCount([Chunk(bytes[..size])][1..]) == 0;
      }
      assert SleepCount(gap) == |gap| by {
        if delay > 0 { assert SleepCount(gap[1..]) == 0; }
      }
      CeilDivStep(|rest|, size);
      assert |rest| + size == |bytes|;
      assert ev == [Chunk(bytes[..size])] + gap + tail;
      forall i | 0 <= i < |ev| && ev[i].Sleep?
        ensures 0 < i < |ev| - 1 && ev[i - 1].Chunk? && ev[i + 1].Chunk? && ev[i].ms == delay
      {
        var k := 1 + |gap|;
        if i >= k {
          assert ev[i] == tail[i - k];
        }
      }
    }
  }

  /**
   * What `send` puts on the wire for an `n`-byte payload: no chunk when empty,
   * a single undelayed chunk up to 256 bytes, and otherwise `ceil(n / size)`
   * chunks of the tier's size separated by `ceil(n / size) - 1` sleeps of the
   * tier's delay.
   */
  lemma {:induction false} SendShape(bytes: seq<Byte>)
    ensures var (cs, d) := PacingTier(|bytes|);
            var ev := Paced(bytes, SafeChunkSize(Finite(cs)), SafeChunkDelay(Finite(d)));
            && Concat(ChunksOf(ev)) == bytes
            && (|bytes| == 0 ==> ev == [])
            && (0 < |bytes| <= 256 ==> ev == [Chunk(bytes)])
            && (|bytes| > 256 ==> |ChunksOf(ev)| == CeilDiv(|bytes|, cs) && SleepCount(ev) == |ChunksOf(ev)| - 1)
  {
    var (cs, d) := PacingTier(|bytes|);
    var size, delay := SafeChunkSize(Finite(cs)), SafeChunkDelay(Finite(d));
    PacedChunks(bytes, size, delay);
    PacedSleeps(bytes, size, delay);
    if |bytes| > 256 {
      assert size == cs && delay == d && d > 0;
    }
  }

  // ---------------------------------------------------------------------------
  // The chunked writer

  /**
   * `_writeBytes`: writes `bytes` in chunks of the safe chunk size, sleeping the
   * safe delay between chunks. `failAt` is the index of the chunk whose
   * `writer.write` rejects, if any; the rejection ends the loop (it propagates
   * out of `_writeBytes`, after the writer lock is released).
   */
  method WriteBytes(bytes: seq<Byte>, chunkSize: Number, chunkDelayMs: Number, failAt: Option<nat>)
    returns (events: seq<WireEvent>, failed: bool)
    ensures var expected := Paced(bytes, SafeChunkSize(chunkSize), SafeChunkDelay(chunkDelayMs));
            && (failed <==> failAt.Some? && failAt.value < |ChunksOf(expected)|)
            && (!failed ==> events == expected)
            && (failed ==> && events < expected
                           && expected[|events|].Chunk?
                           && |ChunksOf(events)| == failAt.value)
  {
    var size := SafeChunkSize(chunkSize);
    var delay := SafeChunkDelay(chunkDelayMs);
    ghost var expected := Paced(bytes, size, delay);
    events := [];
    failed := false;
    var offset := 0;
    var index: nat := 0;
    while offset < |bytes|
      invariant 0 <= offset
      invariant |ChunksOf(events)| == index
      invariant offset < |bytes| ==> events + Paced(bytes[offset..], size, delay) == expected
      invariant offset >= |bytes| ==> events == expected
      invariant !(failAt.Some? && failAt.value < index)
      decreases |bytes| - offset
    {
      var end := if offset + size < |bytes| then offset + size else |bytes|;
      if failAt == Some(index) {
        failed := true;
        FailurePoint(events, bytes[offset..], size, delay);
        return;
      }
      var step: seq<WireEvent> := [Chunk(bytes[offset..end])];
      if delay > 0 && offset + size < |bytes| {
        step := step + [Sleep(delay)];
      }
      WriteStep(events, bytes, offset, size, delay, step);
      events := events + step;
      offset := offset + size;
      index := index + 1;
    }
  }

  /** Where a rejected chunk stops the writer: just before the next chunk of the reference. */
  lemma FailurePoint(events: seq<WireEvent>, rest: seq<Byte>, size: nat, delay: nat)
    requires size > 0 && |rest| > 0
    ensures var expected := events + Paced(rest, size, delay);
            && events < expected
            && expected[|events|].Chunk?
            && |ChunksOf(expected)| > |ChunksOf(events)|
  {
    ChunksOfAppend(events, Paced(rest, size, delay));
    if |rest| > size {
      PacedUnfold(rest, size, delay);
    } else {
      PacedSingle(rest, size, delay);
    }
  }

  /** One iteration of the writer's loop emits the next piece of the reference. */
  lemma WriteStep(events: seq<WireEvent>, bytes: seq<Byte>, offset: nat, size: nat, delay: nat, step: seq<WireEvent>)
    requires 0 < size && offset < |bytes|
    requires step == [Chunk(bytes[offset..if offset + size < |bytes| then offset + size else |bytes|])] +
                     (if delay > 0 && offset + size < |bytes| then [Sleep(delay)] else [])
    ensures |ChunksOf(events + step)| == |ChunksOf(events)| + 1
    ensures offset + size < |bytes| ==>
              events + Paced(bytes[offset..], size, delay) == events + step + Paced(bytes[offset + size..], size, delay)
    ensures offset + size >= |bytes| ==> events + Paced(bytes[offset..], size, delay) == events + step
  {
    StepCountsOneChunk(events, step);
    var rest := bytes[offset..];
    if offset + size < |bytes| {
      assert rest[..size] == bytes[offset..offset + size];
      assert rest[size..] == bytes[offset + size..];
    } else {
      assert rest == bytes[offset..|bytes|];
    }
  }

  /** A chunk, possibly followed by a sleep, adds one chunk to what was written. */
  lemma StepCountsOneChunk(events: seq<WireEvent>, step: seq<WireEvent>)
    requires 1 <= |step| <= 2 && step[0].Chunk? && (|step| == 2 ==> step[1].Sleep?)
    ensures |ChunksOf(events + step)| == |ChunksOf(events)| + 1
  {
    ChunksOfAppend(events, step);
    ChunksOfAppend([step[0]], step[1..]);
    assert [step[0]] + step[1..] == step;
    assert ChunksOf([step[0]]) == [step[0].data] by { assert ChunksOf([step[0]][1..]) == []; }
    if |step| > 1 {
      assert ChunksOf(step[1..]) == [] by { assert ChunksOf(step[1..][1..]) == []; }
    } else {
      assert step[1..] == [];
    }
  }

  /** Delivering a non-empty buffer keeps the batcher's account of the received fragments. */
  lemma DeliverBuffer(delivered: seq<string>, buffer: string, fragments: string)
    requires Concat(delivered) + buffer == fragments && buffer != ""
    requires forall i :: 0 <= i < |delivered| ==> delivered[i] != ""
    ensures Concat(delivered + [buffer]) + "" == fragments
    ensures forall i :: 0 <= i < |delivered + [buffer]| ==> (delivered + [buffer])[i] != ""
  {
    ConcatSnoc(delivered, buffer);
  }

  // ---------------------------------------------------------------------------
  // The transport object

  class SerialPort {
    var open: bool
    /** `this.port` is set (a port has been chosen at some point). */
    var portSelected: bool
    /** Which port object `this.port` is, when set. */
    var portId: PortId
    /**
     * The `disconnect` listeners each port object carries: every successful
     * open adds one, and none is ever removed.
     */
    var listeners: map<PortId, nat>
    /** `this.outputStream` is set. */
    var hasOutput: bool
    var baudRate: int
    var receiveBuffer: string
    /** `this.receiveTimeout !== null`: a debounce timer is pending. */
    var timerPending: bool
    /** The payloads queued on `_writeChain` that have not run yet, oldest first. */
    var writeQueue: seq<WriteJob>

    /** Everything written to the port, in order. */
    ghost var wire: seq<WireEvent>
    /** Number of queued writes that failed and were caught. */
    ghost var writeFailures: nat
    /** The arguments of the `onReceive` calls, in order. */
    ghost var delivered: seq<string>
    /** All received fragments that were buffered, concatenated in arrival order. */
    ghost var fragments: string
    /** The `onSuccess` / `onFail` calls, in order. */
    ghost var notices: seq<Notice>
    /** The baud rate of each successful `port.open`. */
    ghost var openLog: seq<int>

    /**
     * The batcher's invariant: the deliveries followed by the buffer are exactly
     * the fragments received; no delivery is empty; and data is never buffered
     * without a timer that will deliver it. An open port always has an output stream.
     */
    ghost predicate Valid()
      reads this
    {
      && Concat(delivered) + receiveBuffer == fragments
      && (forall i :: 0 <= i < |delivered| ==> delivered[i] != "")
      && (receiveBuffer != "" ==> timerPending)
      && (open ==> portSelected && hasOutput)
    }

    constructor ()
      ensures Valid()
      ensures !open && !portSelected && !hasOutput && baudRate == DefaultBaudRate
      ensures receiveBuffer == "" && !timerPending && writeQueue == []
      ensures wire == [] && writeFailures == 0 && delivered == [] && fragments == "" && notices == [] && openLog == []
      ensures listeners == map[]
    {
      open := false;
      portSelected := false;
      portId := 0;
      listeners := map[];
      hasOutput := false;
      baudRate := DefaultBaudRate;
      receiveBuffer := "";
      timerPending := false;
      writeQueue := [];
      wire := [];
      writeFailures := 0;
      delivered := [];
      fragments := "";
      notices := [];
      openLog := [];
    }

    /** The number of `disconnect` listeners on port object `p`. */
    function ListenerCount(p: PortId): nat
      reads this
    {
      if p in listeners then listeners[p] else 0
    }

    /** `setBaudRate`: only stores the value; the next successful open uses it. */
    method SetBaudRate(newBaudRate: int)
      modifies this`baudRate
      ensures baudRate == newBaudRate
    {
      baudRate := newBaudRate;
    }

    /**
     * `openPort`: `opening` is the outcome of `port.open({ baudRate })`.
     * Without a port: "No port selected", nothing changes. On failure: `onFail`
     * and a non-empty message, `open` unchanged. On success: `onSuccess`, the
     * port is open at the stored baud rate, one more `disconnect` listener sits
     * on the port object, and the result is "".
     */
    method OpenPort(opening: Outcome) returns (msg: string)
      requires Valid()
      modifies this`open, this`hasOutput, this`notices, this`openLog, this`listeners
      ensures Valid()
      ensures !old(portSelected) ==> msg == "No port selected" && unchanged(this)
      ensures old(portSelected) && opening.Fail? ==>
                && msg == "Failed to open port: " + opening.reason
                && open == old(open) && hasOutput == old(hasOutput)
                && notices == old(notices) + [Failed] && openLog == old(openLog)
                && listeners == old(listeners)
      ensures old(portSelected) && opening.Ok? ==>
                && msg == "" && open && hasOutput
                && notices == old(notices) + [Connected] && openLog == old(openLog) + [baudRate]
                && listeners == old(listeners)[portId := old(ListenerCount(portId)) + 1]
      ensures msg == "" <==> old(portSelected) && opening.Ok?
    {
      if !portSelected {
        msg := "No port selected";
        return;
      }
      match opening {
        case Fail(reason) =>
          notices := notices + [Failed];
          msg := "Failed to open port: " + reason;
        case Ok =>
          openLog := openLog + [baudRate];
          listeners := listeners[portId := ListenerCount(portId) + 1];
          hasOutput := true;
          notices := notices + [Connected];
          open := true;
          msg := "";
      }
    }

    /**
     * `requestPort`: closes any open connection, lets the user choose a port
     * (`selection`; on success the port object `chosen`), then opens it
     * (`opening`). A failed selection leaves the previously chosen port in
     * place and returns its message.
     */
    method RequestPort(selection: Outcome, chosen: PortId, opening: Outcome) returns (msg: string)
      requires Valid()
      modifies this`open, this`portSelected, this`portId, this`hasOutput, this`notices, this`openLog, this`listeners
      ensures Valid()
      ensures selection.Fail? ==>
                && msg == "Port selection failed: " + selection.reason
                && !open && portSelected == old(portSelected) && portId == old(portId)
                && notices == old(notices) && openLog == old(openLog) && hasOutput == old(hasOutput)
                && listeners == old(listeners)
      ensures selection.Ok? && opening.Fail? ==>
                && msg == "Failed to open port: " + opening.reason
                && !open && portSelected && portId == chosen && notices == old(notices) + [Failed]
                && openLog == old(openLog) && hasOutput == old(hasOutput)
                && listeners == old(listeners)
      ensures selection.Ok? && opening.Ok? ==>
                && msg == "" && open && portId == chosen && notices == old(notices) + [Connected]
                && openLog == old(openLog) + [baudRate]
                && listeners == old(listeners)[chosen := old(ListenerCount(chosen)) + 1]
    {
      Close();
      if selection.Fail? {
        msg := "Port selection failed: " + selection.reason;
        return;
      }
      portSelected := true;
      portId := chosen;
      msg := OpenPort(opening);
    }

    /**
     * Port object `p` reports a `disconnect`: every listener an earlier
     * successful open put on it notifies `onFail`; the read loop ends separately.
     */
    method Disconnected(p: PortId)
      requires Valid()
      modifies this`notices
      ensures Valid()
      ensures notices == old(notices) + Failures(ListenerCount(p))
    {
      notices := notices + Failures(ListenerCount(p));
    }

    /** `close`: acts only when open, and then clears `open`; a second call does nothing. */
    method Close()
      requires Valid()
      modifies this`open
      ensures Valid()
      ensures !open
    {
      if open {
        open := false;
      }
    }

    /** `_bufferReceive`: append to the buffer and (re)start the debounce timer. */
    method BufferReceive(data: string)
      requires Valid()
      modifies this`receiveBuffer, this`timerPending, this`fragments
      ensures Valid()
      ensures receiveBuffer == old(receiveBuffer) + data && timerPending
      ensures fragments == old(fragments) + data
    {
      receiveBuffer := receiveBuffer + data;
      fragments := fragments + data;
      timerPending := true;
    }

    /** One `reader.read()` result inside the read loop: non-empty values are buffered. */
    method ReadValue(value: string)
      requires Valid()
      modifies this`receiveBuffer, this`timerPending, this`fragments
      ensures Valid()
      ensures value != "" ==> receiveBuffer == old(receiveBuffer) + value && timerPending
      ensures value == "" ==> unchanged(this)
      ensures fragments == old(fragments) + value
    {
      if |value| > 0 {
        BufferReceive(value);
      }
    }

    /** Hand the buffered text, if any, to `onReceive` in one call, and drop the timer. */
    method Flush()
      requires Valid()
      modifies this`receiveBuffer, this`timerPending, this`delivered
      ensures Valid()
      ensures receiveBuffer == "" && !timerPending
      ensures delivered == old(delivered) + (if old(receiveBuffer) == "" then [] else [old(receiveBuffer)])
    {
      if |receiveBuffer| > 0 {
        DeliverBuffer(delivered, receiveBuffer, fragments);
        delivered := delivered + [receiveBuffer];
        receiveBuffer := "";
      }
      timerPending := false;
    }

    /** The 50 ms debounce timer fires: deliver the buffer if non-empty. */
    method TimerFired()
      requires Valid() && timerPending
      modifies this`receiveBuffer, this`timerPending, this`delivered
      ensures Valid()
      ensures receiveBuffer == "" && !timerPending
      ensures delivered == old(delivered) + (if old(receiveBuffer) == "" then [] else [old(receiveBuffer)])
    {
      Flush();
    }

    /**
     * The read loop ends (stream done, read error, or the loop sees `!open`):
     * on error `onFail`; then flush the buffer, cancel the timer, and clear `open`.
     */
    method ReadFinished(readError: bool)
      requires Valid()
      modifies this`receiveBuffer, this`timerPending, this`delivered, this`open, this`notices
      ensures Valid()
      ensures receiveBuffer == "" && !timerPending && !open
      ensures delivered == old(delivered) + (if old(receiveBuffer) == "" then [] else [old(receiveBuffer)])
      ensures notices == old(notices) + (if readError then [Failed] else [])
    {
      if readError {
        notices := notices + [Failed];
      }
      Flush();
      open := false;
    }

    /**
     * `send`, given the UTF-8 bytes of the text: ignored unless open with an
     * output stream; otherwise queued behind every earlier write with the
     * payload's pacing tier.
     */
    method Send(bytes: seq<Byte>)
      requires Valid()
      modifies this`writeQueue
      ensures Valid()
      ensures !(open && hasOutput) ==> writeQueue == old(writeQueue)
      ensures open && hasOutput ==>
                writeQueue == old(writeQueue) +
                  [WriteJob(bytes, Finite(PacingTier(|bytes|).0), Finite(PacingTier(|bytes|).1))]
    {
      if !open || !hasOutput {
        return;
      }
      var chunkSize, chunkDelayMs := ChoosePacing(|bytes|);
      writeQueue := writeQueue + [WriteJob(bytes, Finite(chunkSize), Finite(chunkDelayMs))];
    }

    /**
     * `sendByte`: ignored unless open with an output stream; otherwise queues a
     * one-byte payload (the value as `Uint8Array` stores it, modulo 256) in one
     * chunk with no delay.
     */
    method SendByte(value: int)
      requires Valid()
      modifies this`writeQueue
      ensures Valid()
      ensures !(open && hasOutput) ==> writeQueue == old(writeQueue)
      ensures open && hasOutput ==>
                writeQueue == old(writeQueue) + [WriteJob([value % 256], Finite(1), Finite(0))]
    {
      if !open || !hasOutput {
        return;
      }
      writeQueue := writeQueue + [WriteJob([value % 256], Finite(1), Finite(0))];
    }

    /**
     * The write chain runs its oldest payload. `failAt` is the chunk at which
     * the device rejects a write, if any; the failure is caught and counted and
     * the chain moves on to the next payload either way.
     */
    method RunNextWrite(failAt: Option<nat>)
      requires Valid() && writeQueue != []
      modifies this`writeQueue, this`wire, this`writeFailures
      ensures Valid()
      ensures writeQueue == old(writeQueue)[1..]
      ensures var job := old(writeQueue)[0];
              var expected := Paced(job.bytes, SafeChunkSize(job.chunkSize), SafeChunkDelay(job.chunkDelayMs));
              && old(wire) <= wire
              && (writeFailures != old(writeFailures) <==> failAt.Some? && failAt.value < |ChunksOf(expected)|)
              && (writeFailures == old(writeFailures) ==> wire == old(wire) + expected)
              && (writeFailures != old(writeFailures) ==>
                    && writeFailures == old(writeFailures) + 1
                    && wire[|old(wire)|..] < expected
                    && expected[|wire| - |old(wire)|].Chunk?
                    && |ChunksOf(wire[|old(wire)|..])| == failAt.value)
    {
      var job := writeQueue[0];
      var events, failed := WriteBytes(job.bytes, job.chunkSize, job.chunkDelayMs, failAt);
      ghost var before := wire;
      wire := wire + events;
      assert wire[|before|..] == events && |wire| - |before| == |events|;
      if failed {
        writeFailures := writeFailures + 1;
      }
      writeQueue := writeQueue[1..];
    }
  }

  /**
   * Running the write queue after `Send` and `SendByte` puts each payload on the
   * wire after all earlier ones: two queued payloads that both succeed appear
   * one after the other, in call order.
   */
  method SendThenSendByte(port: SerialPort, text: seq<Byte>, b: Byte)
    requires port.Valid() && port.open && port.writeQueue == []
    modifies port
    ensures port.Valid()
    ensures port.wire == old(port.wire) + Paced(text, SafeChunkSize(Finite(PacingTier(|text|).0)), PacingTier(|text|).1) + [Chunk([b])]
  {
    port.Send(text);
    port.SendByte(b);
    port.RunNextWrite(None);
    port.RunNextWrite(None);
    assert Paced([b], 1, 0) == [Chunk([b])];
  }

  /**
   * Choosing the same port object twice leaves two `disconnect` listeners on
   * it, so one disconnect of that device notifies `onFail` twice.
   */
  method ReselectThenDisconnect(port: SerialPort, p: PortId)
    requires port.Valid() && p !in port.listeners
    modifies port
    ensures port.notices == old(port.notices) + [Connected, Connected, Failed, Failed]
  {
    var msg := port.RequestPort(Ok, p, Ok);
    msg := port.RequestPort(Ok, p, Ok);
    assert port.ListenerCount(p) == 2;
    port.Disconnected(p);
  }
}
