/** The front end of the decompressing stream: `IncrementalReader` and `SseDecompressor`, around an opaque inflater. */
module Decompress {
  import opened ByteText
  import opened Lines
  import opened Wrappers

  const MAX_COMPRESSED_BUFFER := 64 * 1024 * 1024
  const MAX_DECOMPRESSED_BYTES := 16 * 1024 * 1024
  const GZIP_MAGIC: Bytes := [0x1F, 0x8B]

  datatype Reader = Reader(buffer: Bytes, pos: nat, finished: bool) {
    ghost predicate Valid() {
      pos <= |buffer|
    }

    /** The bytes not yet handed out. */
    function Unread(): Bytes
      requires Valid()
    {
      buffer[pos..]
    }
  }

  datatype ReadResult = Got(data: Bytes) | WouldBlock

  class IncrementalReader {
    var buffer: Bytes
    var pos: nat
    var finished: bool

    function State(): Reader
      reads this
    {
      Reader(buffer, pos, finished)
    }

    constructor (initial: Bytes)
      ensures State() == Reader(initial, 0, false)
    {
      buffer, pos, finished := initial, 0, false;
    }

    /** All that a caller can tell of the state. */
    function Visible(): View
      requires State().Valid()
      reads this
    {
      View(State().Unread(), finished)
    }

    method Push(data: Bytes)
      requires State().Valid()
      modifies this
      ensures State().Valid() && Visible() == Do(old(Visible()), Op.Push(data))
    {
      if pos > 0 {
        buffer := buffer[pos..];
        pos := 0;
      }
      buffer := buffer + data;
      if |buffer| > MAX_COMPRESSED_BUFFER {
        buffer := buffer[..MAX_COMPRESSED_BUFFER];
      }
    }

    method Finish()
      requires State().Valid()
      modifies this`finished
      ensures State().Valid() && Visible() == Do(old(Visible()), Op.Finish)
    {
      finished := true;
    }

    method Read(capacity: nat) returns (r: ReadResult)
      requires State().Valid()
      modifies this`pos
      ensures State().Valid() && Visible() == Do(old(Visible()), Op.Read(capacity))
      ensures r == Answer(old(Visible()), capacity)
    {
      var available := |buffer| - pos;
      if available == 0 {
        return if finished then Got([]) else WouldBlock;
      }
      var n := if available < capacity then available else capacity;
      r := Got(buffer[pos..pos + n]);
      pos := pos + n;
    }
  }

  function Capped(b: Bytes): Bytes {
    if |b| > MAX_COMPRESSED_BUFFER then b[..MAX_COMPRESSED_BUFFER] else b
  }

  // ---------------------------------------------------------------- runs of the reader

  datatype View = View(unread: Bytes, finished: bool)

  datatype Op = Push(data: Bytes) | Finish | Read(capacity: nat)

  function Amount(v: View, capacity: nat): (n: nat)
    ensures n <= |v.unread| && n <= capacity
  {
    if |v.unread| < capacity then |v.unread| else capacity
  }

  function Do(v: View, op: Op): View {
    match op
    case Push(data) => v.(unread := Capped(v.unread + data))
    case Finish => v.(finished := true)
    case Read(capacity) => v.(unread := v.unread[Amount(v, capacity)..])
  }

  /** With nothing unread, `Got([])` is end of file; with bytes unread it only means that none were asked for. */
  function Answer(v: View, capacity: nat): ReadResult {
    if v.unread != [] then Got(v.unread[..Amount(v, capacity)]) else if v.finished then Got([]) else WouldBlock
  }

  /** What is visible, everything handed out, and whether end of file was reported or a push went over the cap. */
  datatype Run = Run(view: View, handedOut: Bytes, sawEof: bool, overflowed: bool)

  function Apply(r: Run, op: Op): Run {
    var next, v := r.(view := Do(r.view, op)), r.view;
    match op
    case Push(data) => next.(overflowed := r.overflowed || |v.unread + data| > MAX_COMPRESSED_BUFFER)
    case Finish => next
    case Read(capacity) =>
      match Answer(v, capacity)
      case WouldBlock => next
      case Got(data) => next.(handedOut := r.handedOut + data, sawEof := r.sawEof || v.unread == [])
  }

  function Exec(initial: Bytes, ops: seq<Op>): Run {
    if ops == [] then Run(View(initial, false), [], false, false)
    else Apply(Exec(initial, ops[..|ops| - 1]), ops[|ops| - 1])
  }

  function Pushed(initial: Bytes, ops: seq<Op>): Bytes {
    if ops == [] then initial
    else Pushed(initial, ops[..|ops| - 1]) + if ops[|ops| - 1].Push? then ops[|ops| - 1].data else []
  }

  predicate PushesAfterFinish(ops: seq<Op>) {
    exists i, j | 0 <= i < j < |ops| :: ops[i].Finish? && ops[j].Push?
  }

  /**
    Below the cap, at every moment of every run, the bytes handed out and the bytes still buffered are the bytes pushed.
   */
  lemma {:induction false} ReaderConserves(initial: Bytes, ops: seq<Op>)
    requires !Exec(initial, ops).overflowed
    ensures var r := Exec(initial, ops); r.handedOut + r.view.unread == Pushed(initial, ops)
  {
    if ops == [] {
      assert [] + initial == initial;
    } else {
      var init, last := ops[..|ops| - 1], ops[|ops| - 1];
      ReaderConserves(initial, init);
      ApplyConserves(Exec(initial, init), last);
    }
  }

  lemma ApplyConserves(r: Run, op: Op)
    requires !Apply(r, op).overflowed
    ensures var r' := Apply(r, op);
            r'.handedOut + r'.view.unread == r.handedOut + r.view.unread + if op.Push? then op.data else []
  {
    if op.Push? {
      assert r.handedOut + (r.view.unread + op.data) == r.handedOut + r.view.unread + op.data;
    } else {
      assert r.handedOut + r.view.unread + [] == r.handedOut + r.view.unread;
      if op.Read? {
        var n := Amount(r.view, op.capacity);
        assert r.handedOut + r.view.unread[..n] + r.view.unread[n..] == r.handedOut + r.view.unread;
      }
    }
  }

  /**
    A read hands out as much as fits and is there; with nothing there it reports end of file if the end has been
    declared, and otherwise that nothing is there yet.
   */
  lemma ReadAnswers(v: View, capacity: nat)
    ensures match Answer(v, capacity)
            case WouldBlock => v.unread == [] && !v.finished
            case Got(data) =>
              && data + Do(v, Op.Read(capacity)).unread == v.unread
              && (|data| == capacity || (|data| < capacity && Do(v, Op.Read(capacity)).unread == []))
              && (v.unread == [] ==> v.finished)
  {
    var n := Amount(v, capacity);
    assert v.unread[..n] + v.unread[n..] == v.unread;
  }

  function Reads(capacity: nat, n: nat): seq<Op> {
    if n == 0 then [] else Reads(capacity, n - 1) + [Op.Read(capacity)]
  }

  function ReadTimes(r: Run, capacity: nat, n: nat): Run {
    if n == 0 then r else Apply(ReadTimes(r, capacity, n - 1), Op.Read(capacity))
  }

  lemma {:induction false} ExecReads(initial: Bytes, ops: seq<Op>, capacity: nat, n: nat)
    ensures Exec(initial, ops + Reads(capacity, n)) == ReadTimes(Exec(initial, ops), capacity, n)
  {
    if n == 0 {
      assert ops + [] == ops;
    } else {
      var before := ops + Reads(capacity, n - 1);
      ExecReads(initial, ops, capacity, n - 1);
      assert ops + Reads(capacity, n) == before + [Op.Read(capacity)];
      assert (before + [Op.Read(capacity)])[..|before|] == before;
    }
  }

  /** After `n` reads either that many full answers have been handed out, or everything. */
  lemma {:induction false} ReadTimesHands(r: Run, capacity: nat, n: nat)
    ensures var e := ReadTimes(r, capacity, n);
            && e.handedOut + e.view.unread == r.handedOut + r.view.unread && e.view.finished == r.view.finished
            && (e.view.unread == [] || |e.view.unread| + n * capacity == |r.view.unread|)
  {
    if n > 0 {
      var m := ReadTimes(r, capacity, n - 1);
      ReadTimesHands(r, capacity, n - 1);
      ReadHands(m, capacity);
      assert n * capacity == (n - 1) * capacity + capacity;
    }
  }

  lemma ReadHands(r: Run, capacity: nat)
    ensures var e := Apply(r, Op.Read(capacity));
            && e.handedOut + e.view.unread == r.handedOut + r.view.unread && e.view.finished == r.view.finished
            && (e.view.unread == [] || |e.view.unread| + capacity == |r.view.unread|)
            && (r.view.unread == [] ==> e.sawEof == (r.sawEof || r.view.finished))
  {
    ReadAnswers(r.view, capacity);
    match Answer(r.view, capacity)
    case WouldBlock =>
    case Got(data) => AppendAssoc(r.handedOut, data, Do(r.view, Op.Read(capacity)).unread);
  }

  /** Once the end is declared, reading on hands out all that is left and then reports end of file. */
  lemma ReadsToTheEnd(initial: Bytes, ops: seq<Op>, capacity: nat, n: nat)
    requires Exec(initial, ops).view.finished && |Exec(initial, ops).view.unread| <= n * capacity
    ensures var r := Exec(initial, ops + Reads(capacity, n + 1));
            && r.sawEof && r.view.unread == []
            && r.handedOut == Exec(initial, ops).handedOut + Exec(initial, ops).view.unread
  {
    var start := Exec(initial, ops);
    var m, e := ReadTimes(start, capacity, n), ReadTimes(start, capacity, n + 1);
    ExecReads(initial, ops, capacity, n + 1);
    ReadTimesHands(start, capacity, n);
    ReadHands(m, capacity);
    assert m.view.unread == [] && m.handedOut + [] == m.handedOut && e.handedOut + [] == e.handedOut;
  }

  /**
    End of file is reported only once the end has been declared, and only when nothing is left: after it, with no push
    since the end was declared, every byte pushed has been handed out.
   */
  lemma EofMeansAllConsumed(initial: Bytes, ops: seq<Op>)
    requires Exec(initial, ops).sawEof
    ensures Finish in ops
    ensures !Exec(initial, ops).overflowed && !PushesAfterFinish(ops) ==>
              Exec(initial, ops).handedOut == Pushed(initial, ops)
  {
    EofAfterFinish(initial, ops);
    if !Exec(initial, ops).overflowed && !PushesAfterFinish(ops) {
      ReaderConserves(initial, ops);
      var out := Exec(initial, ops).handedOut;
      assert out + [] == out;
    }
  }

  lemma {:induction false} EofAfterFinish(initial: Bytes, ops: seq<Op>)
    ensures var r := Exec(initial, ops);
            && (r.sawEof ==> r.view.finished)
            && (r.view.finished ==> Finish in ops)
            && (r.sawEof && !PushesAfterFinish(ops) ==> r.view.unread == [])
  {
    if ops != [] {
      var init, last := ops[..|ops| - 1], ops[|ops| - 1];
      assert ops == init + [last];
      EofAfterFinish(initial, init);
      ApplyEof(Exec(initial, init), last);
      if last.Push? {
        LatePush(init, last);
      } else {
        NoNewPush(init, last);
      }
    }
  }

  lemma ApplyEof(r: Run, op: Op)
    ensures var r' := Apply(r, op);
            && (r'.view.finished <==> r.view.finished || op.Finish?)
            && (r'.sawEof && !r.sawEof ==> r.view.finished && r'.view.unread == [])
            && (r.sawEof ==> r'.sawEof)
            && (r.view.unread == [] && !op.Push? ==> r'.view.unread == [])
  {
  }

  lemma LatePush(init: seq<Op>, last: Op)
    requires last.Push?
    ensures Finish in init ==> PushesAfterFinish(init + [last])
  {
    if Finish in init {
      var i :| 0 <= i < |init| && init[i] == Finish;
      assert (init + [last])[i].Finish? && (init + [last])[|init|].Push?;
    }
  }

  lemma NoNewPush(init: seq<Op>, last: Op)
    requires !last.Push?
    ensures PushesAfterFinish(init + [last]) <==> PushesAfterFinish(init)
  {
    var ops := init + [last];
    if PushesAfterFinish(init) {
      var i, j :| 0 <= i < j < |init| && init[i].Finish? && init[j].Push?;
      assert ops[i].Finish? && ops[j].Push?;
    }
  }

  // ---------------------------------------------------------------- the decompressor

  /**
    The gzip decoder behind the front end.  At a read it is shown the unread input and whether more can come; it answers
    how much of that it took, what it produced, and its next state.  Nothing produced stands for end of file, no input
    yet, and a decode error alike.
   */
  datatype Inflater<!D> = Inflater(start: D, read: (D, Bytes, bool) -> (nat, Bytes, D))

  datatype Decoder<D> = Decoder(unread: Bytes, finished: bool, inner: D)

  /** How the stream is encoded, decided from its first two bytes. */
  datatype Encoding = Undecided | Gzip | Identity

  datatype Decompressor<D> = Decompressor(enabled: bool, detected: Encoding, held: Bytes, decoder: Option<Decoder<D>>) {
    ghost predicate Valid() {
      && (detected.Gzip? <==> decoder.Some?)
      && (detected.Undecided? ==> |held| < 2)
      && (!detected.Undecided? ==> held == [])
      && (!enabled ==> detected.Undecided? && held == [])
    }
  }

  function New<D>(enabled: bool): Decompressor<D> {
    Decompressor(enabled, Undecided, [], None)
  }

  predicate IsGzip(b: Bytes) {
    |b| >= 2 && b[..2] == GZIP_MAGIC
  }

  /** What one call returns, what the decoder took during it, and the state after it. */
  datatype Outcome<D> = Outcome(out: Bytes, taken: Bytes, next: Decompressor<D>)

  datatype Pulled<D> = Pulled(out: Bytes, taken: Bytes, after: Decoder<D>)

  /** One read of the decoder. */
  function ReadOnce<D>(z: Inflater<D>, c: Decoder<D>): Pulled<D> {
    var (wanted, data, inner) := z.read(c.inner, c.unread, c.finished);
    var n := if wanted < |c.unread| then wanted else |c.unread|;
    Pulled(data, c.unread[..n], Decoder(c.unread[n..], c.finished, inner))
  }

  /** Reads until nothing comes; what would go over the cap is cut off and ends the call. */
  function PullAll<D>(z: Inflater<D>, c: Decoder<D>, out: Bytes): Pulled<D>
    requires |out| <= MAX_DECOMPRESSED_BYTES
    decreases MAX_DECOMPRESSED_BYTES - |out|
  {
    var one := ReadOnce(z, c);
    if one.out == [] then one.(out := out)
    else if |out + one.out| > MAX_DECOMPRESSED_BYTES then one.(out := (out + one.out)[..MAX_DECOMPRESSED_BYTES])
    else
      var rest := PullAll(z, one.after, out + one.out);
      rest.(taken := one.taken + rest.taken)
  }

  function Pull<D>(z: Inflater<D>, d: Decompressor<D>, c: Decoder<D>): Outcome<D> {
    var all := PullAll(z, c, []);
    Outcome(all.out, all.taken, d.(decoder := Some(all.after)))
  }

  function Chunk<D>(z: Inflater<D>, d: Decompressor<D>, data: Bytes): Outcome<D>
    requires d.Valid()
  {
    if !d.enabled || d.detected.Identity? then Outcome(data, [], d)
    else if d.detected.Gzip? then
      Pull(z, d, d.decoder.value.(unread := Capped(d.decoder.value.unread + data)))
    else
      var held := d.held + data;
      if |held| < 2 then Outcome([], [], d.(held := held))
      else if IsGzip(held) then
        Pull(z, d.(detected := Gzip, held := []), Decoder(held, false, z.start))
      else Outcome(held, [], d.(detected := Identity, held := []))
  }

  function Flush<D>(z: Inflater<D>, d: Decompressor<D>): Outcome<D>
    requires d.Valid()
  {
    if d.detected.Gzip? then Pull(z, d, d.decoder.value.(finished := true))
    else Outcome(d.held, [], d.(held := []))
  }

  lemma ChunkKeepsValid<D>(z: Inflater<D>, d: Decompressor<D>, data: Bytes)
    requires d.Valid()
    ensures Chunk(z, d, data).next.Valid() && Flush(z, d).next.Valid()
  {
  }

  class SseDecompressor<D> {
    const inflater: Inflater<D>
    const enabled: bool
    var encoding: Encoding
    var buffer: Bytes
    var input: IncrementalReader?
    var inner: D

    ghost predicate Valid()
      reads this, input
    {
      && (input != null ==> input.State().Valid())
      && State().Valid()
    }

    ghost function State(): Decompressor<D>
      reads this, input
    {
      Decompressor(enabled, encoding, buffer,
                   if input != null && input.State().Valid() then
                     Some(Decoder(input.State().Unread(), input.finished, inner))
                   else None)
    }

    constructor (inflater: Inflater<D>, enabled: bool)
      ensures this.inflater == inflater && this.enabled == enabled && input == null
      ensures Valid() && State() == New(enabled)
    {
      this.inflater, this.enabled := inflater, enabled;
      encoding, buffer, input, inner := Undecided, [], null, inflater.start;
    }

    /** One chunk in, whatever can be emitted out. */
    method DecompressChunk(data: Bytes) returns (out: Bytes)
      requires Valid()
      modifies this, input
      ensures Valid() && (input == old(input) || fresh(input))
      ensures var o := Chunk(inflater, old(State()), data); out == o.out && State() == o.next
    {
      if !enabled {
        return data;
      }
      match encoding {
        case Identity =>
          return data;
        case Gzip =>
          input.Push(data);
          out := PullDecoder();
        case Undecided =>
          if data == [] {
            assert buffer + data == buffer;
            return [];
          }
          buffer := buffer + data;
          if |buffer| < 2 {
            return [];
          }
          var isGzip := buffer[0] == GZIP_MAGIC[0] && buffer[1] == GZIP_MAGIC[1];
          assert isGzip == IsGzip(buffer);
          encoding := if isGzip then Gzip else Identity;
          var held := buffer;
          buffer := [];
          if !isGzip {
            return held;
          }
          input := new IncrementalReader(held);
          inner := inflater.start;
          assert held[0..] == held;
          out := PullDecoder();
      }
    }

    method FlushRemaining() returns (out: Bytes)
      requires Valid()
      modifies this, input
      ensures Valid() && input == old(input)
      ensures var o := Flush(inflater, old(State())); out == o.out && State() == o.next
    {
      if encoding.Gzip? {
        input.Finish();
        out := PullDecoder();
      } else {
        out := buffer;
        buffer := [];
      }
    }

    method PullDecoder() returns (out: Bytes)
      requires Valid() && input != null
      modifies this`inner, input
      ensures Valid()
      ensures var s := old(State()); var o := Pull(inflater, s, s.decoder.value); out == o.out && State() == o.next
    {
      out := [];
      ghost var all := PullAll(inflater, Now(), []);
      while true
        invariant Valid() && |out| <= MAX_DECOMPRESSED_BYTES
        invariant var rest := PullAll(inflater, Now(), out); rest.out == all.out && rest.after == all.after
        decreases MAX_DECOMPRESSED_BYTES - |out|
      {
        var data := ReadDecoder();
        if data == [] {
          break;
        }
        out := out + data;
        if |out| > MAX_DECOMPRESSED_BYTES {
          out := out[..MAX_DECOMPRESSED_BYTES];
          break;
        }
      }
    }

    ghost function Now(): Decoder<D>
      requires Valid() && input != null
      reads this, input
    {
      Decoder(input.State().Unread(), input.finished, inner)
    }

    method ReadDecoder() returns (data: Bytes)
      requires Valid() && input != null
      modifies this`inner, input
      ensures Valid()
      ensures var one := ReadOnce(inflater, old(Now())); data == one.out && Now() == one.after
    {
      var (wanted, produced, next) := inflater.read(inner, input.buffer[input.pos..], input.finished);
      ghost var unread := input.State().Unread();
      var taken := input.Read(wanted);
      assert unread != [] ==> input.State().Unread() == unread[|taken.data|..];
      inner := next;
      data := produced;
    }
  }

  // ---------------------------------------------------------------- whole streams

  /** The state after all chunks. */
  function After<D>(z: Inflater<D>, d: Decompressor<D>, chunks: seq<Bytes>): (r: Decompressor<D>)
    requires d.Valid()
    ensures r.Valid()
    decreases |chunks|
  {
    ChunksKeepValid(z, d);
    if chunks == [] then d else After(z, Chunk(z, d, chunks[0]).next, chunks[1..])
  }

  /** The outputs of all chunks and of the final flush, concatenated. */
  function Output<D>(z: Inflater<D>, d: Decompressor<D>, chunks: seq<Bytes>): Bytes
    requires d.Valid()
    decreases |chunks|
  {
    ChunksKeepValid(z, d);
    if chunks == [] then Flush(z, d).out
    else Chunk(z, d, chunks[0]).out + Output(z, Chunk(z, d, chunks[0]).next, chunks[1..])
  }

  /** Everything the decoder took while the chunks arrived. */
  function Taken<D>(z: Inflater<D>, d: Decompressor<D>, chunks: seq<Bytes>): Bytes
    requires d.Valid()
    decreases |chunks|
  {
    ChunksKeepValid(z, d);
    if chunks == [] then []
    else Chunk(z, d, chunks[0]).taken + Taken(z, Chunk(z, d, chunks[0]).next, chunks[1..])
  }

  lemma ChunksKeepValid<D>(z: Inflater<D>, d: Decompressor<D>)
    requires d.Valid()
    ensures forall data {:trigger Chunk(z, d, data)} :: Chunk(z, d, data).next.Valid()
  {
    forall data ensures Chunk(z, d, data).next.Valid() {
      ChunkKeepsValid(z, d, data);
    }
  }

  /** The magic of section 2.3.1 of RFC 1952. */
  lemma MagicIs(text: Bytes)
    ensures IsGzip(text) <==> |text| >= 2 && text[0] == 0x1F && text[1] == 0x8B
  {
    if |text| >= 2 {
      assert text[..2] == [text[0], text[1]];
    }
  }

  lemma FrontBytes(held: Bytes, data: Bytes, rest: Bytes)
    ensures held + (data + rest) == held + data + rest
    ensures |held + data| >= 2 ==> (IsGzip(held + data + rest) <==> IsGzip(held + data))
  {
    if |held + data| >= 2 {
      assert (held + data + rest)[..2] == (held + data)[..2];
    }
  }

  lemma {:induction false} Passes<D>(z: Inflater<D>, d: Decompressor<D>, chunks: seq<Bytes>)
    requires d.Valid() && !d.detected.Gzip?
    requires d.enabled && d.detected.Undecided? ==> !IsGzip(d.held + Concat(chunks))
    ensures Output(z, d, chunks) == d.held + Concat(chunks)
    decreases |chunks|
  {
    if chunks != [] {
      var o, rest := Chunk(z, d, chunks[0]), Concat(chunks[1..]);
      FrontBytes(d.held, chunks[0], rest);
      ChunkKeepsValid(z, d, chunks[0]);
      Passes(z, o.next, chunks[1..]);
      assert o.out + o.next.held == d.held + chunks[0];
      FrontBytes(o.out, o.next.held, rest);
    }
  }

  /**
    With decompression off, or for a stream that does not start with the gzip magic, the chunk outputs and the flush are
    the input, for every chunking, also one that splits the first two bytes.
   */
  lemma PassthroughIsIdentity<D>(z: Inflater<D>, enabled: bool, chunks: seq<Bytes>)
    requires var text := Concat(chunks); !enabled || !(|text| >= 2 && text[0] == 0x1F && text[1] == 0x8B)
    ensures Output(z, New(enabled), chunks) == Concat(chunks)
  {
    assert [] + Concat(chunks) == Concat(chunks);
    MagicIs(Concat(chunks));
    Passes(z, New(enabled), chunks);
  }

  /** No push found the compressed buffer beyond its cap. */
  predicate Uncapped<D>(z: Inflater<D>, d: Decompressor<D>, chunks: seq<Bytes>)
    requires d.Valid()
    decreases |chunks|
  {
    ChunksKeepValid(z, d);
    chunks == [] ||
    ((d.decoder.Some? ==> |d.decoder.value.unread + chunks[0]| <= 67_108_864)
     && Uncapped(z, Chunk(z, d, chunks[0]).next, chunks[1..]))
  }

  /** The input that has arrived and is not yet with the decoder. */
  function Waiting<D>(d: Decompressor<D>): Bytes {
    if d.decoder.Some? then d.decoder.value.unread else d.held
  }

  lemma {:induction false} Feeds<D>(z: Inflater<D>, d: Decompressor<D>, chunks: seq<Bytes>)
    requires d.Valid() && d.enabled && !d.detected.Identity? && Uncapped(z, d, chunks)
    requires d.detected.Undecided? ==> IsGzip(d.held + Concat(chunks))
    ensures After(z, d, chunks).detected.Gzip?
    ensures Taken(z, d, chunks) + Waiting(After(z, d, chunks)) == Waiting(d) + Concat(chunks)
    decreases |chunks|
  {
    if chunks == [] {
      assert Waiting(d) + Concat(chunks) == Waiting(d);
    } else {
      var o, rest := Chunk(z, d, chunks[0]), Concat(chunks[1..]);
      ChunkKeepsValid(z, d, chunks[0]);
      FrontBytes(d.held, chunks[0], rest);
      Feeds(z, o.next, chunks[1..]);
      ChunkConserves(z, d, chunks[0]);
      TakenCons(o.taken, Taken(z, o.next, chunks[1..]), Waiting(After(z, o.next, chunks[1..])), Waiting(o.next), rest);
    }
  }

  lemma ChunkConserves<D>(z: Inflater<D>, d: Decompressor<D>, data: Bytes)
    requires d.Valid() && d.enabled && !d.detected.Identity? && !Chunk(z, d, data).next.detected.Identity?
    requires d.decoder.Some? ==> |d.decoder.value.unread + data| <= MAX_COMPRESSED_BUFFER
    ensures var o := Chunk(z, d, data); o.taken + Waiting(o.next) == Waiting(d) + data
  {
    if d.detected.Gzip? {
      PullConserves(z, d, d.decoder.value.(unread := d.decoder.value.unread + data));
    } else if |d.held + data| >= 2 {
      PullConserves(z, d.(detected := Gzip, held := []), Decoder(d.held + data, false, z.start));
    }
  }

  lemma PullConserves<D>(z: Inflater<D>, d: Decompressor<D>, c: Decoder<D>)
    ensures Pull(z, d, c).taken + Waiting(Pull(z, d, c).next) == c.unread
  {
    PullAllConserves(z, c, []);
  }

  lemma ReadConserves<D>(z: Inflater<D>, c: Decoder<D>)
    ensures ReadOnce(z, c).taken + ReadOnce(z, c).after.unread == c.unread
  {
    var (wanted, data, inner) := z.read(c.inner, c.unread, c.finished);
    var n := if wanted < |c.unread| then wanted else |c.unread|;
    assert c.unread == c.unread[..n] + c.unread[n..];
  }

  /** What was taken and what is left are the input, and the output stays below the cap. */
  lemma {:induction false} PullAllConserves<D>(z: Inflater<D>, c: Decoder<D>, out: Bytes)
    requires |out| <= MAX_DECOMPRESSED_BYTES
    ensures PullAll(z, c, out).taken + PullAll(z, c, out).after.unread == c.unread
    ensures |PullAll(z, c, out).out| <= MAX_DECOMPRESSED_BYTES
    decreases MAX_DECOMPRESSED_BYTES - |out|
  {
    var one := ReadOnce(z, c);
    ReadConserves(z, c);
    if one.out != [] && |out + one.out| <= MAX_DECOMPRESSED_BYTES {
      var rest := PullAll(z, one.after, out + one.out);
      PullAllConserves(z, one.after, out + one.out);
      AppendAssoc(one.taken, rest.taken, rest.after.unread);
    }
  }

  /** Whatever the compressed input: no call of a gzip stream returns more than the cap. */
  lemma GzipOutputBounded<D>(z: Inflater<D>, d: Decompressor<D>, data: Bytes)
    requires d.Valid()
    ensures Chunk(z, d, data).next.detected.Gzip? ==> |Chunk(z, d, data).out| <= 16_777_216
    ensures d.detected.Gzip? ==> |Flush(z, d).out| <= 16_777_216
  {
    if d.detected.Gzip? {
      PullAllConserves(z, d.decoder.value.(unread := Capped(d.decoder.value.unread + data)), []);
      PullAllConserves(z, d.decoder.value.(finished := true), []);
    } else {
      PullAllConserves(z, Decoder(d.held + data, false, z.start), []);
    }
  }

  lemma TakenCons(first: Bytes, later: Bytes, left: Bytes, waiting: Bytes, rest: Bytes)
    requires later + left == waiting + rest
    ensures first + later + left == first + waiting + rest
  {
    assert first + later + left == first + (later + left);
  }

  /**
    A stream that does start with the magic goes to the decoder whole, held prefix included: for every chunking and any
    decoder, what it took followed by what still waits for it is the input, as long as no push went over the cap.
   */
  lemma GzipReachesDecoder<D>(z: Inflater<D>, chunks: seq<Bytes>)
    requires var text := Concat(chunks); |text| >= 2 && text[0] == 0x1F && text[1] == 0x8B
    requires Uncapped(z, New(true), chunks)
    ensures var d := After(z, New(true), chunks);
            d.decoder.Some? && Taken(z, New(true), chunks) + d.decoder.value.unread == Concat(chunks)
  {
    assert [] + Concat(chunks) == Concat(chunks);
    MagicIs(Concat(chunks));
    Feeds(z, New(true), chunks);
  }

  // ---------------------------------------------------------------- what comes out is what the decoder yields

  /** The decoder after `n` successive reads. */
  function AfterReads<D>(z: Inflater<D>, c: Decoder<D>, n: nat): Decoder<D> {
    if n == 0 then c else ReadOnce(z, AfterReads(z, c, n - 1)).after
  }

  /** What read number `k` yields. */
  function Yield<D>(z: Inflater<D>, c: Decoder<D>, k: nat): Bytes {
    ReadOnce(z, AfterReads(z, c, k)).out
  }

  /** What the first `n` reads yield, in order. */
  function Yields<D>(z: Inflater<D>, c: Decoder<D>, n: nat): Bytes {
    if n == 0 then [] else Yields(z, c, n - 1) + Yield(z, c, n - 1)
  }

  /** The first `n` reads are one call: only the last of them yields nothing. */
  ghost predicate UntilDry<D>(z: Inflater<D>, c: Decoder<D>, n: nat) {
    n > 0 && Yield(z, c, n - 1) == [] && forall k: nat | k < n - 1 :: Yield(z, c, k) != []
  }

  /** The first `n` reads are one call: all of them yield something, and the last goes over the cap. */
  ghost predicate UntilFull<D>(z: Inflater<D>, c: Decoder<D>, n: nat) {
    && n > 0 && (forall k: nat | k < n :: Yield(z, c, k) != [])
    && |Yields(z, c, n - 1)| <= 16_777_216 < |Yields(z, c, n)|
  }

  lemma {:induction false} ReadsFromNext<D>(z: Inflater<D>, c: Decoder<D>, n: nat)
    ensures AfterReads(z, ReadOnce(z, c).after, n) == AfterReads(z, c, n + 1)
    ensures Yield(z, ReadOnce(z, c).after, n) == Yield(z, c, n + 1)
    ensures Yield(z, c, 0) + Yields(z, ReadOnce(z, c).after, n) == Yields(z, c, n + 1)
  {
    var next := ReadOnce(z, c).after;
    if n == 0 {
      assert Yield(z, c, 0) + [] == Yield(z, c, 0) == [] + Yield(z, c, 0);
    } else {
      ReadsFromNext(z, c, n - 1);
      AppendAssoc(Yield(z, c, 0), Yields(z, next, n - 1), Yield(z, next, n - 1));
    }
  }

  lemma {:induction false} PullAllIsReads<D>(z: Inflater<D>, c: Decoder<D>, out: Bytes) returns (n: nat)
    requires |out| <= MAX_DECOMPRESSED_BYTES
    ensures var all := PullAll(z, c, out);
            && all.after == AfterReads(z, c, n) && n > 0
            && (forall k: nat | k < n - 1 :: Yield(z, c, k) != [])
            && |out + Yields(z, c, n - 1)| <= 16_777_216
            && if Yield(z, c, n - 1) == [] then all.out == out + Yields(z, c, n)
               else |out + Yields(z, c, n)| > 16_777_216 && all.out == (out + Yields(z, c, n))[..16_777_216]
    decreases MAX_DECOMPRESSED_BYTES - |out|
  {
    var one := ReadOnce(z, c);
    assert AfterReads(z, c, 0) == c && Yield(z, c, 0) == one.out;
    assert Yields(z, c, 1) == [] + one.out == one.out;
    if one.out == [] || |out + one.out| > MAX_DECOMPRESSED_BYTES {
      n := 1;
      assert out + [] == out && AfterReads(z, c, 1) == one.after;
    } else {
      var m := PullAllIsReads(z, one.after, out + one.out);
      n := m + 1;
      CallFromNext(z, c, out, m);
    }
  }

  lemma CallFromNext<D>(z: Inflater<D>, c: Decoder<D>, out: Bytes, m: nat)
    requires m > 0 && Yield(z, c, 0) != []
    requires forall k: nat | k < m - 1 :: Yield(z, ReadOnce(z, c).after, k) != []
    ensures var next := ReadOnce(z, c).after;
            && AfterReads(z, c, m + 1) == AfterReads(z, next, m)
            && Yield(z, c, m) == Yield(z, next, m - 1)
            && (forall k: nat | k < m :: Yield(z, c, k) != [])
            && out + Yield(z, c, 0) + Yields(z, next, m) == out + Yields(z, c, m + 1)
            && out + Yield(z, c, 0) + Yields(z, next, m - 1) == out + Yields(z, c, m)
  {
    var next := ReadOnce(z, c).after;
    ReadsFromNext(z, c, m);
    ReadsFromNext(z, c, m - 1);
    AppendAssoc(out, Yield(z, c, 0), Yields(z, next, m));
    AppendAssoc(out, Yield(z, c, 0), Yields(z, next, m - 1));
    forall k: nat | k < m ensures Yield(z, c, k) != [] {
      if k > 0 {
        ReadsFromNext(z, c, k - 1);
      }
    }
  }

  /**
    For every decoder: one call returns, in order, all that its successive reads yield up to the first that yields
    nothing; or, where that goes over 16 MiB, exactly the first 16 MiB of it, and reads no further.
   */
  lemma PullIsReads<D>(z: Inflater<D>, d: Decompressor<D>, c: Decoder<D>) returns (n: nat)
    ensures var o := Pull(z, d, c);
            && o.next == d.(decoder := Some(AfterReads(z, c, n)))
            && ((UntilDry(z, c, n) && o.out == Yields(z, c, n) && |o.out| <= 16_777_216)
                || (UntilFull(z, c, n) && o.out == Yields(z, c, n)[..16_777_216]))
  {
    n := PullAllIsReads(z, c, []);
    assert [] + Yields(z, c, n) == Yields(z, c, n) && [] + Yields(z, c, n - 1) == Yields(z, c, n - 1);
    if Yield(z, c, n - 1) == [] {
      assert Yields(z, c, n) == Yields(z, c, n - 1) + [] == Yields(z, c, n - 1);
    }
  }

  /** The pieces in which the decoder is given a stream: what was held until two bytes were there, then the chunks. */
  function Pieces(held: Bytes, chunks: seq<Bytes>): seq<Bytes>
    decreases |chunks|
  {
    if chunks == [] then []
    else if |held + chunks[0]| < 2 then Pieces(held + chunks[0], chunks[1..])
    else [held + chunks[0]] + chunks[1..]
  }

  /** The reads of a whole stream: so many after each piece has been added to the input, and so many at its end. */
  ghost predicate AllDry<D>(z: Inflater<D>, c: Decoder<D>, pieces: seq<Bytes>, counts: seq<nat>)
    decreases |pieces|
  {
    |counts| == |pieces| + 1 &&
    if pieces == [] then UntilDry(z, c.(finished := true), counts[0])
    else
      var given := c.(unread := c.unread + pieces[0]);
      UntilDry(z, given, counts[0]) && AllDry(z, AfterReads(z, given, counts[0]), pieces[1..], counts[1..])
  }

  function AllYields<D>(z: Inflater<D>, c: Decoder<D>, pieces: seq<Bytes>, counts: seq<nat>): Bytes
    requires |counts| == |pieces| + 1
    decreases |pieces|
  {
    if pieces == [] then Yields(z, c.(finished := true), counts[0])
    else
      var given := c.(unread := c.unread + pieces[0]);
      Yields(z, given, counts[0]) + AllYields(z, AfterReads(z, given, counts[0]), pieces[1..], counts[1..])
  }

  /** No call returned as much as the cap. */
  predicate OutputsFit<D>(z: Inflater<D>, d: Decompressor<D>, chunks: seq<Bytes>)
    requires d.Valid()
    decreases |chunks|
  {
    ChunksKeepValid(z, d);
    if chunks == [] then |Flush(z, d).out| < 16_777_216
    else |Chunk(z, d, chunks[0]).out| < 16_777_216 && OutputsFit(z, Chunk(z, d, chunks[0]).next, chunks[1..])
  }

  lemma PullDry<D>(z: Inflater<D>, d: Decompressor<D>, c: Decoder<D>) returns (n: nat)
    requires |Pull(z, d, c).out| < 16_777_216
    ensures UntilDry(z, c, n) && Pull(z, d, c).out == Yields(z, c, n)
    ensures Pull(z, d, c).next == d.(decoder := Some(AfterReads(z, c, n)))
  {
    n := PullIsReads(z, d, c);
  }

  lemma {:induction false} GzipYields<D>(z: Inflater<D>, d: Decompressor<D>, chunks: seq<Bytes>)
    returns (counts: seq<nat>)
    requires d.Valid() && d.enabled && d.detected.Gzip? && Uncapped(z, d, chunks) && OutputsFit(z, d, chunks)
    ensures AllDry(z, d.decoder.value, chunks, counts)
    ensures Output(z, d, chunks) == AllYields(z, d.decoder.value, chunks, counts)
    decreases |chunks|
  {
    var c := d.decoder.value;
    if chunks == [] {
      var n := PullDry(z, d, c.(finished := true));
      counts := [n];
    } else {
      var given := c.(unread := c.unread + chunks[0]);
      var next := Chunk(z, d, chunks[0]).next;
      assert Capped(c.unread + chunks[0]) == c.unread + chunks[0];
      var n := PullDry(z, d, given);
      ChunkKeepsValid(z, d, chunks[0]);
      var later := GzipYields(z, next, chunks[1..]);
      counts := [n] + later;
      assert counts[1..] == later;
    }
  }

  /**
    The whole stream, below the caps: for every decoder and every chunking of a stream that starts with the magic, the
    chunk outputs and the flush are all that the decoder's reads yield, in order, each call reading until nothing comes.
   */
  lemma {:induction false} GzipOutputIsYields<D>(z: Inflater<D>, d: Decompressor<D>, chunks: seq<Bytes>)
    returns (counts: seq<nat>)
    requires d.Valid() && d.enabled && d.detected.Undecided? && IsGzip(d.held + Concat(chunks))
    requires Uncapped(z, d, chunks) && OutputsFit(z, d, chunks)
    ensures var c := Decoder([], false, z.start);
            && AllDry(z, c, Pieces(d.held, chunks), counts)
            && Output(z, d, chunks) == AllYields(z, c, Pieces(d.held, chunks), counts)
    decreases |chunks|
  {
    if chunks != [] {
      FrontBytes(d.held, chunks[0], Concat(chunks[1..]));
      ChunkKeepsValid(z, d, chunks[0]);
      var held, next := d.held + chunks[0], Chunk(z, d, chunks[0]).next;
      if |held| < 2 {
        counts := GzipOutputIsYields(z, next, chunks[1..]);
        assert [] + Output(z, next, chunks[1..]) == Output(z, next, chunks[1..]);
      } else {
        counts := FirstPieceYields(z, d.(detected := Gzip, held := []), held, next, chunks[1..]);
      }
    }
  }

  lemma FirstPieceYields<D>(z: Inflater<D>, d: Decompressor<D>, piece: Bytes, next: Decompressor<D>, chunks: seq<Bytes>)
    returns (counts: seq<nat>)
    requires next.Valid() && d.enabled && d.detected.Gzip?
    requires next == Pull(z, d, Decoder(piece, false, z.start)).next
    requires |Pull(z, d, Decoder(piece, false, z.start)).out| < 16_777_216
    requires Uncapped(z, next, chunks) && OutputsFit(z, next, chunks)
    ensures var c := Decoder([], false, z.start);
            && AllDry(z, c, [piece] + chunks, counts)
            && Pull(z, d, Decoder(piece, false, z.start)).out + Output(z, next, chunks) ==
               AllYields(z, c, [piece] + chunks, counts)
  {
    var n := PullDry(z, d, Decoder(piece, false, z.start));
    var later := GzipYields(z, next, chunks);
    counts := [n] + later;
    assert counts[1..] == later && ([piece] + chunks)[1..] == chunks && [] + piece == piece;
  }
}
