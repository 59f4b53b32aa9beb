/** The seekable, growable byte stream: a buffer whose capacity is a multiple of 32, and
    what is built on it. */
module CStream {
  import opened Bytes

  const LIMIT := 0x1_0000_0000
  const CHUNK := 512

  datatype Status = SOk | SFalse | InvalidFunction | Fault | Hangs

  datatype Origin = SeekSet | SeekCur | SeekEnd | OtherOrigin

  function Align32(n: nat): (r: nat)
    ensures n <= r < n + 32 && r % 32 == 0
  {
    if n % 32 != 0 then (n / 32 + 1) * 32 else n
  }

  function Min(a: nat, b: nat): nat {
    if a <= b then a else b
  }

  lemma NextChunk(before: seq<Byte>, chunks: seq<seq<Byte>>, i: nat)
    requires i < |chunks|
    ensures before + Flat(chunks[i..]) == before + chunks[i] + Flat(chunks[i + 1..])
    ensures |before| + |chunks[i]| <= |before + Flat(chunks[i..])|
  {
    assert chunks[i..][1..] == chunks[i + 1..];
  }

  lemma NoChunks(chunks: seq<seq<Byte>>)
    ensures Flat(chunks[|chunks|..]) == []
  {
  }

  /** What writing `data` at `pos` makes of a string that reaches that far. */
  function Overwrite(s: seq<Byte>, pos: nat, data: seq<Byte>): seq<Byte>
    requires pos <= |s|
  {
    s[..pos] + data + if pos + |data| <= |s| then s[pos + |data|..] else []
  }

  /** Byte by byte: the data where it was written, the old bytes elsewhere. */
  lemma OverwriteAt(s: seq<Byte>, pos: nat, data: seq<Byte>)
    requires pos <= |s|
    ensures |Overwrite(s, pos, data)| == if pos + |data| <= |s| then |s| else pos + |data|
    ensures forall i :: 0 <= i < |Overwrite(s, pos, data)| ==>
              Overwrite(s, pos, data)[i] == if pos <= i < pos + |data| then data[i - pos] else s[i]
  {
  }

  /** Resized, with nothing said about new bytes: they are whatever the buffer held. */
  predicate ResizedTo(s: seq<Byte>, t: seq<Byte>, n: nat) {
    |t| == n && t[..Min(n, |s|)] == s[..Min(n, |s|)]
  }

  /** Bytes left as the code computes them, in 32-bit unsigned arithmetic. */
  function BytesLeft(size: nat, pos: nat): nat {
    (size % LIMIT - pos % LIMIT) % LIMIT
  }

  lemma BytesLeftIs(size: nat, pos: nat)
    requires size < LIMIT && pos < LIMIT
    ensures BytesLeft(size, pos) == if pos <= size then size - pos else LIMIT - (pos - size)
  {
  }

  lemma OverwritePrefix(s: seq<Byte>, pos: nat, data: seq<Byte>)
    requires pos <= |s|
    ensures |Overwrite(s, pos, data)| >= pos + |data|
    ensures Overwrite(s, pos, data)[..pos + |data|] == s[..pos] + data
  {
  }

  /** Two writes one after the other are one. */
  lemma OverwriteTwice(s: seq<Byte>, pos: nat, a: seq<Byte>, b: seq<Byte>)
    requires pos <= |s|
    ensures pos + |a| <= |Overwrite(s, pos, a)|
    ensures Overwrite(Overwrite(s, pos, a), pos + |a|, b) == Overwrite(s, pos, a + b)
  {
    var t := Overwrite(s, pos, a);
    assert t[..pos + |a|] == s[..pos] + a;
    var end := pos + |a| + |b|;
    if end <= |s| {
      assert t[end..] == s[end..];
    }
  }

  lemma OverwriteParts(s: seq<Byte>, pos: nat, data: seq<Byte>, t: seq<Byte>)
    requires pos <= |s| && |t| == if pos + |data| <= |s| then |s| else pos + |data|
    requires t[..pos] == s[..pos] && t[pos..pos + |data|] == data
    requires pos + |data| <= |s| ==> t[pos + |data|..] == s[pos + |data|..]
    ensures t == Overwrite(s, pos, data)
  {
    var end := pos + |data|;
    assert t == t[..pos] + t[pos..end] + t[end..];
  }

  class Stream {
    var writePos: nat
    var size: nat
    var length: nat
    var buf: array<Byte>

    ghost predicate Valid()
      reads this
    {
      buf.Length == length && length % 32 == 0 && size <= length && writePos <= length &&
      size < LIMIT && writePos < LIMIT
    }

    function Content(): seq<Byte>
      reads this, buf
      requires Valid()
    {
      buf[..size]
    }

    constructor ()
      ensures Valid() && Content() == [] && writePos == 0 && fresh(buf)
    {
      writePos, size, length := 0, 0, 0;
      buf := new Byte[0];
    }

    /** vector::resize: what fits is kept, what is new is zero. */
    method Resize(n: nat)
      modifies this`buf
      ensures fresh(buf) && buf.Length == n
      ensures forall i :: 0 <= i < n ==> buf[i] == if i < old(buf.Length) then old(buf[i]) else 0
    {
      var grown := new Byte[n](i requires 0 <= i < n reads this, buf => if i < buf.Length then buf[i] else 0);
      buf := grown;
    }

    method Read(cb: nat) returns (hr: Status, data: seq<Byte>)
      requires Valid() && cb < LIMIT
      modifies this`writePos
      ensures old(writePos) <= size ==> Valid() && writePos == old(writePos) + |data|
      ensures old(writePos) <= size ==> data == Content()[old(writePos)..][..Min(cb, size - old(writePos))]
      ensures old(writePos) <= size ==> hr == if |data| == cb then SOk else SFalse
      ensures old(writePos) > size && cb > 0 ==> hr == Fault || data != []
    {
      hide BytesLeft;
      if cb == 0 {
        return SOk, [];
      }
      BytesLeftIs(size, writePos);
      var cBytesLeft := BytesLeft(size, writePos);
      var cBytesRead := if cb > cBytesLeft then cBytesLeft else cb;
      if cBytesLeft == 0 {
        return SFalse, [];
      }
      if writePos + cBytesRead > buf.Length {
        return Fault, [];  // beyond the buffer
      }
      data := buf[writePos..writePos + cBytesRead];
      if writePos <= size {
        SliceOfPrefix(buf[..], size, writePos, cBytesRead);
      }
      writePos := (writePos + cBytesRead) % LIMIT;
      hr := if cb != cBytesRead then SFalse else SOk;
    }

    /** memcpy into the buffer. */
    method Put(pos: nat, data: seq<Byte>)
      requires pos + |data| <= buf.Length
      modifies buf
      ensures buf[..pos] == old(buf[..pos]) && buf[pos..pos + |data|] == data
      ensures buf[pos + |data|..] == old(buf[pos + |data|..])
    {
      forall i | 0 <= i < |data| {
        buf[pos + i] := data[i];
      }
    }

    /** Room for `end` bytes. */
    method Reserve(end: nat)
      requires Valid() && end < LIMIT
      modifies this`length, this`buf
      ensures Valid() && end <= length && (buf == old(buf) || fresh(buf))
      ensures old(length) <= length && buf[..old(length)] == old(buf[..])
    {
      if end > length {
        length := length + (end - length);
        length := Align32(length);
        Resize(length);
      }
    }

    method Write(pv: seq<Byte>)
      requires Valid() && writePos + |pv| < LIMIT
      modifies this, buf
      ensures Valid() && (buf == old(buf) || fresh(buf)) && writePos == old(writePos) + |pv|
      ensures size == if pv != [] && writePos > old(size) then writePos else old(size)
      ensures pv != [] ==> Content()[old(writePos)..writePos] == pv
      ensures pv == [] ==> Content() == old(Content())
      ensures old(writePos) <= old(size) ==> Content() == Overwrite(old(Content()), old(writePos), pv)
    {
      hide Overwrite, Written;
      ghost var s, p := Content(), writePos;
      OverwriteNothing(s, p);
      if |pv| == 0 {
        return;
      }
      ghost var b := buf[..];
      var newSize := size;
      if writePos + |pv| > size {
        newSize := size + (writePos + |pv| - size);
      }
      WriteBytes(pv);
      WrittenContent(s, p, pv, b, buf[..], newSize);
      size := newSize;
      writePos := writePos + |pv|;
    }

    /** Enlarges the buffer if need be and copies the caller's bytes. */
    method WriteBytes(pv: seq<Byte>)
      requires Valid() && writePos + |pv| < LIMIT
      modifies this`length, this`buf, buf
      ensures Valid() && (buf == old(buf) || fresh(buf)) && writePos + |pv| <= buf.Length
      ensures Written(old(buf[..]), buf[..], writePos, pv)
    {
      Reserve(writePos + |pv|);
      Put(writePos, pv);
    }

    /** The end is sought to whatever the distance given. */
    method Seek(move: int, origin: Origin) returns (hr: Status)
      requires Valid()
      requires origin.SeekSet? ==> 0 <= move < LIMIT
      requires origin.SeekCur? ==> 0 <= writePos + move < LIMIT
      modifies this
      ensures Valid() && (buf == old(buf) || fresh(buf)) && Content() == old(Content())
      ensures hr == if origin.OtherOrigin? then InvalidFunction else SOk
      ensures writePos == match origin
                          case SeekSet => move
                          case SeekCur => old(writePos) + move
                          case SeekEnd => size
                          case OtherOrigin => old(writePos)
    {
      match origin {
        case SeekSet => writePos := move;
        case SeekCur => writePos := writePos + move;
        case SeekEnd => writePos := size;
        case OtherOrigin => return InvalidFunction;
      }
      ghost var s := buf[..size];
      if origin != SeekEnd && writePos > length {
        length := size;
        length := Align32(writePos);
        Resize(length);
      }
      assert Content() == s;
      hr := SOk;
    }

    method SetSize(newSize: nat)
      requires Valid() && newSize < LIMIT
      modifies this
      ensures Valid() && fresh(buf) && ResizedTo(old(Content()), Content(), newSize)
      ensures writePos == Min(old(writePos), newSize)
      ensures |Content()| == newSize
      ensures forall i :: 0 <= i < newSize && i < |old(Content())| ==> Content()[i] == old(Content())[i]
    {
      length := Align32(newSize);
      Resize(length);
      size := newSize;
      if writePos > newSize {
        writePos := newSize;
      }
    }

    /** One turn of the copying loop. */
    method CopyChunk(pstm: Stream, copySize: nat, ghost s: seq<Byte>, ghost p: nat) returns (hr: Status, bytesRead: nat)
      requires Valid() && pstm.Valid() && pstm != this && pstm.buf != buf
      requires writePos <= size && 0 < copySize <= CHUNK && p + Min(writePos + copySize, size) < LIMIT
      requires Appended(s, p, Content()[..writePos], pstm.Content(), pstm.writePos)
      modifies this`writePos, pstm, pstm.buf
      ensures Valid() && pstm.Valid() && pstm.buf != buf && (pstm.buf == old(pstm.buf) || fresh(pstm.buf))
      ensures bytesRead == Min(copySize, size - old(writePos)) && writePos == old(writePos) + bytesRead
      ensures hr == if bytesRead == 0 then SFalse else SOk
      ensures Appended(s, p, Content()[..writePos], pstm.Content(), pstm.writePos)
    {
      hide Overwrite, Appended;
      ghost var content := Content();
      AppendedMore(s, p, content[..writePos], pstm.Content(), pstm.writePos, content[writePos..][..Min(copySize, size - writePos)]);
      SliceMore(content, 0, writePos, Min(copySize, size - writePos));
      var tmpBuffer: seq<Byte>;
      hr, tmpBuffer := Read(copySize);
      bytesRead := |tmpBuffer|;
      if bytesRead > 0 {
        pstm.Write(tmpBuffer);
        hr := SOk;
      }
    }

    /** The first min(cb, size) bytes, through a 512-byte buffer; the position is restored.
        A count of 4 GB or more asks for zero bytes at a time once its low half is used up,
        for ever. */
    method CopyTo(pstm: Stream, cb: nat) returns (hr: Status)
      requires Valid() && pstm.Valid() && pstm != this && pstm.buf != buf
      requires pstm.writePos <= pstm.size && pstm.writePos + Min(cb, size) < LIMIT
      modifies this`writePos, pstm, pstm.buf
      ensures Valid() && pstm.Valid() && writePos == old(writePos) && Content() == old(Content())
      ensures hr == CopyStatus(cb, size)
      ensures hr == Hangs <==> cb >= 0x1_0000_0000 && cb % 0x1_0000_0000 <= size
      ensures hr == SFalse <==> hr != Hangs && cb > size && size % 512 == 0
      ensures hr == SFalse || hr == SOk || hr == Hangs
      ensures hr != Hangs ==> Appended(old(pstm.Content()), old(pstm.writePos), Content()[..Min(cb, size)],
                                       pstm.Content(), pstm.writePos)
    {
      hide Overwrite, Appended, Copying, CopyStatus;
      var backupWritePos, left := writePos, cb;
      ghost var s, p := pstm.Content(), pstm.writePos;
      AppendedNothing(s, p);
      assert Content()[..0] == [];
      CopyingStart(cb, size);
      writePos := 0;
      hr := SOk;
      while left > 0 && hr == SOk
        invariant Valid() && pstm.Valid() && pstm.buf != buf && (pstm.buf == old(pstm.buf) || fresh(pstm.buf))
        invariant writePos <= size && left >= 0 && (hr != SOk ==> left == 0)
        invariant Appended(s, p, Content()[..writePos], pstm.Content(), pstm.writePos)
        invariant Copying(cb, size, left, writePos, hr)
        decreases left
      {
        var copySize := Min(left % LIMIT, CHUNK);
        CopyingTurn(cb, size, left, writePos);
        if copySize == 0 {
          CopyStatusMeans(cb, size);
          writePos := backupWritePos;
          return Hangs;
        }
        var bytesRead: nat;
        hr, bytesRead := CopyChunk(pstm, copySize, s, p);
        left := if bytesRead != copySize then 0 else left - bytesRead;
      }
      CopyingEnd(cb, size, writePos, hr);
      CopyStatusMeans(cb, size);
      writePos := backupWritePos;
    }

    /** Everything from the position on, in 512-byte chunks. */
    method ReadAll() returns (baseString: seq<Byte>)
      requires Valid() && writePos <= size
      modifies this`writePos
      ensures Valid() && baseString == Content()[old(writePos)..]
    {
      baseString := [];
      var hr, data := SOk, [];
      ghost var content, from := Content(), writePos;
      while hr == SOk
        invariant Valid() && from <= writePos <= size
        invariant baseString == content[from..writePos]
        invariant hr == SOk || (hr == SFalse && writePos == size)
        decreases size - writePos, hr == SOk
      {
        SliceMore(content, from, writePos, Min(CHUNK, size - writePos));
        hr, data := Read(CHUNK);
        if |data| > 0 {
          baseString := baseString + data;
        }
      }
    }

    /** What the key and its value are written as, from the start of the stream. */
    method SerializeKey(chunks: seq<seq<Byte>>)
      requires Valid() && |Flat(chunks)| < LIMIT
      modifies this, buf
      ensures Valid() && (buf == old(buf) || fresh(buf)) && writePos == |Flat(chunks)| <= size
      ensures Content()[..writePos] == Flat(chunks)
    {
      hide Overwrite, Flat;
      var hr := Seek(0, SeekSet);
      ghost var all := Flat(chunks);
      assert chunks[0..] == chunks;
      for i := 0 to |chunks|
        invariant Valid() && (buf == old(buf) || fresh(buf)) && writePos <= size
        invariant Content()[..writePos] + Flat(chunks[i..]) == all
      {
        NextChunk(Content()[..writePos], chunks, i);
        OverwritePrefix(Content(), writePos, chunks[i]);
        Write(chunks[i]);
      }
      NoChunks(chunks);
    }
  }

  // --- The stream as a string of bytes and a position ---

  datatype Abstract = Abstract(bytes: seq<Byte>, pos: nat)

  datatype Operation = DoRead(cb: nat) | DoWrite(pv: seq<Byte>) | DoSeek(move: int, origin: Origin) | DoSetSize(n: nat)

  /** Where a seek leads: from the start, from the position, or to the end. */
  function SeekTarget(s: Abstract, move: int, origin: Origin): int {
    match origin
    case SeekSet => move
    case SeekCur => s.pos + move
    case SeekEnd => |s.bytes|
    case OtherOrigin => s.pos
  }

  /** Seeks stay within the bytes there are, and the stream below 4 GB. */
  predicate Allowed(s: Abstract, op: Operation) {
    match op
    case DoRead(cb) => cb < LIMIT
    case DoWrite(pv) => s.pos + |pv| < LIMIT
    case DoSeek(move, origin) => 0 <= SeekTarget(s, move, origin) <= |s.bytes|
    case DoSetSize(n) => n < LIMIT
  }

  /** What an operation does to the bytes and the position, and what it hands out. */
  predicate AbstractStep(s: Abstract, op: Operation, t: Abstract, out: seq<Byte>) {
    s.pos <= |s.bytes| &&
    match op
    case DoRead(cb) => out == s.bytes[s.pos..][..Min(cb, |s.bytes| - s.pos)] && t == Abstract(s.bytes, s.pos + |out|)
    case DoWrite(pv) => out == [] && t == Abstract(Overwrite(s.bytes, s.pos, pv), s.pos + |pv|)
    case DoSeek(move, origin) => out == [] && t.bytes == s.bytes && t.pos == SeekTarget(s, move, origin)
    case DoSetSize(n) => out == [] && ResizedTo(s.bytes, t.bytes, n) && t.pos == Min(s.pos, n)
  }

  /** Byte by byte: a read hands out what is there from the position on, a write puts its data there
      and nothing else, a seek and a resize change no byte that stays. */
  lemma StepMeans(s: Abstract, op: Operation, t: Abstract, out: seq<Byte>)
    requires AbstractStep(s, op, t, out)
    ensures op.DoRead? ==>
              t.bytes == s.bytes && t.pos == s.pos + |out| && |out| <= op.cb && (|out| < op.cb ==> t.pos == |s.bytes|) &&
              forall i :: 0 <= i < |out| ==> out[i] == s.bytes[s.pos + i]
    ensures op.DoWrite? ==>
              t.pos == s.pos + |op.pv| && |s.bytes| <= |t.bytes| && t.pos <= |t.bytes| &&
              (|t.bytes| == |s.bytes| || |t.bytes| == t.pos) &&
              forall i :: 0 <= i < |t.bytes| ==>
                t.bytes[i] == if s.pos <= i < t.pos then op.pv[i - s.pos] else s.bytes[i]
    ensures op.DoSeek? ==>
              t.bytes == s.bytes &&
              t.pos == match op.origin
                       case SeekSet => op.move
                       case SeekCur => s.pos + op.move
                       case SeekEnd => |s.bytes|
                       case OtherOrigin => s.pos
    ensures op.DoSetSize? ==>
              |t.bytes| == op.n && t.pos == (if s.pos <= op.n then s.pos else op.n) &&
              forall i :: 0 <= i < op.n && i < |s.bytes| ==> t.bytes[i] == s.bytes[i]
    ensures !op.DoRead? ==> out == []
  {
    if op.DoSetSize? {
      var m := Min(op.n, |s.bytes|);
      assert forall i :: 0 <= i < m ==> t.bytes[..m][i] == s.bytes[..m][i];
    }
  }

  /** What is written is read back from where it was written. */
  lemma WriteReadBack(s: Abstract, pv: seq<Byte>, t: Abstract, u: Abstract, v: Abstract, o1: seq<Byte>, o2: seq<Byte>,
                      out: seq<Byte>)
    requires AbstractStep(s, DoWrite(pv), t, o1) && AbstractStep(t, DoSeek(s.pos, SeekSet), u, o2)
    requires AbstractStep(u, DoRead(|pv|), v, out)
    ensures out == pv && v == t
  {
    OverwritePrefix(s.bytes, s.pos, pv);
    assert t.bytes[s.pos..][..|pv|] == t.bytes[..s.pos + |pv|][s.pos..];
  }

  /** A run of the abstract stream. */
  ghost predicate AbstractRun(trace: seq<Abstract>, ops: seq<Operation>, outs: seq<seq<Byte>>) {
    |trace| == |outs| + 1 && |outs| <= |ops| &&
    forall i :: 0 <= i < |outs| ==> AbstractStep(trace[i], ops[i], trace[i + 1], outs[i])
  }

  method Perform(stream: Stream, op: Operation) returns (out: seq<Byte>)
    requires stream.Valid() && stream.writePos <= stream.size
    requires Allowed(Abstract(stream.Content(), stream.writePos), op)
    modifies stream, stream.buf
    ensures stream.Valid() && stream.writePos <= stream.size && (stream.buf == old(stream.buf) || fresh(stream.buf))
    ensures AbstractStep(old(Abstract(stream.Content(), stream.writePos)), op,
                         Abstract(stream.Content(), stream.writePos), out)
  {
    hide Overwrite;
    var hr: Status;
    out := [];
    match op {
      case DoRead(cb) => hr, out := stream.Read(cb);
      case DoWrite(pv) => stream.Write(pv);
      case DoSeek(move, origin) => hr := stream.Seek(move, origin);
      case DoSetSize(n) => stream.SetSize(n);
    }
  }

  /** Every run of allowed operations on a stream is a run of the abstract stream; it goes on
      until an operation is not allowed. */
  method Replay(stream: Stream, ops: seq<Operation>) returns (outs: seq<seq<Byte>>, ghost trace: seq<Abstract>)
    requires stream.Valid() && stream.writePos <= stream.size
    modifies stream, stream.buf
    ensures stream.Valid() && AbstractRun(trace, ops, outs)
    ensures trace[0] == old(Abstract(stream.Content(), stream.writePos))
    ensures trace[|outs|] == Abstract(stream.Content(), stream.writePos)
    ensures |outs| < |ops| ==> !Allowed(trace[|outs|], ops[|outs|])
  {
    hide AbstractStep, Allowed;
    outs, trace := [], [Abstract(stream.Content(), stream.writePos)];
    while |outs| < |ops|
      invariant stream.Valid() && stream.writePos <= stream.size && (stream.buf == old(stream.buf) || fresh(stream.buf))
      invariant AbstractRun(trace, ops, outs) && trace[0] == old(Abstract(stream.Content(), stream.writePos))
      invariant trace[|outs|] == Abstract(stream.Content(), stream.writePos)
      decreases |ops| - |outs|
    {
      if !Allowed(Abstract(stream.Content(), stream.writePos), ops[|outs|]) {
        return;
      }
      var out := Perform(stream, ops[|outs|]);
      outs := outs + [out];
      trace := trace + [Abstract(stream.Content(), stream.writePos)];
    }
  }

  /** The arguments of MSET: each key upper-cased behind the prefix, and what was written
      for it. */
  function KeyValues(prefix: seq<Byte>, keys: seq<seq<Byte>>, values: seq<seq<seq<Byte>>>): seq<seq<Byte>>
    requires |keys| == |values|
  {
    if keys == [] then []
    else KeyValues(prefix, keys[..|keys| - 1], values[..|keys| - 1]) +
         [prefix + Upper(keys[|keys| - 1]), Flat(values[|keys| - 1])]
  }

  /** Each pair depends on its own key and value alone. */
  lemma {:induction false} KeyValuesAt(prefix: seq<Byte>, keys: seq<seq<Byte>>, values: seq<seq<seq<Byte>>>, i: nat)
    requires |keys| == |values| && i < |keys|
    ensures |KeyValues(prefix, keys, values)| == 2 * |keys|
    ensures KeyValues(prefix, keys, values)[2 * i] == prefix + Upper(keys[i])
    ensures KeyValues(prefix, keys, values)[2 * i + 1] == Flat(values[i])
    decreases |keys|
  {
    var n := |keys| - 1;
    if n > 0 {
      KeyValuesAt(prefix, keys[..n], values[..n], if i < n then i else 0);
    }
  }

  /** One stream is reused for all keys: it is sized, rewound, written, cut off where the
      writing ended, rewound and read back. */
  method SerializeKeys(prefix: seq<Byte>, keys: seq<seq<Byte>>, values: seq<seq<seq<Byte>>>)
    returns (cmd: seq<seq<Byte>>)
    requires |keys| == |values| && forall v :: v in values ==> |Flat(v)| < LIMIT
    ensures cmd == KeyValues(prefix, keys, values)
  {
    hide Flat;
    var stream := new Stream();
    var hr: Status;
    cmd := [];
    for i := 0 to |keys|
      invariant fresh(stream) && fresh(stream.buf) && stream.Valid()
      invariant cmd == KeyValues(prefix, keys[..i], values[..i])
    {
      stream.SetSize(128);
      hr := stream.Seek(0, SeekSet);
      stream.SerializeKey(values[i]);
      hr := stream.Seek(0, SeekCur);
      ghost var written := stream.Content();
      stream.SetSize(stream.writePos);
      assert stream.Content() == Flat(values[i]);
      hr := stream.Seek(0, SeekSet);
      var baseString := stream.ReadAll();
      assert baseString == Flat(values[i]);
      cmd := cmd + [prefix + Upper(keys[i]), baseString];
      assert keys[..i + 1][..i] == keys[..i] && values[..i + 1][..i] == values[..i];
    }
    assert keys[..|keys|] == keys && values[..|keys|] == values;
  }

  /** The buffer `b`, perhaps enlarged, has become `t`: `data` is written at `pos`. */
  ghost predicate Written(b: seq<Byte>, t: seq<Byte>, pos: nat, data: seq<Byte>) {
    |b| <= |t| && pos <= |b| && pos + |data| <= |t| && t[..pos] == b[..pos] &&
    t[pos..pos + |data|] == data && forall i :: pos + |data| <= i < |b| ==> t[i] == b[i]
  }

  /** `data` has been written from `pos` on, and the position moved behind it. */
  ghost predicate Appended(s: seq<Byte>, pos: nat, data: seq<Byte>, t: seq<Byte>, pos': nat) {
    pos <= |s| && pos' == pos + |data| <= |t| && t == Overwrite(s, pos, data)
  }

  lemma AppendedNothing(s: seq<Byte>, pos: nat)
    requires pos <= |s|
    ensures Appended(s, pos, [], s, pos)
  {
  }

  lemma AppendedMore(s: seq<Byte>, pos: nat, a: seq<Byte>, t: seq<Byte>, pos': nat, b: seq<Byte>)
    requires Appended(s, pos, a, t, pos')
    ensures pos' <= |t| && pos' == pos + |a|
    ensures Appended(s, pos, a + b, Overwrite(t, pos', b), pos' + |b|)
  {
    OverwriteTwice(s, pos, a, b);
    OverwritePrefix(t, pos', b);
  }

  /** How CopyTo ends. */
  function CopyStatus(cb: nat, size: nat): Status {
    if cb >= LIMIT && cb % LIMIT <= size then Hangs
    else if cb > size && size % CHUNK == 0 then SFalse
    else SOk
  }

  lemma CopyStatusMeans(cb: nat, size: nat)
    ensures CopyStatus(cb, size) == Hangs <==> cb >= 0x1_0000_0000 && cb % 0x1_0000_0000 <= size
    ensures CopyStatus(cb, size) == SFalse <==> CopyStatus(cb, size) != Hangs && cb > size && size % 512 == 0
    ensures CopyStatus(cb, size) in {SOk, SFalse, Hangs}
  {
  }

  /** Between two turns, `done` bytes are copied: all full chunks so far, or the last one was
      short and the end is reached. */
  ghost predicate Copying(cb: nat, size: nat, left: nat, done: nat, hr: Status) {
    done <= size && done <= cb % LIMIT &&
    if left > 0 then hr == SOk && left == cb - done && (done == cb % LIMIT || done % CHUNK == 0)
    else done == Min(cb, size) && hr == CopyStatus(cb, size)
  }

  lemma CopyingStart(cb: nat, size: nat)
    ensures Copying(cb, size, cb, 0, SOk)
  {
  }

  /** The low 32 bits of what is left to copy. */
  lemma LowHalf(cb: nat, done: nat)
    requires done <= cb % LIMIT
    ensures (cb - done) % LIMIT == cb % LIMIT - done
  {
    assert cb - done == LIMIT * (cb / LIMIT) + (cb % LIMIT - done);
  }

  lemma CopyingTurn(cb: nat, size: nat, left: nat, done: nat)
    requires left > 0 && Copying(cb, size, left, done, SOk) && size < LIMIT
    ensures var copySize := Min(left % LIMIT, CHUNK);
            if copySize == 0 then CopyStatus(cb, size) == Hangs
            else
              var bytesRead := Min(copySize, size - done);
              done + bytesRead <= cb && bytesRead <= left &&
              Copying(cb, size, if bytesRead != copySize then 0 else left - bytesRead, done + bytesRead,
                      if bytesRead == 0 then SFalse else SOk)
  {
    LowHalf(cb, done);
  }

  lemma CopyingEnd(cb: nat, size: nat, done: nat, hr: Status)
    requires Copying(cb, size, 0, done, hr)
    ensures done == Min(cb, size) && hr == CopyStatus(cb, size)
  {
  }

  lemma SliceOfPrefix(b: seq<Byte>, size: nat, pos: nat, n: nat)
    requires pos + n <= size <= |b|
    ensures b[..size][pos..][..n] == b[pos..pos + n]
  {
  }

  lemma SliceMore(s: seq<Byte>, from: nat, pos: nat, n: nat)
    requires from <= pos && pos + n <= |s|
    ensures s[from..pos] + s[pos..][..n] == s[from..pos + n]
  {
  }

  lemma OverwriteNothing(s: seq<Byte>, pos: nat)
    ensures pos <= |s| ==> Overwrite(s, pos, []) == s
  {
  }

  lemma WrittenContent(s: seq<Byte>, pos: nat, data: seq<Byte>, b: seq<Byte>, t: seq<Byte>, n: nat)
    requires |s| <= |b| && b[..|s|] == s && Written(b, t, pos, data)
    requires n == if pos + |data| <= |s| then |s| else pos + |data|
    ensures n <= |t| && t[..n][pos..pos + |data|] == data
    ensures pos <= |s| ==> t[..n] == Overwrite(s, pos, data)
  {
    var u := t[..n];
    assert u[pos..pos + |data|] == data;
    if pos <= |s| {
      assert u[..pos] == t[..pos] == b[..pos] == s[..pos];
      if pos + |data| <= |s| {
        assert forall i :: pos + |data| <= i < |s| ==> u[i] == s[i];
      }
      OverwriteParts(s, pos, data, u);
    }
  }
}
