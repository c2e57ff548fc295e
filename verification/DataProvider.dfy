/** QByteArrayDataProvider: a seekable in-memory file, refining an abstract zero-filled byte file. */
module DataProvider {
  import opened Errors
  import opened Integers
  import opened Sequences

  // ----- the abstract file -----

  datatype File = File(content: seq<Byte>, pos: nat)

  /** A file reads as zero past its end. */
  function ByteAt(content: seq<Byte>, i: nat): Byte {
    if i < |content| then content[i] else 0
  }

  function Max(a: nat, b: nat): nat {
    if a < b then b else a
  }

  function ReadAt(f: File, count: nat): seq<Byte> {
    if |f.content| <= f.pos then []
    else if f.pos + count <= |f.content| then f.content[f.pos..f.pos + count]
    else f.content[f.pos..]
  }

  /** Writing at the position, with a gap before it filled with zeros. */
  function Written(f: File, data: seq<Byte>): File {
    if data == [] then f
    else
      var end := f.pos + |data|;
      File(seq(Max(|f.content|, end),
               i requires 0 <= i => if f.pos <= i < end then data[i - f.pos] else ByteAt(f.content, i)),
           end)
  }

  // ----- the provider -----

  datatype Whence = SeekSet | SeekCur | SeekEnd | OtherWhence

  const INT_MAX: int := 0x7FFF_FFFF

  /** Conversion to a 32-bit `int`. */
  function ToInt(x: int): int {
    (x + 0x8000_0000) % 0x1_0000_0000 - 0x8000_0000
  }

  /** Where a seek is asked to go. */
  function Target(size: nat, off: int, offset: int, whence: Whence): int {
    match whence
    case SeekSet => offset
    case SeekCur => off + offset
    case SeekEnd => size + offset
    case OtherWhence => -1
  }

  const EIO: nat := 5
  const EINVAL: nat := 22

  /** How a read or write ends: it returns, an assertion fails, or memory outside the array is touched. */
  datatype Outcome = Returned(amount: int, err: Error) | AssertionFailure | OutOfBounds

  class QByteArrayDataProvider {
    var mArray: seq<Byte>
    var mOff: int

    constructor (initialData: seq<Byte>)
      ensures mArray == initialData && mOff == 0
    {
      mArray, mOff := initialData, 0;
    }

    ghost function View(): File
      requires 0 <= mOff
      reads this
    {
      File(mArray, mOff)
    }

    /** The write starts inside the array and ends behind it. */
    predicate Straddles(count: nat)
      reads this
    {
      mOff < |mArray| < mOff + count
    }

    /** resizeAndInit: `grown` says whether resizing succeeded; fresh bytes hold anything until they
        are cleared. */
    method ResizeAndInit(newSize: nat, grown: bool, garbage: nat -> Byte) returns (ok: bool)
      requires |mArray| <= newSize
      modifies this`mArray
      ensures ok <==> |mArray| == newSize
      ensures if grown then |mArray| == newSize else mArray == old(mArray)
      ensures |old(mArray)| <= |mArray|
      ensures forall i :: 0 <= i < |mArray| ==> mArray[i] == ByteAt(old(mArray), i)
    {
      var oldSize := |mArray|;
      if grown {
        mArray := mArray + seq(newSize - oldSize, i requires 0 <= i => garbage(i));
      }
      ok := newSize == |mArray|;
      if ok {
        mArray := mArray[..oldSize] + seq(newSize - oldSize, i => 0);
      }
    }

    /** read: the negative offset that a negative seek leaves behind is not caught. */
    method Read(buffer: array?<Byte>, bufSize: nat) returns (r: Outcome)
      requires buffer != null ==> bufSize <= buffer.Length
      modifies this`mOff, buffer
      ensures bufSize == 0 ==> r == Returned(0, NoError) && mOff == old(mOff)
      ensures bufSize > 0 && buffer == null ==> r == Returned(-1, SystemError(EINVAL)) && mOff == old(mOff)
      ensures bufSize > 0 && buffer != null ==>
                if old(mOff) < 0 then r == OutOfBounds
                else
                  var data := ReadAt(old(View()), bufSize);
                  && r == Returned(|data|, NoError) && mOff == old(mOff) + |data|
                  && buffer[..|data|] == data && buffer[|data|..] == old(buffer[|data|..])
      ensures bufSize == 0 && buffer != null ==> buffer[..] == old(buffer[..])
    {
      if bufSize == 0 {
        return Returned(0, NoError);
      }
      if buffer == null {
        return Returned(-1, SystemError(EINVAL));
      }
      if mOff >= |mArray| {
        return Returned(0, NoError);
      }
      var amount := if bufSize < |mArray| - mOff then bufSize else |mArray| - mOff;
      if mOff < 0 {
        // memcpy would start before the array
        return OutOfBounds;
      }
      forall i | 0 <= i < amount {
        buffer[i] := mArray[mOff + i];
      }
      mOff := mOff + amount;
      r := Returned(amount, NoError);
    }

    /** write: the assertion fails exactly for what reaches behind the array without starting there. */
    method Write(buffer: array?<Byte>, bufSize: nat, grown: bool, garbage: nat -> Byte) returns (r: Outcome)
      requires |mArray| <= mOff ==> mOff + bufSize <= INT_MAX
      requires buffer != null ==> bufSize <= buffer.Length
      modifies this
      ensures bufSize == 0 ==> r == Returned(0, NoError) && mArray == old(mArray) && mOff == old(mOff)
      ensures bufSize > 0 && buffer == null ==>
                r == Returned(-1, SystemError(EINVAL)) && mArray == old(mArray) && mOff == old(mOff)
      ensures bufSize > 0 && buffer != null ==>
                if old(Straddles(bufSize)) then r == AssertionFailure
                else if old(mOff) < 0 then r == OutOfBounds
                else if grown || old(mOff) < |old(mArray)| then
                  r == Returned(bufSize, NoError) && 0 <= mOff && View() == Written(old(View()), buffer[..bufSize])
                else r == Returned(-1, SystemError(EIO)) && mArray == old(mArray) && mOff == old(mOff)
    {
      if bufSize == 0 {
        return Returned(0, NoError);
      }
      if buffer == null {
        return Returned(-1, SystemError(EINVAL));
      }
      if mOff >= |mArray| {
        var _ := ResizeAndInit(mOff + bufSize, grown, garbage);
      }
      if mOff >= |mArray| {
        return Returned(-1, SystemError(EIO));
      }
      if bufSize > |mArray| - mOff {
        return AssertionFailure;
      }
      if mOff < 0 {
        // memcpy would start before the array
        return OutOfBounds;
      }
      mArray := mArray[..mOff] + buffer[..bufSize] + mArray[mOff + bufSize..];
      mOff := mOff + bufSize;
      r := Returned(bufSize, NoError);
    }

    method Seek(offset: int, whence: Whence) returns (r: int, err: Error)
      modifies this`mOff
      ensures whence == OtherWhence ==> r == -1 && err == SystemError(EINVAL) && mOff == old(mOff)
      ensures whence != OtherWhence ==>
                mOff == r == ToInt(Target(|mArray|, ToInt(old(mOff)), offset, whence)) && err == NoError
    {
      var newOffset := ToInt(mOff);
      match whence {
        case SeekSet => newOffset := ToInt(offset);
        case SeekCur => newOffset := ToInt(newOffset + offset);
        case SeekEnd => newOffset := ToInt(|mArray| + offset);
        case OtherWhence => return -1, SystemError(EINVAL);
      }
      mOff := newOffset;
      return newOffset, NoError;
    }

    method Release()
      modifies this`mArray
      ensures mArray == []
    {
      mArray := [];
    }
  }

  /** A seek goes where it was asked to if and only if the target fits a 32-bit int. */
  lemma SeekExactIff(size: nat, off: int, offset: int, whence: Whence)
    ensures -0x8000_0000 <= ToInt(Target(size, off, offset, whence)) <= INT_MAX
    ensures (ToInt(Target(size, off, offset, whence)) - Target(size, off, offset, whence)) % 0x1_0000_0000 == 0
    ensures ToInt(Target(size, off, offset, whence)) == Target(size, off, offset, whence)
       <==> -0x8000_0000 <= Target(size, off, offset, whence) <= INT_MAX
  {
  }

  // ----- whole histories -----

  /** An operation; for a write also whether the array could grow, should it have to. */
  datatype Op = ReadOp(count: nat) | WriteOp(data: seq<Byte>, grown: bool) | SeekOp(offset: int, whence: Whence)

  /** A write that starts at or past the end needs a larger array; any other is done in place. */
  predicate Succeeds(f: File, op: Op)
    requires op.WriteOp?
  {
    op.grown || f.pos < |f.content|
  }

  /** What an operation may ask of the abstract file: seeks stay between 0 and INT_MAX and writes
      neither straddle the end nor leave the int range. */
  predicate Allowed(f: File, op: Op) {
    match op
    case ReadOp(_) => true
    case WriteOp(data, _) => f.pos + |data| <= INT_MAX && !(f.pos < |f.content| < f.pos + |data|)
    case SeekOp(offset, whence) =>
      whence == OtherWhence || 0 <= Target(|f.content|, f.pos, offset, whence) <= INT_MAX
  }

  function After(f: File, op: Op): File
    requires Allowed(f, op)
  {
    match op
    case ReadOp(count) => f.(pos := f.pos + |ReadAt(f, count)|)
    case WriteOp(data, _) => if Succeeds(f, op) then Written(f, data) else f
    case SeekOp(offset, whence) =>
      if whence == OtherWhence then f else f.(pos := Target(|f.content|, f.pos, offset, whence))
  }

  predicate AllAllowed(f: File, ops: seq<Op>)
    decreases |ops|
  {
    ops == [] || (Allowed(f, ops[0]) && AllAllowed(After(f, ops[0]), ops[1..]))
  }

  function Final(f: File, ops: seq<Op>): File
    requires AllAllowed(f, ops)
    decreases |ops|
  {
    if ops == [] then f else Final(After(f, ops[0]), ops[1..])
  }

  /** What the reads of a history return, in order. */
  function Reads(f: File, ops: seq<Op>): seq<seq<Byte>>
    requires AllAllowed(f, ops)
    decreases |ops|
  {
    if ops == [] then []
    else Got(f, ops[0]) + Reads(After(f, ops[0]), ops[1..])
  }

  function Got(f: File, op: Op): seq<seq<Byte>> {
    if op.ReadOp? then [ReadAt(f, op.count)] else []
  }

  method PerformOne(p: QByteArrayDataProvider, op: Op) returns (got: seq<seq<Byte>>)
    requires 0 <= p.mOff <= INT_MAX && Allowed(p.View(), op)
    modifies p
    ensures 0 <= p.mOff && p.View() == After(old(p.View()), op)
    ensures got == Got(old(p.View()), op)
  {
    got := [];
    match op {
      case ReadOp(count) =>
        var buffer := new Byte[count];
        var r := p.Read(buffer, count);
        got := [buffer[..r.amount]];
      case WriteOp(data, grown) =>
        var buffer := new Byte[|data|](i requires 0 <= i < |data| => data[i]);
        assert buffer[..|data|] == data;
        var _ := p.Write(buffer, |data|, grown, i => 0);
      case SeekOp(offset, whence) =>
        SeekExactIff(|p.mArray|, p.mOff, offset, whence);
        var _, _ := p.Seek(offset, whence);
    }
  }

  predicate InRange(f: File) {
    f.pos <= INT_MAX && |f.content| <= INT_MAX
  }

  lemma StaysInRange(f: File, op: Op)
    requires InRange(f) && Allowed(f, op)
    ensures InRange(After(f, op))
  {
  }

  lemma HistoryStep(f: File, ops: seq<Op>, i: nat)
    requires i < |ops| && AllAllowed(f, ops[i..])
    ensures Allowed(f, ops[i]) && AllAllowed(After(f, ops[i]), ops[i + 1..])
    ensures Final(f, ops[i..]) == Final(After(f, ops[i]), ops[i + 1..])
    ensures Reads(f, ops[i..]) == Got(f, ops[i]) + Reads(After(f, ops[i]), ops[i + 1..])
  {
    assert ops[i..][1..] == ops[i + 1..];
  }

  /** The provider runs through any allowed history as the abstract file does: same bytes read, same
      contents and position in the end. */
  method Perform(p: QByteArrayDataProvider, ops: seq<Op>) returns (got: seq<seq<Byte>>)
    requires 0 <= p.mOff && InRange(p.View()) && AllAllowed(p.View(), ops)
    modifies p
    ensures 0 <= p.mOff && p.View() == Final(old(p.View()), ops)
    ensures got == Reads(old(p.View()), ops)
  {
    ghost var f0, f := p.View(), p.View();
    got := [];
    assert ops[0..] == ops;
    for i := 0 to |ops|
      invariant 0 <= p.mOff && p.View() == f && InRange(f) && AllAllowed(f, ops[i..])
      invariant Final(f, ops[i..]) == Final(f0, ops)
      invariant Reads(f0, ops) == got + Reads(f, ops[i..])
    {
      HistoryStep(f, ops, i);
      StaysInRange(f, ops[i]);
      var one := PerformOne(p, ops[i]);
      Associate(got, one, Reads(After(f, ops[i]), ops[i + 1..]));
      f := After(f, ops[i]);
      got := got + one;
    }
  }

  // ----- what a history leaves behind -----

  datatype Write = Write(pos: nat, data: seq<Byte>)

  /** The writes of a history that succeeded, with the positions they happened at. */
  function Writes(f: File, ops: seq<Op>): seq<Write>
    requires AllAllowed(f, ops)
    decreases |ops|
  {
    if ops == [] then []
    else
      (if ops[0].WriteOp? && Succeeds(f, ops[0]) then [Write(f.pos, ops[0].data)] else [])
      + Writes(After(f, ops[0]), ops[1..])
  }

  /** The byte the last write covering place i left there, or else the one that was there before. */
  function Latest(writes: seq<Write>, i: nat, initial: Byte): Byte
  {
    if writes == [] then initial
    else
      var w := writes[|writes| - 1];
      if w.pos <= i < w.pos + |w.data| then w.data[i - w.pos]
      else Latest(writes[..|writes| - 1], i, initial)
  }

  /** Where the furthest-reaching of the non-empty writes ends, or `size` if that is larger. */
  function Extent(writes: seq<Write>, size: nat): nat {
    if writes == [] then size
    else
      var w := writes[|writes| - 1];
      var before := Extent(writes[..|writes| - 1], size);
      if w.data == [] then before else Max(before, w.pos + |w.data|)
  }

  lemma {:induction false} FirstWriteFirst(w: Write, writes: seq<Write>, i: nat, initial: Byte, size: nat)
    ensures Latest([w] + writes, i, initial) == Latest(writes, i, Latest([w], i, initial))
    ensures Extent([w] + writes, size) == Extent(writes, Extent([w], size))
  {
    if writes == [] {
      assert [w] + writes == [w];
    } else {
      var front := writes[..|writes| - 1];
      FirstWriteFirst(w, front, i, initial, size);
      assert ([w] + writes)[..|writes|] == [w] + front;
    }
  }

  lemma OneWrite(f: File, data: seq<Byte>, i: nat)
    ensures var w := [Write(f.pos, data)];
            && ByteAt(Written(f, data).content, i) == Latest(w, i, ByteAt(f.content, i))
            && |Written(f, data).content| == Extent(w, |f.content|)
  {
    assert [Write(f.pos, data)][..0] == [];
  }

  /** After any history, failed writes included, every place, even a zero-filled one behind the end, holds
      what the last write over it put there, or what it held at first; the size is where the writes
      reached. */
  lemma {:induction false} LastWriteWins(f: File, ops: seq<Op>, i: nat)
    requires AllAllowed(f, ops)
    ensures var content := Final(f, ops).content;
            && ByteAt(content, i) == Latest(Writes(f, ops), i, ByteAt(f.content, i))
            && |content| == Extent(Writes(f, ops), |f.content|)
    decreases |ops|
  {
    if ops != [] {
      var g := After(f, ops[0]);
      LastWriteWins(g, ops[1..], i);
      if ops[0].WriteOp? && Succeeds(f, ops[0]) {
        var w := Write(f.pos, ops[0].data);
        FirstWriteFirst(w, Writes(g, ops[1..]), i, ByteAt(f.content, i), |f.content|);
        OneWrite(f, ops[0].data, i);
      } else {
        assert Writes(f, ops) == Writes(g, ops[1..]);
      }
    }
  }

  /** Going back to where a write began and reading as much returns what was written. */
  lemma ReadBack(f: File, data: seq<Byte>)
    ensures ReadAt(Written(f, data).(pos := f.pos), |data|) == data
  {
    var content := Written(f, data).content;
    if data != [] {
      assert content[f.pos..f.pos + |data|] == data;
    }
  }

  lemma WriteSplit(f: File, a: seq<Byte>, b: seq<Byte>)
    ensures Written(Written(f, a), b) == Written(f, a + b)
  {
    if a == [] {
      assert a + b == b;
    } else if b == [] {
      assert a + b == a;
    } else {
      var one, two := Written(f, a + b), Written(Written(f, a), b);
      assert |one.content| == |two.content|;
      assert forall i :: 0 <= i < |one.content| ==> one.content[i] == two.content[i];
    }
  }

  /** Successive writes of the given chunks. */
  function WrittenChunks(f: File, chunks: seq<seq<Byte>>): File
    decreases |chunks|
  {
    if chunks == [] then f else WrittenChunks(Written(f, chunks[0]), chunks[1..])
  }

  function Flat(chunks: seq<seq<Byte>>): seq<Byte> {
    if chunks == [] then [] else chunks[0] + Flat(chunks[1..])
  }

  /** Writing in chunks of any sizes is writing their concatenation. */
  lemma {:induction false} ChunkedWriting(f: File, chunks: seq<seq<Byte>>)
    ensures WrittenChunks(f, chunks) == Written(f, Flat(chunks))
    decreases |chunks|
  {
    if chunks != [] {
      ChunkedWriting(Written(f, chunks[0]), chunks[1..]);
      WriteSplit(f, chunks[0], Flat(chunks[1..]));
    }
  }

  /** A read right after a write starts behind the bytes written. */
  lemma ReadBehindWrite(f: File, data: seq<Byte>, count: nat)
    ensures ReadAt(Written(f, data), count) == ReadAt(f.(pos := f.pos + |data|), count)
  {
  }

  /** Seeking forward is reading without looking; seeking to the start and to the end lead to the first byte
      and behind the last. */
  lemma SeekLaws(f: File, ahead: nat, data: seq<Byte>)
    requires InRange(f) && f.pos + ahead <= |f.content| && |f.content| + |data| <= INT_MAX
    ensures After(f, SeekOp(ahead, SeekCur)) == After(f, ReadOp(ahead))
    ensures ReadAt(After(f, SeekOp(ahead, SeekSet)), |f.content|) == f.content[ahead..]
    ensures After(After(f, SeekOp(0, SeekEnd)), WriteOp(data, true)).content == f.content + data
    ensures After(f, SeekOp(0 - f.pos, SeekCur)) == After(f, SeekOp(0, SeekSet))
    ensures After(f, SeekOp(0 - |f.content|, SeekEnd)) == After(f, SeekOp(0, SeekSet))
  {
    var end := After(f, SeekOp(0, SeekEnd));
    if data != [] {
      assert |Written(end, data).content| == |f.content| + |data|;
    }
  }

  function Sum(sizes: seq<nat>): nat {
    if sizes == [] then 0 else sizes[0] + Sum(sizes[1..])
  }

  /** Successive reads of the given sizes, concatenated. */
  function Chunks(f: File, sizes: seq<nat>): seq<Byte>
    decreases |sizes|
  {
    if sizes == [] then []
    else ReadAt(f, sizes[0]) + Chunks(After(f, ReadOp(sizes[0])), sizes[1..])
  }

  lemma ReadSplit(f: File, a: nat, b: nat)
    ensures ReadAt(f, a + b) == ReadAt(f, a) + ReadAt(After(f, ReadOp(a)), b)
  {
  }

  /** Reading in chunks of any sizes yields the same bytes as one read; once the sizes reach the end,
      exactly the remaining content. */
  lemma {:induction false} ChunkedReading(f: File, sizes: seq<nat>)
    ensures Chunks(f, sizes) == ReadAt(f, Sum(sizes))
    ensures f.pos <= |f.content| <= f.pos + Sum(sizes) ==> Chunks(f, sizes) == f.content[f.pos..]
    decreases |sizes|
  {
    if sizes != [] {
      ChunkedReading(After(f, ReadOp(sizes[0])), sizes[1..]);
      ReadSplit(f, sizes[0], Sum(sizes[1..]));
    }
  }
}
