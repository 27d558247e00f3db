/** net/Buffer.h and net/Buffer.cc: a growing character array with a readable window, which
    stands for the first-in first-out sequence of the characters in the window. */
module Buffers {
  import opened Prelude

  const CHEAP_PREPEND: nat := 8
  const INITIAL_SIZE: nat := 1024
  const EXTRA_SIZE: nat := 64 * 1024
  const SIZE_T: int := 0x1_0000_0000_0000_0000

  // ---------------------------------------------------------------- the arithmetic of append

  /** How a call of append ends: with the characters appended, with an assertion failure, or
      with a copy past the end of the vector. */
  datatype Outcome = Appended | AssertionFailed | OutOfRange

  /** writeableBytes(): a difference of type size_t, which wraps around. */
  function Writeable(size: nat, writeIndex: nat): int {
    if writeIndex <= size then size - writeIndex else size - writeIndex + SIZE_T
  }

  /** The space is to be made by growing rather than by compaction. */
  predicate MustGrow(size: nat, readIndex: nat, writeIndex: nat, more: nat) {
    Writeable(size, writeIndex) + readIndex < more + CHEAP_PREPEND
  }

  /** The new size of the vector.  Line 162 adds the writeable bytes where the write index is
      meant. */
  function GrownSize(reading: Reading, size: nat, writeIndex: nat, more: nat): nat
    requires writeIndex <= size
  {
    match reading
    case AsWritten => Writeable(size, writeIndex) + more
    case Intended => writeIndex + more
  }

  /** The assertion after makespace; line 103 demands a byte more than is needed. */
  predicate RoomFor(reading: Reading, size: nat, writeIndex: nat, len: nat) {
    match reading
    case AsWritten => len < Writeable(size, writeIndex)
    case Intended => len <= Writeable(size, writeIndex)
  }

  /** Size and write index after makespace, if append calls it. */
  function SizeAfter(reading: Reading, size: nat, readIndex: nat, writeIndex: nat, len: nat): nat
    requires readIndex <= writeIndex <= size
  {
    if len > Writeable(size, writeIndex) && MustGrow(size, readIndex, writeIndex, len)
    then GrownSize(reading, size, writeIndex, len) else size
  }

  function WriteIndexAfter(size: nat, readIndex: nat, writeIndex: nat, len: nat): nat
    requires readIndex <= writeIndex <= size
  {
    if len > Writeable(size, writeIndex) && !MustGrow(size, readIndex, writeIndex, len)
    then CHEAP_PREPEND + writeIndex - readIndex else writeIndex
  }

  function ReadIndexAfter(size: nat, readIndex: nat, writeIndex: nat, len: nat): nat
    requires readIndex <= writeIndex <= size
  {
    if len > Writeable(size, writeIndex) && !MustGrow(size, readIndex, writeIndex, len)
    then CHEAP_PREPEND else readIndex
  }

  function AppendOutcome(reading: Reading, size: nat, readIndex: nat, writeIndex: nat, len: nat): Outcome
    requires readIndex <= writeIndex <= size
  {
    var size' := SizeAfter(reading, size, readIndex, writeIndex, len);
    var writeIndex' := WriteIndexAfter(size, readIndex, writeIndex, len);
    if !RoomFor(reading, size', writeIndex', len) then AssertionFailed
    else if writeIndex' + len > size' then OutOfRange
    else Appended
  }

  /** The state of a buffer that fits the address space. */
  predicate Shape(size: nat, readIndex: nat, writeIndex: nat) {
    CHEAP_PREPEND <= writeIndex <= size < SIZE_T && readIndex <= writeIndex
  }

  /** With the intended statements append always succeeds, as long as the vector still fits the
      address space.  As written it succeeds exactly if there is a byte to spare: before
      makespace, or after compaction, or, when the vector grows, if more than half of it was
      still writeable.  The corruption of the readable bytes is not possible: if the vector
      is made too small for them, append does not succeed. */
  lemma AppendSucceedsIff(reading: Reading, size: nat, readIndex: nat, writeIndex: nat, len: nat)
    requires Shape(size, readIndex, writeIndex) && size + len < SIZE_T
    ensures var writeable := size - writeIndex;
            AppendOutcome(reading, size, readIndex, writeIndex, len) == Appended <==>
            match reading
            case Intended => true
            case AsWritten =>
              if len <= writeable then len < writeable
              else if readIndex + writeable >= len + CHEAP_PREPEND then readIndex + writeable > len + CHEAP_PREPEND
              else writeable > writeIndex
  {
  }

  /** Two buffers, one new and one nearly full, on which the statements as written fail. */
  lemma AppendAsWrittenFails()
    ensures AppendOutcome(AsWritten, CHEAP_PREPEND + INITIAL_SIZE, CHEAP_PREPEND, CHEAP_PREPEND, INITIAL_SIZE)
            == AssertionFailed
    ensures AppendOutcome(AsWritten, CHEAP_PREPEND + INITIAL_SIZE, CHEAP_PREPEND, 1000, 100) == OutOfRange
  {
  }

  // ---------------------------------------------------------------- reading into a buffer

  /** A buffer as a value: its readable characters, the size of its vector, and where in the
      vector they begin. */
  datatype Stored = Stored(unread: seq<char>, size: nat, readIndex: nat)

  type Input = b: Stored | b.readIndex + |b.unread| <= b.size witness NEW_INPUT

  const NEW_INPUT: Stored := Stored([], CHEAP_PREPEND + INITIAL_SIZE, CHEAP_PREPEND)

  /** The space behind the readable characters. */
  function Tail(b: Input): nat {
    b.size - (b.readIndex + |b.unread|)
  }

  /** How readFd ends when readv delivers n characters: those that do not fit behind the write
      index are appended when the vector is full. */
  function ReadOutcome(reading: Reading, b: Input, n: nat): Outcome {
    if n <= Tail(b) then Appended else AppendOutcome(reading, b.size, b.readIndex, b.size, n - Tail(b))
  }

  /** The characters neither fit behind the write index, nor leave a byte to spare when the
      vector is compacted. */
  predicate TooLong(b: Input, n: nat) {
    n > Tail(b) && b.readIndex <= CHEAP_PREPEND + (n - Tail(b))
  }

  /** With the intended statements every read succeeds; as written, exactly those that are not
      too long. */
  lemma ReadSucceedsIff(reading: Reading, b: Input, n: nat)
    ensures ReadOutcome(reading, b, n) == Appended <==> (reading == Intended || !TooLong(b, n))
  {
  }

  /** The buffer after a read that succeeds. */
  function AfterRead(reading: Reading, b: Input, bytes: seq<char>): Input
    requires ReadOutcome(reading, b, |bytes|) == Appended
  {
    var extra := |bytes| - Tail(b);
    if extra <= 0 then b.(unread := b.unread + bytes)
    else Stored(b.unread + bytes, SizeAfter(reading, b.size, b.readIndex, b.size, extra),
                ReadIndexAfter(b.size, b.readIndex, b.size, extra))
  }

  /** A read that is not too long does the same under both readings, in the vector as it is. */
  lemma SameAfterRead(b: Input, bytes: seq<char>)
    requires !TooLong(b, |bytes|)
    ensures forall reading :: ReadOutcome(reading, b, |bytes|) == Appended
    ensures AfterRead(AsWritten, b, bytes) == AfterRead(Intended, b, bytes)
    ensures AfterRead(AsWritten, b, bytes).size == b.size
  {
    ReadSucceedsIff(AsWritten, b, |bytes|);
    ReadSucceedsIff(Intended, b, |bytes|);
  }

  /** The buffer when only `rest` is left of its readable characters. */
  function Retrieved(b: Input, rest: seq<char>): Input
    requires |rest| <= |b.unread|
  {
    b.(unread := rest, readIndex := b.readIndex + |b.unread| - |rest|)
  }

  // ---------------------------------------------------------------- searching

  /** CRLF stands at position i. */
  predicate CRLFAt(s: seq<char>, i: int) {
    0 <= i && i + 1 < |s| && s[i] == '\r' && s[i + 1] == '\n'
  }

  /** findCRLF(start): the first CRLF at or after `start`. */
  function FindCRLF(s: seq<char>, start: nat): (r: Option<nat>)
    requires start <= |s|
    ensures r.Some? ==> start <= r.value && CRLFAt(s, r.value) && forall i :: start <= i < r.value ==> !CRLFAt(s, i)
    ensures r.None? ==> forall i :: start <= i ==> !CRLFAt(s, i)
    decreases |s| - start
  {
    if CRLFAt(s, start) then Some(start)
    else if start == |s| then None
    else FindCRLF(s, start + 1)
  }

  // ---------------------------------------------------------------- the class

  class Buffer {
    const reading: Reading
    var buffer: array<char>
    var readIndex: nat
    var writeIndex: nat

    ghost predicate Valid()
      reads this
    {
      Shape(buffer.Length, readIndex, writeIndex)
    }

    /** The characters between the indexes. */
    ghost function Contents(): seq<char>
      reads this, buffer
      requires Valid()
    {
      buffer[readIndex..writeIndex]
    }

    ghost function AsInput(): Input
      reads this, buffer
      requires Valid()
    {
      Stored(Contents(), buffer.Length, readIndex)
    }

    constructor (reading: Reading)
      ensures Valid() && fresh(buffer) && Contents() == [] && this.reading == reading
      ensures buffer.Length == CHEAP_PREPEND + INITIAL_SIZE && readIndex == CHEAP_PREPEND
    {
      this.reading := reading;
      buffer := new char[CHEAP_PREPEND + INITIAL_SIZE](_ => '\0');
      readIndex, writeIndex := CHEAP_PREPEND, CHEAP_PREPEND;
    }

    method Swap(that: Buffer)
      requires Valid() && that.Valid()
      modifies this`buffer, this`readIndex, this`writeIndex
      modifies that`buffer, that`readIndex, that`writeIndex
      ensures Valid() && that.Valid()
      ensures Contents() == old(that.Contents()) && that.Contents() == old(Contents())
      ensures {buffer, that.buffer} == old({buffer, that.buffer})
    {
      buffer, that.buffer := that.buffer, buffer;
      readIndex, that.readIndex := that.readIndex, readIndex;
      writeIndex, that.writeIndex := that.writeIndex, writeIndex;
    }

    method Retrieve(len: nat)
      requires Valid() && len <= |Contents()|
      modifies this`readIndex
      ensures Valid() && Contents() == old(Contents())[len..]
    {
      readIndex := readIndex + len;
    }

    method RetrieveAsString() returns (str: string)
      requires Valid()
      modifies this`readIndex, this`writeIndex
      ensures Valid() && Contents() == [] && str == old(Contents())
    {
      str := buffer[readIndex..writeIndex];
      readIndex, writeIndex := CHEAP_PREPEND, CHEAP_PREPEND;
    }

    /** The compaction of makespace, which std::copy performs in place from the front.  That
        needs the target to lie before the source, and append calls makespace only when it
        does. */
    method Compact()
      requires Valid() && CHEAP_PREPEND < readIndex
      modifies this`readIndex, this`writeIndex, buffer
      ensures Valid() && Contents() == old(Contents()) && readIndex == CHEAP_PREPEND
      ensures writeIndex == CHEAP_PREPEND + |Contents()|
    {
      var used := writeIndex - readIndex;
      for i := 0 to used
        invariant readIndex == old(readIndex) && writeIndex == old(writeIndex)
        invariant buffer[CHEAP_PREPEND..CHEAP_PREPEND + i] == old(buffer[readIndex..writeIndex])[..i]
        invariant buffer[readIndex + i..writeIndex] == old(buffer[readIndex..writeIndex])[i..]
      {
        assert buffer[readIndex + i] == buffer[readIndex + i..writeIndex][0];
        buffer[CHEAP_PREPEND + i] := buffer[readIndex + i];
      }
      readIndex := CHEAP_PREPEND;
      writeIndex := CHEAP_PREPEND + used;
    }

    /** std::vector::resize */
    method Resize(size: nat)
      requires size < SIZE_T
      modifies this`buffer
      ensures fresh(buffer) && buffer.Length == size
      ensures forall i :: 0 <= i < size && i < old(buffer.Length) ==> buffer[i] == old(buffer[i])
    {
      var was := buffer;
      buffer := new char[size](i requires 0 <= i reads was => if i < was.Length then was[i] else '\0');
    }

    method MakeSpace(more: nat)
      requires Valid() && more > Writeable(buffer.Length, writeIndex) && buffer.Length + more < SIZE_T
      modifies this`buffer, this`readIndex, this`writeIndex, buffer
      ensures buffer.Length == SizeAfter(reading, old(buffer.Length), old(readIndex), old(writeIndex), more)
      ensures readIndex == ReadIndexAfter(old(buffer.Length), old(readIndex), old(writeIndex), more)
      ensures writeIndex == WriteIndexAfter(old(buffer.Length), old(readIndex), old(writeIndex), more)
      ensures buffer.Length < SIZE_T && readIndex <= writeIndex
      ensures writeIndex <= buffer.Length ==> Valid() && Contents() == old(Contents())
      ensures buffer == old(buffer) || fresh(buffer)
    {
      if MustGrow(buffer.Length, readIndex, writeIndex, more) {
        Resize(GrownSize(reading, buffer.Length, writeIndex, more));
        assert writeIndex <= buffer.Length ==> buffer[readIndex..writeIndex] == old(buffer[readIndex..writeIndex]);
      } else {
        Compact();
      }
    }

    /** std::copy(data, data + |data|, begin() + at), within the vector. */
    method CopyIn(data: seq<char>, at: nat)
      requires at + |data| <= buffer.Length
      modifies buffer
      ensures buffer[at..at + |data|] == data
      ensures forall i :: 0 <= i < buffer.Length && !(at <= i < at + |data|) ==> buffer[i] == old(buffer[i])
    {
      for i := 0 to |data|
        invariant buffer[at..at + i] == data[..i]
        invariant forall k :: 0 <= k < buffer.Length && !(at <= k < at + i) ==> buffer[k] == old(buffer[k])
      {
        buffer[at + i] := data[i];
      }
    }

    /** Puts data behind the readable characters, where there is room. */
    method Place(data: seq<char>)
      requires Valid() && writeIndex + |data| <= buffer.Length
      modifies this`writeIndex, buffer
      ensures Valid() && Contents() == old(Contents()) + data && writeIndex == old(writeIndex) + |data|
    {
      CopyIn(data, writeIndex);
      assert buffer[readIndex..writeIndex + |data|] == buffer[readIndex..writeIndex] + data;
      writeIndex := writeIndex + |data|;
    }

    /** Adds the data behind the readable characters, if it ends with Appended; otherwise the
        process has failed, and nothing is promised about the buffer. */
    method Append(data: seq<char>) returns (outcome: Outcome)
      requires Valid() && buffer.Length + |data| < SIZE_T
      modifies this`buffer, this`readIndex, this`writeIndex, buffer
      ensures outcome == AppendOutcome(reading, old(buffer.Length), old(readIndex), old(writeIndex), |data|)
      ensures reading == Intended ==> outcome == Appended
      ensures outcome == Appended ==> Valid() && Contents() == old(Contents()) + data
      ensures outcome == Appended ==>
                && buffer.Length == SizeAfter(reading, old(buffer.Length), old(readIndex), old(writeIndex), |data|)
                && readIndex == ReadIndexAfter(old(buffer.Length), old(readIndex), old(writeIndex), |data|)
      ensures buffer == old(buffer) || fresh(buffer)
    {
      AppendSucceedsIff(reading, buffer.Length, readIndex, writeIndex, |data|);
      if |data| > Writeable(buffer.Length, writeIndex) {
        MakeSpace(|data|);
      }
      if !RoomFor(reading, buffer.Length, writeIndex, |data|) {
        return AssertionFailed;
      }
      if writeIndex + |data| > buffer.Length {
        return OutOfRange;
      }
      Place(data);
      return Appended;
    }

    /** The assertion of prepend demands a byte more than is needed, too. */
    method Prepend(data: seq<char>) returns (ok: bool)
      requires Valid()
      modifies this`readIndex, buffer
      ensures Valid() && ok == (|data| < old(readIndex))
      ensures Contents() == if ok then data + old(Contents()) else old(Contents())
    {
      ok := |data| < readIndex;
      if ok {
        readIndex := readIndex - |data|;
        CopyIn(data, readIndex);
        assert buffer[readIndex..writeIndex]
            == buffer[readIndex..readIndex + |data|] + buffer[readIndex + |data|..writeIndex];
        assert buffer[readIndex + |data|..writeIndex] == old(Contents());
      }
    }

    method Shrink(reserve: nat)
      requires Valid() && CHEAP_PREPEND + |Contents()| + reserve < SIZE_T
      modifies this`buffer, this`readIndex, this`writeIndex
      ensures Valid() && Contents() == old(Contents()) && fresh(buffer)
      ensures buffer.Length == CHEAP_PREPEND + |Contents()| + reserve
    {
      var used := writeIndex - readIndex;
      var was := buffer[readIndex..writeIndex];
      buffer := new char[CHEAP_PREPEND + used + reserve](_ => '\0');
      CopyIn(was, CHEAP_PREPEND);
      readIndex := CHEAP_PREPEND;
      writeIndex := readIndex + used;
    }

    /** The branch of readFd for more bytes than fit. */
    method ReadOverflow(bytes: seq<char>) returns (outcome: Outcome)
      requires Valid() && |bytes| > buffer.Length - writeIndex && buffer.Length + |bytes| < SIZE_T
      modifies this`buffer, this`readIndex, this`writeIndex, buffer
      ensures outcome == ReadOutcome(reading, old(AsInput()), |bytes|)
      ensures outcome == Appended ==> Valid() && AsInput() == AfterRead(reading, old(AsInput()), bytes)
      ensures buffer == old(buffer) || fresh(buffer)
    {
      var writeable := buffer.Length - writeIndex;
      ghost var before := Contents();
      Place(bytes[..writeable]);
      outcome := Append(bytes[writeable..]);
      assert before + bytes == before + bytes[..writeable] + bytes[writeable..];
    }

    /** readFd, where readv delivers `incoming`: as much as fits behind the write index, the
        rest into the block on the stack; or fails, for None. */
    method ReadFd(incoming: Option<seq<char>>) returns (nread: int, outcome: Outcome)
      requires Valid()
      requires incoming.Some? ==> |incoming.value| <= buffer.Length - writeIndex + EXTRA_SIZE
      requires incoming.Some? ==> buffer.Length + |incoming.value| < SIZE_T
      modifies this`buffer, this`readIndex, this`writeIndex, buffer
      ensures nread == if incoming.Some? then |incoming.value| else -1
      ensures incoming.None? ==> outcome == Appended && Valid() && AsInput() == old(AsInput())
      ensures incoming.Some? ==>
                (outcome == Appended <==> (reading == Intended || !TooLong(old(AsInput()), |incoming.value|)))
      ensures incoming.Some? && outcome == Appended ==>
                && ReadOutcome(reading, old(AsInput()), |incoming.value|) == Appended
                && Valid() && AsInput() == AfterRead(reading, old(AsInput()), incoming.value)
                && Contents() == old(Contents()) + incoming.value
      ensures buffer == old(buffer) || fresh(buffer)
    {
      match incoming {
        case None =>
          nread, outcome := -1, Appended;
        case Some(bytes) =>
          ReadSucceedsIff(reading, AsInput(), |bytes|);
          nread := |bytes|;
          if nread <= Writeable(buffer.Length, writeIndex) {
            Place(bytes);
            outcome := Appended;
          } else {
            outcome := ReadOverflow(bytes);
          }
      }
    }

    /** findCRLF(peek() + start), as a position relative to peek(). */
    method FindCRLFFrom(start: nat) returns (r: Option<nat>)
      requires Valid() && start <= |Contents()|
      ensures r == FindCRLF(Contents(), start)
    {
      r := FindCRLF(buffer[readIndex..writeIndex], start);
    }
  }
}
