/** util/buffer.c: the buffer between the connection thread and the input thread. */
module ByteBuffer {
  import opened LineSplitter

  class Buffer {
    const size: nat
    const data: array<SChar>
    var head: nat
    var tail: nat
    var full: bool
    var empty: bool

    /** What holds whenever the buffer's mutex is free. */
    ghost predicate Valid()
      reads this
    {
      && data.Length == size > 0
      && head <= tail <= size
      && (full <==> tail == size)
      && (empty <==> head == tail)
      && (empty ==> head == 0)
    }

    /** The bytes written and not yet read. */
    ghost function Contents(): (s: seq<SChar>)
      requires Valid()
      reads this, data
    {
      data[head..tail]
    }

    /** BufferCreate, for a size above zero. */
    constructor (size: nat)
      requires size > 0
      ensures Valid() && Contents() == [] && this.size == size && fresh(data)
    {
      this.size := size;
      data := new SChar[size];
      head, tail, full, empty := 0, 0, false, true;
    }

    /** BufferAvailWrite: the room behind what is held.  What has been read from the front is not
        room until the buffer has drained. */
    function AvailWrite(): (n: nat)
      requires Valid()
      reads this, data
      ensures head + |Contents()| + n == size
      ensures (n == 0 <==> full) && (empty ==> n == size)
    {
      size - tail
    }

    /** BufferAvailRead. */
    function AvailRead(): (n: nat)
      requires Valid()
      reads this, data
      ensures n == |Contents()| && (n == 0 <==> empty)
    {
      tail - head
    }

    /** BufferConditionUpdate; the condition signals are not part of this model. */
    method ConditionUpdate()
      requires data.Length == size > 0 && head <= tail <= size
      modifies this`head, this`tail, this`full, this`empty
      ensures Valid() && Contents() == old(data[head..tail])
      ensures if old(head == tail) then head == tail == 0 else head == old(head) && tail == old(tail)
    {
      if head == tail {
        empty := true;
        head := 0;
        tail := 0;
      } else {
        empty := false;
      }
      if tail >= size {
        full := true;
      } else {
        full := false;
      }
    }

    /** A read() of some bytes to where BufferGetWrite points, then BufferWroteBytes. */
    method Write(chunk: seq<SChar>)
      requires Valid() && 1 <= |chunk| <= AvailWrite()
      modifies this`head, this`tail, this`full, this`empty, data
      ensures Valid() && Contents() == old(Contents()) + chunk && head == old(head)
    {
      forall i | 0 <= i < |chunk| {
        data[tail + i] := chunk[i];
      }
      assert data[head..tail + |chunk|] == old(data[head..tail]) + chunk;
      tail := tail + |chunk|;
      ConditionUpdate();
    }

    /** BufferGetRead, a copy of count bytes, then BufferReadBytes. */
    method Read(count: nat) returns (chunk: seq<SChar>)
      requires Valid() && 1 <= count <= AvailRead()
      modifies this`head, this`tail, this`full, this`empty
      ensures Valid() && chunk == old(Contents())[..count] && Contents() == old(Contents())[count..]
    {
      chunk := data[head..head + count];
      head := head + count;
      ConditionUpdate();
    }

    /** BufferClear. */
    method Clear()
      requires Valid()
      modifies this`head, this`tail, this`full, this`empty
      ensures Valid() && Contents() == []
    {
      head := 0;
      tail := 0;
      ConditionUpdate();
    }
  }
}
