/** The closed-interval buffer cursor: [start, end] is the storage, [pos, last] the part in use. */
module Buffers {
  import opened Codec

  /** A pointer into the storage, as an offset from its start. */
  datatype Pointer = Null | Off(off: int)

  class Buffer {
    const data: array<byte>
    var pos: Pointer
    var last: Pointer
    var available: bool

    /** Message::GetNewBuffer: storage with null cursors. */
    constructor (size: nat)
      ensures fresh(data) && data.Length == size && Empty()
    {
      data := new byte[size](_ => 0);
      pos, last, available := Null, Null, false;
    }

    /** Message::GetNewAvailableBuffer: the whole storage is in use. */
    constructor Available(size: nat)
      requires 0 < size
      ensures fresh(data) && data.Length == size && pos == Off(0) && last == Off(size - 1) && available
    {
      data := new byte[size](_ => 0);
      pos, last, available := Off(0), Off(size - 1), true;
    }

    ghost predicate Empty()
      reads `pos, `last, `available
    {
      pos == Null && last == Null && !available
    }

    /** The used part is [p, q): a non-empty window that ends before the storage does or with it. */
    ghost predicate Window(p: nat, q: nat)
      reads `pos, `last, `available
    {
      p < q <= data.Length && pos == Off(p) && last == Off(q - 1) && available
    }

    method BZero()
      modifies `pos, `last, `available, data
      ensures Empty() && forall i :: 0 <= i < data.Length ==> data[i] == 0
    {
      pos, last := Null, Null;
      forall i | 0 <= i < data.Length {
        data[i] := 0;
      }
      available := false;
    }

    method CheckAvailable()
      modifies `available
      ensures available == (pos.Off? && last.Off? && pos.off <= last.off)
    {
      available := pos.Off? && last.Off? && pos.off <= last.off;
    }

    method MoveHeadBack(n: uint32)
      modifies `pos, `available
      ensures old(pos == Null || last == Null) ==> !available && pos == old(pos)
      ensures old(pos.Off? && last.Off?) ==> pos == Off(old(pos.off) + n)
      ensures old(pos.Off? && last.Off?) && 0 < n ==> (available <==> pos.off <= last.off)
      // n - 1 wraps for n == 0, so a move by nothing makes the buffer unavailable.
      ensures old(pos.Off? && last.Off?) && n == 0 && last.off - pos.off <= 0xFFFF_FFFF ==> !available
    {
      if pos == Null || last == Null {
        available := false;
        return;
      }
      available := last.off - pos.off > (n - 1) % 0x1_0000_0000;
      pos := Off(pos.off + n);
    }

    method MoveTailBack(n: nat)
      modifies `last, `available
      ensures last == Off(if old(last).Off? then old(last.off) + n else n - 1)
      ensures available == if old(last).Off? then old(available) else pos.Off? && pos.off <= last.off
    {
      if last.Off? {
        last := Off(last.off + n);
      } else {
        last := Off(n - 1);
        CheckAvailable();
      }
    }

    method SetPos(p: Pointer)
      modifies `pos, `available
      ensures pos == p && available == (p.Off? && last.Off? && p.off <= last.off)
    {
      pos := p;
      CheckAvailable();
    }

    function TotalLength(): nat {
      data.Length
    }

    function AvailableLength(): int
      reads `pos, `last, `available
    {
      if !available then 0
      else if pos == Null || last == Null then 0
      else last.off - pos.off + 1
    }

    function UnusedSize(): int
      reads `last, `available
    {
      if !available then 0
      else if last.Off? then data.Length - 1 - last.off
      else data.Length
    }
  }
}
