/**
  The growable buffer of src/lib/buffer.c: a heap block that is replaced when it is too
  small, a headroom in front of the data, and the data.
*/
module Buffer {
  import opened ByteFields

  /** A raw pointer into a block. */
  datatype Ptr = Ptr(block: array<Byte>, off: nat)

  class Buffer {
    var block: array?<Byte>   // top; its length is real_length
    var front: nat            // data - top
    var length: nat

    ghost predicate Valid()
      reads this, block
    {
      if block == null then front == 0 && length == 0
      else block.Length > 0 && front + length <= block.Length
    }

    /** The visible bytes. */
    ghost function Contents(): (bs: Bytes)
      requires Valid()
      reads this, block
      ensures |bs| == length
    {
      if block == null then [] else block[front..front + length]
    }

    /** already_allocated. */
    predicate Fits(n: nat)
      reads this, block
    {
      block != null && front + length + n <= block.Length
    }

    constructor ()
      ensures Valid() && block == null && Contents() == []
    {
      block, front, length := null, 0, 0;
    }

    constructor WithLength(n: nat)
      requires n != 0
      ensures Valid() && block != null && fresh(block) && block.Length == n && Contents() == []
    {
      block, front, length := new Byte[n], 0, 0;
    }

    /** A larger block that holds the old data `skip` bytes behind the headroom. */
    method Regrow(skip: nat, n: nat)
      requires Valid() && block != null && n > 0 && skip <= n
      modifies this
      ensures block != null && fresh(block) && block.Length == old(front + length) + n
      ensures front == old(front) && length == old(length)
      ensures block[front + skip..front + skip + length] == old(Contents())
    {
      var grown := new Byte[front + length + n];
      forall k | 0 <= k < length { grown[front + skip + k] := block[front + k]; }
      ghost var moved, kept := grown[front + skip..front + skip + length], block[front..front + length];
      forall k | 0 <= k < length ensures moved[k] == kept[k] {
        assert grown[front + skip + k] == block[front + k];
      }
      block := grown;
    }

    /** memmove: the data `n` bytes further back in the same block. */
    method ShiftUp(n: nat)
      requires Valid() && Fits(n)
      modifies block
      ensures block[front + n..front + n + length] == old(Contents())
    {
      forall k | 0 <= k < length { block[front + n + k] := block[front + k]; }
    }

    /** memset: `n` zero bytes at the start of the data. */
    method Clear(n: nat)
      requires Valid() && Fits(n)
      modifies block
      ensures block[front..front + n] == Zeros(n)
      ensures block[front + n..front + n + length] == old(block[front + n..front + n + length])
    {
      forall k | 0 <= k < n { block[front + k] := 0; }
    }

    /** The room behind the data is used: everything moves back. */
    method GrowInPlace(n: nat)
      requires Valid() && Fits(n)
      modifies this`length, block
      ensures Valid() && length == old(length) + n && Contents() == Zeros(n) + old(Contents())
    {
      ShiftUp(n);
      Clear(n);
      length := length + n;
      assert block[front..front + length] == block[front..front + n] + block[front + n..front + length];
    }

    /** append_front: a new block, with the new bytes unspecified. */
    method GrowByCopy(n: nat)
      requires Valid() && block != null && n > 0
      modifies this
      ensures Valid() && block != null && fresh(block) && front == old(front) && length == old(length) + n
      ensures Contents()[n..] == old(Contents()) && block.Length == old(front + length) + n
    {
      Regrow(n, n);
      length := length + n;
      assert block[front..front + length][n..] == block[front + n..front + length];
    }

    method AppendFront(n: nat) returns (p: Ptr)
      requires Valid() && n != 0
      modifies this, block
      ensures Valid() && block != null && (block == old(block) || fresh(block))
      ensures p == Ptr(block, front) && front == old(front)
      ensures |Contents()| == n + |old(Contents())|
      ensures Contents()[n..] == old(Contents())
      ensures block == old(block) <==> old(block != null && front + length + n <= block.Length)
      ensures block == old(block) ==> Contents()[..n] == Zeros(n)
      ensures block != old(block) ==> block.Length == old(front + length) + n
    {
      if block == null {
        block, length := new Byte[n], n;
      } else if Fits(n) {
        GrowInPlace(n);
      } else {
        GrowByCopy(n);
      }
      p := Ptr(block, front);
    }

    method RemoveFront(n: nat) returns (off: nat)
      requires Valid() && n != 0 && n <= length
      modifies this
      ensures Valid() && block == old(block) && off == front == old(front) + n
      ensures Contents() == old(Contents())[n..]
    {
      front, length := front + n, length - n;
      off := front;
    }

    method AppendBack(n: nat) returns (p: Ptr)
      requires Valid() && n != 0
      modifies this
      ensures Valid() && block != null && (block == old(block) || fresh(block))
      ensures block == old(block) <==> old(block != null && front + length + n <= block.Length)
      ensures block != old(block) ==> block.Length == old(front + length) + n
      ensures p == Ptr(block, front + old(length)) && front == old(front)
      ensures |Contents()| == |old(Contents())| + n
      ensures Contents()[..old(length)] == old(Contents())
    {
      if block == null {
        block, length := new Byte[n], n;
        return Ptr(block, 0);
      }
      if !Fits(n) {
        Regrow(0, n);
      }
      p := Ptr(block, front + length);
      length := length + n;
    }

    /** The copy has the same layout and contents and shares no memory with the original. */
    method Duplicate() returns (copy: Buffer)
      requires Valid()
      ensures fresh(copy) && copy.Valid() && (copy.block != null ==> fresh(copy.block))
      ensures copy.Contents() == Contents() && copy.front == front
      ensures (copy.block == null <==> block == null) && (block != null ==> copy.block.Length == block.Length)
    {
      copy := new Buffer();
      if block != null {
        var b := new Byte[block.Length];
        forall k | 0 <= k < block.Length { b[k] := block[k]; }
        copy.block, copy.front, copy.length := b, front, length;
        assert copy.Contents() == b[front..front + length];
      }
    }
  }

  // -------------------------------------------------------------- whole histories

  datatype Op = PushFront(n: nat) | PushBack(n: nat) | PopFront(n: nat) | Copy

  /** A byte of the plain sequence: known, or added and not yet written. */
  datatype Cell = Known(b: Byte) | Unwritten

  function Blank(n: nat): (r: seq<Cell>)
    ensures |r| == n
  {
    seq(n, _ => Unwritten)
  }

  /** The operations of a history on a plain sequence; `Illegal` where the source asserts. */
  datatype Outcome = Illegal | Plain(cells: seq<Cell>)

  function Apply(cells: seq<Cell>, op: Op): Outcome {
    match op
    case PushFront(n) => if n == 0 then Illegal else Plain(Blank(n) + cells)
    case PushBack(n) => if n == 0 then Illegal else Plain(cells + Blank(n))
    case PopFront(n) => if n == 0 || n > |cells| then Illegal else Plain(cells[n..])
    case Copy => Plain(cells)
  }

  function ApplyAll(cells: seq<Cell>, ops: seq<Op>): Outcome {
    if ops == [] then Plain(cells)
    else
      var before := ApplyAll(cells, ops[..|ops| - 1]);
      if before.Illegal? then Illegal else Apply(before.cells, ops[|ops| - 1])
  }

  function Cells(bs: Bytes): (r: seq<Cell>)
    ensures |r| == |bs|
  {
    seq(|bs|, k requires 0 <= k < |bs| => Known(bs[k]))
  }

  /** The bytes agree with the cells wherever those are known. */
  ghost predicate Agrees(cells: seq<Cell>, bs: Bytes) {
    && |cells| == |bs|
    && forall k :: 0 <= k < |cells| && cells[k].Known? ==> cells[k].b == bs[k]
  }

  /** One operation keeps the agreement with the plain sequence. */
  method Perform(b: Buffer, op: Op, ghost cells: seq<Cell>) returns (r: Buffer)
    requires b.Valid() && Agrees(cells, b.Contents()) && Apply(cells, op).Plain?
    modifies b, b.block
    ensures r.Valid() && Agrees(Apply(cells, op).cells, r.Contents())
    ensures if op == Copy then fresh(r) && (r.block == null || fresh(r.block))
            else r == b && (r.block == old(b.block) || fresh(r.block))
    ensures op == Copy ==> b.Valid() && b.Contents() == old(b.Contents())
  {
    r := b;
    match op
    case PushFront(n) => var _ := b.AppendFront(n);
    case PushBack(n) => var _ := b.AppendBack(n);
    case PopFront(n) => var _ := b.RemoveFront(n);
    case Copy => r := b.Duplicate();
  }

  /** Any legal history of appends, removals and duplications shows the bytes that the same
      history on a plain sequence shows, wherever growth happened to reallocate.  After a
      `Copy` the history goes on with the copy. */
  method Replay(first: Buffer, ops: seq<Op>) returns (b: Buffer)
    requires first.Valid() && ApplyAll(Cells(first.Contents()), ops).Plain?
    modifies first, first.block
    ensures b.Valid() && Agrees(ApplyAll(Cells(old(first.Contents())), ops).cells, b.Contents())
  {
    hide Apply, Agrees;
    b := first;
    ghost var start := Cells(first.Contents());
    assert ops[..|ops|] == ops;
    LegalPrefixes(start, ops, |ops|);
    AgreesInitially(first.Contents());
    for i := 0 to |ops|
      invariant b.Valid() && (b == first || fresh(b))
      invariant b.block == null || b.block == old(first.block) || fresh(b.block)
      invariant Agrees(ApplyAll(start, ops[..i]).cells, b.Contents())
    {
      assert ops[..i + 1][..i] == ops[..i];
      b := Perform(b, ops[i], ApplyAll(start, ops[..i]).cells);
    }
  }

  lemma AgreesInitially(bs: Bytes)
    ensures Agrees(Cells(bs), bs)
  {
  }

  /** Whatever is done to a duplicate, the original keeps its bytes. */
  method DuplicateIsIndependent(b: Buffer, ops: seq<Op>) returns (r: Buffer)
    requires b.Valid() && ApplyAll(Cells(b.Contents()), ops).Plain?
    ensures b.Valid() && b.Contents() == old(b.Contents())
    ensures r.Valid() && Agrees(ApplyAll(Cells(b.Contents()), ops).cells, r.Contents())
  {
    var copy := b.Duplicate();
    r := Replay(copy, ops);
  }

  /** And whatever is done to the original, a duplicate keeps the bytes it was made with. */
  method OriginalIsIndependent(b: Buffer, ops: seq<Op>) returns (copy: Buffer, r: Buffer)
    requires b.Valid() && ApplyAll(Cells(b.Contents()), ops).Plain?
    modifies b, b.block
    ensures fresh(copy) && copy.Valid() && copy.Contents() == old(b.Contents())
    ensures r.Valid() && Agrees(ApplyAll(Cells(old(b.Contents())), ops).cells, r.Contents())
  {
    copy := b.Duplicate();
    r := Replay(b, ops);
  }

  lemma {:induction false} LegalPrefixes(cells: seq<Cell>, ops: seq<Op>, n: nat)
    requires n <= |ops| && ApplyAll(cells, ops[..n]).Plain?
    ensures forall j :: 0 <= j <= n ==> ApplyAll(cells, ops[..j]).Plain?
  {
    if n > 0 {
      assert ops[..n][..n - 1] == ops[..n - 1];
      LegalPrefixes(cells, ops, n - 1);
    }
  }
}
