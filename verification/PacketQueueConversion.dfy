/**
  ntoh_packet_queue and hton_packet_queue of src/lib/byteorder.c on byte arrays.
*/
module PacketQueueConversion {
  import opened ByteFields
  import opened PacketQueue
  import opened ByteOrder

  lemma Prefix(a: Bytes, v: Bytes, at: nat, end: nat, len: nat)
    requires at + len <= end <= |a| && v == a[at..end]
    ensures v[..len] == a[at..at + len]
  {
  }

  /** ntoh_queue_property and hton_queue_property at offset `at` of both records. */
  method ConvertProperty(h: Order, o: Order, dst: array<Byte>, pq: array<Byte>, at: nat, ghost into: Bytes,
        ghost from: Bytes)
    requires dst != pq && at <= pq.Length <= dst.Length
    requires into == dst[at..pq.Length] && from == pq[at..] && CanStep(o, from)
    modifies dst
    ensures dst[..at] == old(dst[..at])
    ensures dst[at..at + LenOf(o, from)] == ConvProp(h, o, into, from)
    ensures dst[at + LenOf(o, from)..] == old(dst[at + LenOf(o, from)..])
  {
    hide Value, PropFields, Conv, Size;
    assert from[..2] == pq[at..at + 2] && from[2..4] == pq[at + 2..at + 4];
    var kind := ReadU16(o, pq, at);
    var len := ReadU16(o, pq, at + 2);
    assert at + len <= pq.Length;
    Prefix(dst[..], into, at, pq.Length, len);
    Prefix(pq[..], from, at, pq.Length, len);
    WriteBytes(dst, at, Conv(h, PropFields(kind, len), dst[at..at + len], pq[at..at + len]));
  }

  /** The length field of the property just converted: ntoh reads it from the destination, in
      host order; hton reads it from the private copy. */
  method NextPropertyLength(h: Order, o: Order, fromDst: bool, dst: array<Byte>, pq: array<Byte>, at: nat,
                            ghost into: Bytes, ghost from: Bytes)
    returns (len: nat)
    requires at <= pq.Length <= dst.Length && from == pq[at..] && |into| == |from| && CanStep(o, from)
    requires dst[at..at + LenOf(o, from)] == ConvProp(h, o, into, from)
    requires o == if fromDst then Big else h
    ensures len == LenOf(o, from)
  {
    hide Value, PropFields, Conv, Size, ConvProp;
    if fromDst {
      len := ReadU16(h, dst, at + 2);
      PropLengthFlipped(h, o, into, from);
      FlipChangesOrder(h, from[2..4]);
      ghost var c := ConvProp(h, o, into, from);
      assert c[2] == dst[at + 2] && c[3] == dst[at + 3];
      assert c[2..4] == dst[at + 2..at + 4];
    } else {
      len := ReadU16(h, pq, at + 2);
      assert from[2..4] == pq[at + 2..at + 4];
    }
  }

  /** What the loop is going to leave behind: what is written, then the walk over the rest. */
  ghost function QueueGoal(h: Order, o: Order, written: Bytes, into: Bytes, from: Bytes, budget: nat): Bytes
    requires |into| == |from| && WalkProps(h, o, into, from, budget).Written?
  {
    written + WalkProps(h, o, into, from, budget).bytes
  }

  lemma {:induction false} QueueGoalStep(h: Order, o: Order, written: Bytes, into: Bytes, from: Bytes, budget: nat,
        written': Bytes)
    requires |into| == |from| && WalkProps(h, o, into, from, budget).Written? && budget >= PROP_HEADER
    requires CanStep(o, from) ==> written' == written + ConvProp(h, o, into, from)
    ensures CanStep(o, from)
    ensures var n := LenOf(o, from);
      && WalkProps(h, o, into[n..], from[n..], U16(budget - n)).Written?
      && QueueGoal(h, o, written', into[n..], from[n..], U16(budget - n)) ==
            QueueGoal(h, o, written, into, from, budget)
  {
    hide Value, PropFields, Conv, ConvProp;
    var n := LenOf(o, from);
    var c, r := ConvProp(h, o, into, from), WalkProps(h, o, into[n..], from[n..], U16(budget - n));
    assert (written + c) + r.bytes == written + (c + r.bytes);
  }

  lemma WalkDone(h: Order, o: Order, into: Bytes, from: Bytes, budget: nat)
    requires |into| == |from| && budget < PROP_HEADER
    ensures WalkProps(h, o, into, from, budget) == Written(into)
  {
  }

  /** One round of the property loop. */
  method ConvertNextProperty(h: Order, o: Order, fromDst: bool, dst: array<Byte>, pq: array<Byte>, at: nat,
                             ghost into: Bytes, ghost from: Bytes, ghost budget: nat)
    returns (len: nat)
    requires dst != pq && at <= pq.Length <= dst.Length && into == dst[at..pq.Length] && from == pq[at..]
    requires budget >= PROP_HEADER && WalkProps(h, o, into, from, budget).Written?
    requires o == if fromDst then Big else h
    modifies dst
    ensures 0 < len <= |from|
    ensures dst[at + len..] == old(dst[at + len..])
    ensures WalkProps(h, o, into[len..], from[len..], U16(budget - len)).Written?
    ensures QueueGoal(h, o, dst[..at + len], into[len..], from[len..], U16(budget - len))
            == QueueGoal(h, o, old(dst[..at]), into, from, budget)
  {
    hide Value, PropFields, Conv, ConvProp, QueueGoal;
    ghost var written := dst[..at];
    assert CanStep(o, from);
    ConvertProperty(h, o, dst, pq, at, into, from);
    len := NextPropertyLength(h, o, fromDst, dst, pq, at, into, from);
    ghost var end := at + len;
    assert dst[..end] == written + ConvProp(h, o, into, from);
    QueueGoalStep(h, o, written, into, from, budget, dst[..end]);
  }

  lemma Shorter(before: Bytes, after: Bytes, len: nat, end: nat)
    requires len <= end <= |before| && after == before[len..]
    ensures after[..end - len] == before[..end][len..]
  {
  }

  /** The property loop on the private copy `pq`, with the given remaining length. */
  method ConvertProperties(h: Order, o: Order, fromDst: bool, dst: array<Byte>, pq: array<Byte>, budget: nat)
    requires dst != pq && QUEUE_HEADER <= pq.Length <= dst.Length && budget < 0x1_0000
    requires WalkProps(h, o, dst[QUEUE_HEADER..pq.Length], pq[QUEUE_HEADER..], budget).Written?
    requires o == if fromDst then Big else h
    modifies dst
    ensures dst[..pq.Length] == old(dst[..QUEUE_HEADER])
              + WalkProps(h, o, old(dst[QUEUE_HEADER..pq.Length]), pq[QUEUE_HEADER..], budget).bytes
    ensures dst[pq.Length..] == old(dst[pq.Length..])
  {
    hide Value, CanStep, ConvProp, LenOf, WalkProps;
    var at: nat := QUEUE_HEADER;
    var propertiesLength := budget;
    ghost var into, from := dst[QUEUE_HEADER..pq.Length], pq[QUEUE_HEADER..];
    ghost var goal := QueueGoal(h, o, dst[..QUEUE_HEADER], into, from, budget);
    while propertiesLength >= PROP_HEADER
      invariant at <= pq.Length && 0 <= propertiesLength < 0x1_0000
      invariant into == dst[at..pq.Length] && from == pq[at..]
      invariant WalkProps(h, o, into, from, propertiesLength).Written?
      invariant QueueGoal(h, o, dst[..at], into, from, propertiesLength) == goal
      invariant dst[pq.Length..] == old(dst[pq.Length..])
      decreases pq.Length - at
    {
      ghost var behind := dst[at..];
      var len := ConvertNextProperty(h, o, fromDst, dst, pq, at, into, from, propertiesLength);
      assert dst[at + len..] == behind[len..];
      assert dst[pq.Length..] == behind[pq.Length - at..];
      Shorter(behind, dst[at + len..], len, pq.Length - at);
      assert behind[..pq.Length - at] == into;
      assert dst[at + len..pq.Length] == dst[at + len..][..pq.Length - at - len];
      propertiesLength := U16(propertiesLength - len);
      into, from := into[len..], from[len..];
      at := at + len;
    }
    WalkDone(h, o, into, from, propertiesLength);
    assert dst[..pq.Length] == dst[..at] + into;
  }

  method WriteQueueHeader(h: Order, dst: array<Byte>, pq: array<Byte>)
    requires dst != pq && QUEUE_HEADER <= pq.Length <= dst.Length
    modifies dst
    ensures dst[..QUEUE_HEADER] == ConvQueueHeader(h, pq[..QUEUE_HEADER])
    ensures dst[QUEUE_HEADER..pq.Length] == old(dst[QUEUE_HEADER..pq.Length])
    ensures dst[pq.Length..] == old(dst[pq.Length..])
  {
    hide ConvQueueHeader;
    WriteBytes(dst, 0, ConvQueueHeader(h, pq[..QUEUE_HEADER]));
    SplitBehind(old(dst[..]), dst[..], QUEUE_HEADER, pq.Length);
    assert dst[..QUEUE_HEADER] == dst[0..QUEUE_HEADER];
  }

  /** ntoh_packet_queue: `dst` may be `src`. */
  method NtohPacketQueue(h: Order, dst: array<Byte>, src: array<Byte>)
    requires src.Length >= QUEUE_HEADER
    requires var size := Value(Big, src[4..6]);
      && QUEUE_HEADER <= size <= src.Length && size <= dst.Length
      && WalkProps(h, Big, dst[..][..size][QUEUE_HEADER..], src[..][..size][QUEUE_HEADER..],
            size - QUEUE_HEADER).Written?
    modifies dst
    ensures var size := old(Value(Big, src[4..6]));
      && dst[..size] == ConvQueueHeader(h, old(src[..])[..QUEUE_HEADER])
           + WalkProps(h, Big, old(dst[..])[..size][QUEUE_HEADER..], old(src[..])[..size][QUEUE_HEADER..],
                 size - QUEUE_HEADER).bytes
      && dst[size..] == old(dst[..])[size..]
  {
    hide WalkProps, Value, ConvQueueHeader;
    var length := ReadU16(Big, src, 4);
    var pq := PrivateCopy(src, 0, length);
    ghost var into, from := dst[..][..length], src[..][..length];
    assert dst[QUEUE_HEADER..length] == into[QUEUE_HEADER..];
    assert pq[QUEUE_HEADER..] == from[QUEUE_HEADER..] && pq[..QUEUE_HEADER] == src[..][..QUEUE_HEADER];
    WriteQueueHeader(h, dst, pq);
    ConvertProperties(h, Big, true, dst, pq, U16(length - QUEUE_HEADER));
  }

  /** On a well-formed queue that is the converted queue, so in place it means what it means in
      separate memory. */
  lemma NtohWellFormed(h: Order, dst: Bytes, src: Bytes)
    requires GoodQueue(Big, src) && |dst| == |src|
    ensures WalkProps(h, Big, dst[QUEUE_HEADER..], src[QUEUE_HEADER..], |src| - QUEUE_HEADER)
            == Written(ConvProps(h, Big, dst[QUEUE_HEADER..], src[QUEUE_HEADER..]))
  {
    Value16(Big, src[4..6]);
    ExactBudget(h, Big, dst[QUEUE_HEADER..], src[QUEUE_HEADER..], |src| - QUEUE_HEADER);
  }

  /** hton_packet_queue.  With `dst` and `src` separate, the whole queue is converted; when
      they are one, the loop starts from the length field that was already converted. */
  method HtonPacketQueue(h: Order, dst: array<Byte>, src: array<Byte>)
    requires src.Length >= QUEUE_HEADER
    requires var size := Value(h, src[4..6]);
      && QUEUE_HEADER <= size <= src.Length && size <= dst.Length
      && WalkProps(h, h, dst[..][..size][QUEUE_HEADER..], src[..][..size][QUEUE_HEADER..], HtonBudget(h, src[4..6],
            dst == src)).Written?
    modifies dst
    ensures var size := old(Value(h, src[4..6]));
      && dst[..size] == ConvQueueHeader(h, old(src[..])[..QUEUE_HEADER])
           + WalkProps(h, h, old(dst[..])[..size][QUEUE_HEADER..], old(src[..])[..size][QUEUE_HEADER..],
                       HtonBudget(h, old(src[4..6]), dst == src)).bytes
      && dst[size..] == old(dst[..])[size..]
  {
    hide WalkProps, Value, ConvQueueHeader;
    ghost var lenBytes := src[4..6];
    var length := ReadU16(h, src, 4);
    var pq := PrivateCopy(src, 0, length);
    ghost var into, from := dst[..][..length], src[..][..length];
    assert dst[QUEUE_HEADER..length] == into[QUEUE_HEADER..];
    assert pq[QUEUE_HEADER..] == from[QUEUE_HEADER..] && pq[..QUEUE_HEADER] == src[..][..QUEUE_HEADER];
    WriteQueueHeader(h, dst, pq);
    HeaderWritten(h, pq[..QUEUE_HEADER], dst[..QUEUE_HEADER], lenBytes);
    assert dst == src ==> src[4..6] == dst[..QUEUE_HEADER][4..6];
    var rest := ReadU16(h, src, 4);
    ConvertProperties(h, h, false, dst, pq, U16(rest - QUEUE_HEADER));
  }

  lemma HeaderWritten(h: Order, head: Bytes, written: Bytes, lenBytes: Bytes)
    requires |head| == QUEUE_HEADER && written == ConvQueueHeader(h, head) && lenBytes == head[4..6]
    ensures written[4..6] == Flip(h, lenBytes)
  {
    QueueHeaderBytes(h, head);
  }

  /** With separate buffers hton_packet_queue converts the whole queue. */
  lemma HtonSeparate(h: Order, dst: Bytes, src: Bytes)
    requires GoodQueue(h, src) && |dst| == |src|
    ensures WalkProps(h, h, dst[QUEUE_HEADER..], src[QUEUE_HEADER..], HtonBudget(h, src[4..6], false))
            == Written(ConvProps(h, h, dst[QUEUE_HEADER..], src[QUEUE_HEADER..]))
  {
    Value16(h, src[4..6]);
    ExactBudget(h, h, dst[QUEUE_HEADER..], src[QUEUE_HEADER..], HtonBudget(h, src[4..6], false));
  }
}
