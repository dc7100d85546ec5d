/**
  Packet queues with their property lists: section 5.2.2 of the OpenFlow Switch Specification
  1.0.0, and their conversion in src/lib/byteorder.c.  Property padding is not written by the
  source, so the destination keeps whatever it held there.
*/
module PacketQueue {
  import opened ByteFields

  const PROP_HEADER: nat := 8
  const QUEUE_HEADER: nat := 8

  const QUEUE_FIELDS: seq<Field> := [Num(4), Num(2), Pad(2)]   // queue_id, len

  function PropLen(kind: nat): nat {
    if kind == 0 then 8 else 16
  }

  /** How much of a property the code reads and writes: type and length, and for a minimum rate
      the rate behind the header. */
  function PropCore(kind: nat): nat {
    if kind == 0 then 4 else 10
  }

  /** A property: nothing but its header, or a minimum rate. */
  function PropFields(kind: nat, len: nat): (fs: seq<Field>)
    requires PropCore(kind) <= len
    ensures |fs| >= 2 && fs[0] == Num(2) && fs[1] == Num(2)
    ensures Size(fs) == len
  {
    var fs := if kind == 0 then [Num(2), Num(2), Keep(len - 4)] else [Num(2), Num(2), Keep(4), Num(2), Keep(len - 10)];
    SizeByParts(fs);
    fs
  }

  function KindOf(o: Order, bs: Bytes): nat
    requires |bs| >= PROP_HEADER
  {
    Value(o, bs[..2])
  }

  function LenOf(o: Order, bs: Bytes): nat
    requires |bs| >= PROP_HEADER
  {
    Value(o, bs[2..4])
  }

  /** The property at the head can be converted inside the record, and the walk moves on. */
  predicate CanStep(o: Order, bs: Bytes) {
    && |bs| >= PROP_HEADER
    && KindOf(o, bs) <= 1
    && PropCore(KindOf(o, bs)) <= LenOf(o, bs) <= |bs|
  }

  /** As the specification has it: a header, or a header and a minimum rate. */
  predicate GoodProp(o: Order, bs: Bytes) {
    CanStep(o, bs) && LenOf(o, bs) == PropLen(KindOf(o, bs))
  }

  predicate WellFormedProps(o: Order, bs: Bytes)
    decreases |bs|
  {
    bs == [] || (GoodProp(o, bs) && WellFormedProps(o, bs[LenOf(o, bs)..]))
  }

  function ConvProp(h: Order, o: Order, dst: Bytes, src: Bytes): (r: Bytes)
    requires CanStep(o, src) && |dst| == |src|
    ensures |r| == LenOf(o, src)
  {
    var n := LenOf(o, src);
    Conv(h, PropFields(KindOf(o, src), n), dst[..n], src[..n])
  }

  /** The length field is written in the other order. */
  lemma PropLengthFlipped(h: Order, o: Order, dst: Bytes, src: Bytes)
    requires CanStep(o, src) && |dst| == |src|
    ensures ConvProp(h, o, dst, src)[2..4] == Flip(h, src[2..4])
  {
    hide PropFields, Conv, Value;
    var n := LenOf(o, src);
    ConvLeadingNumbers(h, PropFields(KindOf(o, src), n), dst[..n], src[..n]);
    assert src[..n][2..4] == src[2..4];
  }

  function ConvProps(h: Order, o: Order, dst: Bytes, src: Bytes): (r: Bytes)
    requires WellFormedProps(o, src) && |dst| == |src|
    ensures |r| == |src|
    decreases |src|
  {
    if src == [] then []
    else
      var n := LenOf(o, src);
      ConvProp(h, o, dst, src) + ConvProps(h, o, dst[n..], src[n..])
  }

  // ------------------------------------------------------------------ meaning

  datatype Property = NoProperty | MinRate(rate: nat)

  function DecodeProp(o: Order, bs: Bytes): Property
    requires CanStep(o, bs)
  {
    var kind := KindOf(o, bs);
    var vs := Values(o, PropFields(kind, LenOf(o, bs)), bs[..LenOf(o, bs)]);
    if kind == 0 || |vs| < 3 || !vs[2].N? then NoProperty else MinRate(vs[2].n)
  }

  function DecodeProps(o: Order, bs: Bytes): seq<Property>
    requires WellFormedProps(o, bs)
    decreases |bs|
  {
    if bs == [] then [] else [DecodeProp(o, bs)] + DecodeProps(o, bs[LenOf(o, bs)..])
  }

  lemma ConvPropMeaning(h: Order, o: Order, o': Order, dst: Bytes, src: Bytes, rest: Bytes)
    requires GoodProp(o, src) && |dst| == |src| && Opposite(h, o, o')
    ensures var r := ConvProp(h, o, dst, src) + rest;
      && GoodProp(o', r) && LenOf(o', r) == LenOf(o, src)
      && KindOf(o', r) == KindOf(o, src) && DecodeProp(o', r) == DecodeProp(o, src)
  {
    var n := LenOf(o, src);
    var fs := PropFields(KindOf(o, src), n);
    var c := ConvProp(h, o, dst, src);
    ConvLeadingNumbers(h, fs, dst[..n], src[..n]);
    assert src[..n][..2] == src[..2] && src[..n][2..4] == src[2..4];
    assert (c + rest)[..2] == c[..2] && (c + rest)[2..4] == c[2..4];
    FlipChangesOrder(h, src[..2]);
    FlipChangesOrder(h, src[2..4]);
    ConvKeepsValues(h, fs, dst[..n], src[..n]);
    assert (c + rest)[..n] == c;
  }

  /** One field and the fields behind it. */
  lemma FieldFirst(h: Order, o: Order, f: Field, fs: seq<Field>, all: seq<Field>, dst: Bytes, src: Bytes)
    requires all == [f] + fs && |dst| == |src| == f.width + Size(fs)
    ensures Size(all) == |src|
    ensures var w := f.width;
      && Conv(h, all, dst, src) == ConvField(h, f, dst[..w], src[..w]) + Conv(h, fs, dst[w..], src[w..])
      && Values(o, all, src)
         == (match f case Num(_) => [N(Value(o, src[..w]))] case Raw(_) => [R(src[..w])] case _ => [])
            + Values(o, fs, src[w..])
  {
    hide Value, Flip;
    assert all[1..] == fs;
  }

  lemma LastField(h: Order, o: Order, f: Field, dst: Bytes, src: Bytes)
    requires |dst| == |src| == f.width
    ensures Size([f]) == f.width
    ensures Conv(h, [f], dst, src) == ConvField(h, f, dst, src)
    ensures f.Keep? ==> Values(o, [f], src) == []
  {
    hide Value, Flip;
    FieldFirst(h, o, f, [], [f], dst, src);
    assert dst[..f.width] == dst && src[..f.width] == src && Conv(h, [], [], []) == [];
    assert Values(o, [], []) == [];
  }

  /** A property without a rate, byte for byte. */
  lemma PlainLayout(h: Order, o: Order, dst: Bytes, src: Bytes)
    requires |dst| == |src| >= 4
    ensures Size(PropFields(0, |src|)) == |src|
    ensures Conv(h, PropFields(0, |src|), dst, src) == Flip(h, src[..2]) + (Flip(h, src[2..4]) + dst[4..])
    ensures Values(o, PropFields(0, |src|), src) == [N(Value(o, src[..2]))] + [N(Value(o, src[2..4]))]
  {
    hide Value, Flip, Conv, Values, Size;
    var keep := Keep(|src| - 4);
    var d, s := dst[2..], src[2..];
    LastField(h, o, keep, dst[4..], src[4..]);
    assert d[2..] == dst[4..] && s[2..] == src[4..] && s[..2] == src[2..4];
    FieldFirst(h, o, Num(2), [keep], [Num(2), keep], d, s);
    FieldFirst(h, o, Num(2), [Num(2), keep], [Num(2), Num(2), keep], dst, src);
  }

  lemma RateLayout(h: Order, o: Order, dst: Bytes, src: Bytes)
    requires |dst| == |src| >= 6
    ensures var fs := [Keep(4), Num(2), Keep(|src| - 6)];
      && Size(fs) == |src|
      && Conv(h, fs, dst, src) == dst[..4] + (Flip(h, src[4..6]) + dst[6..])
      && Values(o, fs, src) == [N(Value(o, src[4..6]))]
  {
    hide Value, Flip, Conv, Values, Size;
    var keep := Keep(|src| - 6);
    var d, s := dst[4..], src[4..];
    LastField(h, o, keep, dst[6..], src[6..]);
    assert d[2..] == dst[6..] && s[2..] == src[6..] && s[..2] == src[4..6];
    FieldFirst(h, o, Num(2), [keep], [Num(2), keep], d, s);
    FieldFirst(h, o, Keep(4), [Num(2), keep], [Keep(4), Num(2), keep], dst, src);
  }

  lemma BehindHeader(bs: Bytes)
    requires |bs| >= 10
    ensures bs[4..][..4] == bs[4..8] && bs[4..][4..6] == bs[8..10] && bs[4..][6..] == bs[10..]
  {
    assert |bs[4..][4..6]| == 2 && bs[4..][4..6][0] == bs[8] && bs[4..][4..6][1] == bs[9];
  }

  /** A minimum-rate property, byte for byte. */
  lemma MinRateLayout(h: Order, o: Order, dst: Bytes, src: Bytes)
    requires |dst| == |src| >= 10
    ensures Size(PropFields(1, |src|)) == |src|
    ensures Conv(h, PropFields(1, |src|), dst, src)
         == Flip(h, src[..2]) + (Flip(h, src[2..4]) + (dst[4..8] + (Flip(h, src[8..10]) + dst[10..])))
    ensures Values(o, PropFields(1, |src|), src)
         == [N(Value(o, src[..2]))] + ([N(Value(o, src[2..4]))] + [N(Value(o, src[8..10]))])
  {
    hide Value, Flip, Conv, Values, Size;
    var fs := [Keep(4), Num(2), Keep(|src| - 10)];
    var d, s := dst[2..], src[2..];
    RateLayout(h, o, dst[4..], src[4..]);
    assert d[2..] == dst[4..] && s[2..] == src[4..] && s[..2] == src[2..4];
    BehindHeader(dst);
    BehindHeader(src);
    FieldFirst(h, o, Num(2), fs, [Num(2)] + fs, d, s);
    FieldFirst(h, o, Num(2), [Num(2)] + fs, [Num(2)] + ([Num(2)] + fs), dst, src);
    assert PropFields(1, |src|) == [Num(2)] + ([Num(2)] + fs);
  }

  lemma Head(bs: Bytes, n: nat)
    requires 4 <= n <= |bs|
    ensures bs[..n][..2] == bs[..2] && bs[..n][2..4] == bs[2..4] && bs[..n][4..] == bs[4..n]
    ensures n >= 10 ==> bs[..n][4..8] == bs[4..8] && bs[..n][8..10] == bs[8..10] && bs[..n][10..] == bs[10..n]
  {
  }

  /** What a property means and what conversion makes of it: kind, length and rate stand at bytes
      0, 2 and 8, are turned around there, and all other bytes are those of the destination. */
  lemma PropByPosition(h: Order, o: Order, dst: Bytes, src: Bytes)
    requires CanStep(o, src) && |dst| == |src|
    ensures var n, r := LenOf(o, src), ConvProp(h, o, dst, src);
      if KindOf(o, src) == 0 then
        && DecodeProp(o, src) == NoProperty
        && r == Flip(h, src[..2]) + (Flip(h, src[2..4]) + dst[4..n])
      else
        && DecodeProp(o, src) == MinRate(Value(o, src[8..10]))
        && r == Flip(h, src[..2]) + (Flip(h, src[2..4]) + (dst[4..8] + (Flip(h, src[8..10]) + dst[10..n])))
  {
    hide Value, Flip, Conv, Values, PropFields;
    var n := LenOf(o, src);
    Head(src, n);
    Head(dst, n);
    if KindOf(o, src) == 0 {
      PlainLayout(h, o, dst[..n], src[..n]);
    } else {
      MinRateLayout(h, o, dst[..n], src[..n]);
    }
  }

  lemma AtEight(a: Bytes, b: Bytes, c: Bytes, rate: Bytes, rest: Bytes)
    requires |a| == 2 && |b| == 2 && |c| == 4 && |rate| == 2
    ensures (a + (b + (c + (rate + rest))))[8..10] == rate
  {
    var all := a + (b + (c + (rate + rest)));
    assert all[8] == rate[0] && all[9] == rate[1];
  }

  /** The rate that was there is the rate that is read on the other side. */
  lemma RateIsKept(h: Order, o: Order, o': Order, dst: Bytes, src: Bytes)
    requires CanStep(o, src) && KindOf(o, src) == 1 && |dst| == |src| && Opposite(h, o, o')
    ensures |ConvProp(h, o, dst, src)| >= 10
    ensures Value(o', ConvProp(h, o, dst, src)[8..10]) == Value(o, src[8..10])
  {
    hide Value, Flip, Conv, PropFields, DecodeProp;
    PropByPosition(h, o, dst, src);
    FlipChangesOrder(h, src[8..10]);
    var n := LenOf(o, src);
    AtEight(Flip(h, src[..2]), Flip(h, src[2..4]), dst[4..8], Flip(h, src[8..10]), dst[10..n]);
  }

  /** Conversion keeps kind, length and rate of every property. */
  lemma {:induction false} ConvPropsMeaning(h: Order, o: Order, o': Order, dst: Bytes, src: Bytes)
    requires WellFormedProps(o, src) && |dst| == |src| && Opposite(h, o, o')
    ensures WellFormedProps(o', ConvProps(h, o, dst, src))
    ensures DecodeProps(o', ConvProps(h, o, dst, src)) == DecodeProps(o, src)
    decreases |src|
  {
    hide PropFields, Conv, Value, ConvProp, DecodeProp;
    if src != [] {
      var n := LenOf(o, src);
      var c, rest := ConvProp(h, o, dst, src), ConvProps(h, o, dst[n..], src[n..]);
      ConvPropMeaning(h, o, o', dst, src, rest);
      ConvPropsMeaning(h, o, o', dst[n..], src[n..]);
      assert (c + rest)[n..] == rest;
    }
  }

  // ------------------------------------------------------------- whole queues

  predicate GoodQueue(o: Order, bs: Bytes) {
    && |bs| >= QUEUE_HEADER
    && Value(o, bs[4..6]) == |bs|
    && WellFormedProps(o, bs[QUEUE_HEADER..])
  }

  datatype Queue = Queue(id: nat, length: nat, properties: seq<Property>)

  function DecodeQueue(o: Order, bs: Bytes): Queue
    requires GoodQueue(o, bs)
  {
    Queue(Value(o, bs[..4]), Value(o, bs[4..6]), DecodeProps(o, bs[QUEUE_HEADER..]))
  }

  function ConvQueueHeader(h: Order, bs: Bytes): (r: Bytes)
    requires |bs| == QUEUE_HEADER
    ensures |r| == |bs|
  {
    assert Size([Num(2), Pad(2)]) == 4;
    Conv(h, QUEUE_FIELDS, bs, bs)
  }

  function ConvQueue(h: Order, o: Order, dst: Bytes, src: Bytes): (r: Bytes)
    requires GoodQueue(o, src) && |dst| == |src|
    ensures |r| == |src|
  {
    ConvQueueHeader(h, src[..QUEUE_HEADER]) + ConvProps(h, o, dst[QUEUE_HEADER..], src[QUEUE_HEADER..])
  }

  lemma QueueHeaderBytes(h: Order, bs: Bytes)
    requires |bs| == QUEUE_HEADER
    ensures ConvQueueHeader(h, bs) == Flip(h, bs[..4]) + Flip(h, bs[4..6]) + [0, 0]
  {
    var fs: seq<Field> := [Num(2), Pad(2)];
    assert Size(fs) == 4 && QUEUE_FIELDS[1..] == fs && fs[1..] == [Pad(2)];
    var b := bs[4..];
    assert b[..2] == bs[4..6];
    assert Conv(h, [Pad(2)], b[2..], b[2..]) == [0, 0];
    assert Conv(h, fs, b, b) == Flip(h, b[..2]) + [0, 0];
  }

  /** Whatever the destination held before, the converted queue means the same, read in the
      other order.  So there and back, through any buffers, loses nothing. */
  lemma ConvQueueMeaning(h: Order, o: Order, o': Order, dst: Bytes, src: Bytes)
    requires GoodQueue(o, src) && |dst| == |src| && Opposite(h, o, o')
    ensures GoodQueue(o', ConvQueue(h, o, dst, src))
    ensures DecodeQueue(o', ConvQueue(h, o, dst, src)) == DecodeQueue(o, src)
  {
    hide Value, ConvProps, DecodeProps, WellFormedProps, ConvQueueHeader;
    var head := src[..QUEUE_HEADER];
    var r := ConvQueue(h, o, dst, src);
    QueueHeaderBytes(h, head);
    assert head[..4] == src[..4] && head[4..6] == src[4..6];
    assert r[..4] == Flip(h, src[..4]) && r[4..6] == Flip(h, src[4..6]);
    FlipChangesOrder(h, src[..4]);
    FlipChangesOrder(h, src[4..6]);
    assert r[QUEUE_HEADER..] == ConvProps(h, o, dst[QUEUE_HEADER..], src[QUEUE_HEADER..]);
    ConvPropsMeaning(h, o, o', dst[QUEUE_HEADER..], src[QUEUE_HEADER..]);
  }

  /** There and back, in either direction, through any buffers. */
  lemma QueueThereAndBack(h: Order, o: Order, o': Order, src: Bytes, d1: Bytes, d2: Bytes)
    requires GoodQueue(o, src) && |d1| == |d2| == |src| && Opposite(h, o, o')
    ensures var there := ConvQueue(h, o, d1, src);
      && GoodQueue(o', there)
      && GoodQueue(o, ConvQueue(h, o', d2, there))
      && DecodeQueue(o, ConvQueue(h, o', d2, there)) == DecodeQueue(o, src)
  {
    ConvQueueMeaning(h, o, o', d1, src);
    ConvQueueMeaning(h, o', o, d2, ConvQueue(h, o, d1, src));
  }

  // --------------------------------------------------------- the walk by budget

  datatype Result = Left | Written(bytes: Bytes)   // `Left`: the walk leaves the record

  /** The loop of ntoh_packet_queue and hton_packet_queue: convert properties as long as the
      16-bit remaining length admits a header.  What is not reached keeps the old bytes. */
  function WalkProps(h: Order, o: Order, dst: Bytes, src: Bytes, budget: nat): (r: Result)
    requires |dst| == |src|
    ensures r.Written? ==> |r.bytes| == |src|
    decreases |src|
  {
    if budget < PROP_HEADER then Written(dst)
    else if !CanStep(o, src) then Left
    else
      var n := LenOf(o, src);
      var r := WalkProps(h, o, dst[n..], src[n..], U16(budget - n));
      if r.Left? then Left else Written(ConvProp(h, o, dst, src) + r.bytes)
  }

  /** With the true length as budget the walk converts everything. */
  lemma {:induction false} ExactBudget(h: Order, o: Order, dst: Bytes, src: Bytes, budget: nat)
    requires |dst| == |src| && WellFormedProps(o, src)
    requires |src| <= budget < |src| + PROP_HEADER && budget < 0x1_0000
    ensures WalkProps(h, o, dst, src, budget) == Written(ConvProps(h, o, dst, src))
    decreases |src|
  {
    hide Value, PropFields, Conv, ConvProp;
    if src == [] {
      assert dst == [];
    } else {
      var n := LenOf(o, src);
      ExactBudget(h, o, dst[n..], src[n..], budget - n);
    }
  }

  lemma {:induction false} PropsAreEights(o: Order, src: Bytes)
    requires WellFormedProps(o, src)
    ensures |src| % 8 == 0
    decreases |src|
  {
    hide Value;
    if src != [] { PropsAreEights(o, src[LenOf(o, src)..]); }
  }

  /** With too large a budget the walk leaves the record. */
  lemma {:induction false} LargeBudget(h: Order, o: Order, dst: Bytes, src: Bytes, budget: nat)
    requires |dst| == |src| && WellFormedProps(o, src) && |src| + PROP_HEADER <= budget < 0x1_0000
    ensures WalkProps(h, o, dst, src, budget) == Left
    decreases |src|
  {
    if src != [] {
      var n := LenOf(o, src);
      LargeBudget(h, o, dst[n..], src[n..], budget - n);
    }
  }

  /** A property on a little-endian host differs from its converted form: its length is 8 or
      16, so the two bytes of the length field differ. */
  lemma UnconvertedDiffers(src: Bytes, dst: Bytes)
    requires GoodProp(Little, src) && |dst| == |src|
    ensures ConvProp(Little, Little, dst, src)[2..4] != src[2..4]
  {
    PropLengthFlipped(Little, Little, dst, src);
    var l := src[2..4];
    Value16(Little, l);
    assert Flip(Little, l)[0] == l[1];
  }

  /** With too small a budget, on a little-endian host and in place, some property is left
      unconverted or the counter wraps and the walk leaves the record. */
  lemma {:induction false} SmallBudget(src: Bytes, budget: nat)
    requires WellFormedProps(Little, src) && budget < |src| < 0x1_0000 - PROP_HEADER
    ensures WalkProps(Little, Little, src, src, budget) != Written(ConvProps(Little, Little, src, src))
    decreases |src|
  {
    hide Value, PropFields, Conv, ConvProp;
    var n := LenOf(Little, src);
    var c, rest := ConvProp(Little, Little, src, src), ConvProps(Little, Little, src[n..], src[n..]);
    assert ConvProps(Little, Little, src, src) == c + rest;
    if budget < PROP_HEADER {
      UnconvertedDiffers(src, src);
      assert (c + rest)[2..4] == c[2..4];
    } else if budget < n {
      LargeBudget(Little, Little, src[n..], src[n..], U16(budget - n));
    } else {
      SmallBudget(src[n..], budget - n);
      var r := WalkProps(Little, Little, src[n..], src[n..], budget - n);
      if r.Written? {
        assert (c + r.bytes)[n..] == r.bytes && (c + rest)[n..] == rest;
      }
    }
  }

  // -------------------------------------------------- converting in place to wire

  /** The remaining length hton_packet_queue starts with.  It reads the length field of the
      source after the one of the destination was written, which matters when they are one. */
  function HtonBudget(h: Order, len: Bytes, inPlace: bool): nat
    requires |len| == 2
  {
    U16(Value(h, if inPlace then Flip(h, len) else len) - QUEUE_HEADER)
  }

  /** In place, hton_packet_queue produces the converted queue exactly when the host is
      big-endian or both bytes of the length are equal. */
  lemma HtonInPlaceIff(h: Order, src: Bytes)
    requires GoodQueue(h, src)
    ensures var props := src[QUEUE_HEADER..];
      WalkProps(h, h, props, props, HtonBudget(h, src[4..6], true)) == Written(ConvProps(h, h, props, props))
      <==> h == Big || src[4] == src[5]
  {
    hide Value, WalkProps, ConvProps, WellFormedProps;
    var props := src[QUEUE_HEADER..];
    var l := src[4..6];
    Value16(h, l);
    Value16(h, Flip(h, l));
    PropsAreEights(h, props);
    var budget := HtonBudget(h, l, true);
    if h == Big || l[0] == l[1] {
      assert Flip(h, l) == l;
      ExactBudget(h, h, props, props, budget);
    } else {
      assert Flip(h, l)[0] == l[1] && Flip(h, l)[1] == l[0];
      BudgetMisses(l[0], l[1], |props|, budget);
      if budget < |props| {
        SmallBudget(props, budget);
      } else {
        LargeBudget(h, h, props, props, budget);
      }
    }
  }

  lemma BudgetMisses(lo: Byte, hi: Byte, n: nat, budget: nat)
    requires lo != hi && n % 8 == 0 && 256 * (hi as int) + lo as int == n + QUEUE_HEADER
    requires budget == U16(256 * (lo as int) + hi as int - QUEUE_HEADER)
    ensures budget < n || n + PROP_HEADER <= budget
  {
  }

  /** The shortest queue of all: no properties, length 8.  In place on a little-endian host
      the walk starts with 2040 bytes to go and leaves the record at once. */
  lemma HtonInPlaceFails()
    ensures var q: Bytes := [1, 0, 0, 0, 8, 0, 0, 0];
      var props := q[QUEUE_HEADER..];
      GoodQueue(Little, q) && WalkProps(Little, Little, props, props, HtonBudget(Little, q[4..6], true)) == Left
  {
    var q: Bytes := [1, 0, 0, 0, 8, 0, 0, 0];
    var l := q[4..6];
    assert l == [8, 0];
    Value16(Little, l);
    Value16(Little, Flip(Little, l));
  }
}
