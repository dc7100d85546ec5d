/**
  Flow-stats records with their action lists: sections 5.2.3, 5.2.4 and 5.3.5 of the OpenFlow
  Switch Specification 1.0.0, and their conversion in src/lib/byteorder.c as functions on
  byte sequences.
*/
module FlowStats {
  import opened ByteFields

  // ------------------------------------------------------------------ layouts

  const ACTION_HEADER: nat := 8
  const FLOW_STATS_HEADER: nat := 88

  const VENDOR: nat := 0xffff

  predicate KnownType(t: nat) {
    t <= 11 || t == VENDOR
  }

  /** The size of the structure that the code reads and writes for an action: fixed per type,
      except that a vendor action has the size its length field says. */
  function StructSize(t: nat, len: nat): nat {
    if t == VENDOR then len
    else if t == 4 || t == 5 || t == 11 then 16
    else 8
  }

  predicate SizeFits(t: nat, len: nat) {
    len == StructSize(t, len) && len >= ACTION_HEADER
  }

  /** What the specification says: the size of the structure, and a multiple of 8. */
  predicate LengthFits(t: nat, len: nat) {
    SizeFits(t, len) && len % 8 == 0
  }

  function ActionFields(t: nat, len: nat): (fs: seq<Field>)
    requires KnownType(t) && SizeFits(t, len)
    ensures Size(fs) == len && Plain(fs)
    ensures |fs| >= 2 && fs[0] == Num(2) && fs[1] == Num(2)
  {
    var fs :=
      if t == 0 then [Num(2), Num(2), Num(2), Num(2)]                        // output
      else if t == 1 then [Num(2), Num(2), Num(2), Pad(2)]                   // vlan vid
      else if t == 2 then [Num(2), Num(2), Num(1), Pad(3)]                   // vlan pcp
      else if t == 3 then [Num(2), Num(2), Pad(4)]                           // strip vlan
      else if t == 4 || t == 5 then [Num(2), Num(2), Raw(6), Pad(6)]         // dl addr
      else if t == 6 || t == 7 then [Num(2), Num(2), Num(4)]                 // nw addr
      else if t == 8 then [Num(2), Num(2), Num(1), Pad(3)]                   // nw tos
      else if t == 9 || t == 10 then [Num(2), Num(2), Num(2), Pad(2)]        // tp port
      else if t == 11 then [Num(2), Num(2), Num(2), Pad(6), Num(4)]          // enqueue
      else [Num(2), Num(2), Num(4), Raw(len - 8)];                           // vendor
    SizeByParts(fs);
    fs
  }

  const FLOW_FIELDS: seq<Field> :=
    [Num(2), Num(1), Pad(1)]                          // length, table_id
    + ([Num(4), Num(2), Raw(6), Raw(6)]               // wildcards, in_port, dl_src, dl_dst
    + ([Num(2), Num(1), Pad(1), Num(2)]               // dl_vlan, dl_vlan_pcp, dl_type
    + ([Num(1), Num(1), Pad(2)]                       // nw_tos, nw_proto
    + ([Num(4), Num(4), Num(2), Num(2)]               // nw_src, nw_dst, tp_src, tp_dst
    + ([Num(4), Num(4), Num(2), Num(2), Num(2)]       // durations, priority, timeouts
    + [Pad(6), Num(8), Num(8), Num(8)])))))           // cookie, packet_count, byte_count

  lemma SizeAppend(a: seq<Field>, b: seq<Field>)
    ensures Size(a + b) == Size(a) + Size(b)
  {
    SizeSplit(a + b, |a|);
    assert (a + b)[..|a|] == a && (a + b)[|a|..] == b;
  }

  lemma FlowFieldsSize()
    ensures Size(FLOW_FIELDS) == FLOW_STATS_HEADER && Plain(FLOW_FIELDS)
  {
    hide Size;
    var g1: seq<Field> := [Num(2), Num(1), Pad(1)];
    var g2: seq<Field> := [Num(4), Num(2), Raw(6), Raw(6)];
    var g3: seq<Field> := [Num(2), Num(1), Pad(1), Num(2)];
    var g4: seq<Field> := [Num(1), Num(1), Pad(2)];
    var g5: seq<Field> := [Num(4), Num(4), Num(2), Num(2)];
    var g6: seq<Field> := [Num(4), Num(4), Num(2), Num(2), Num(2)];
    var g7: seq<Field> := [Pad(6), Num(8), Num(8), Num(8)];
    SizeByParts(g1); SizeByParts(g2); SizeByParts(g3); SizeByParts(g4);
    SizeByParts(g5); SizeByParts(g6); SizeByParts(g7);
    SizeAppend(g6, g7);
    SizeAppend(g5, g6 + g7);
    SizeAppend(g4, g5 + (g6 + g7));
    SizeAppend(g3, g4 + (g5 + (g6 + g7)));
    SizeAppend(g2, g3 + (g4 + (g5 + (g6 + g7))));
    SizeAppend(g1, g2 + (g3 + (g4 + (g5 + (g6 + g7)))));
  }

  // ------------------------------------------------------------- action lists

  function TypeOf(o: Order, bs: Bytes): nat
    requires |bs| >= ACTION_HEADER
  {
    Value(o, bs[..2])
  }

  function LenOf(o: Order, bs: Bytes): nat
    requires |bs| >= ACTION_HEADER
  {
    Value(o, bs[2..4])
  }

  /** The next action of the list is complete and of a known type and fitting length. */
  predicate GoodHead(o: Order, bs: Bytes) {
    && |bs| >= ACTION_HEADER
    && KnownType(TypeOf(o, bs))
    && LengthFits(TypeOf(o, bs), LenOf(o, bs))
    && LenOf(o, bs) <= |bs|
  }

  /** The lengths add up exactly. */
  predicate WellFormed(o: Order, bs: Bytes)
    decreases |bs|
  {
    bs == [] || (GoodHead(o, bs) && WellFormed(o, bs[LenOf(o, bs)..]))
  }

  /** One action converted on host `h`; `o` is the order the source bytes are in. */
  function ConvAction(h: Order, o: Order, bs: Bytes): (r: Bytes)
    requires GoodHead(o, bs)
    ensures |r| == LenOf(o, bs)
  {
    var n := LenOf(o, bs);
    Conv(h, ActionFields(TypeOf(o, bs), n), bs[..n], bs[..n])
  }

  function ConvActions(h: Order, o: Order, bs: Bytes): (r: Bytes)
    requires WellFormed(o, bs)
    ensures |r| == |bs|
    decreases |bs|
  {
    if bs == [] then [] else ConvAction(h, o, bs) + ConvActions(h, o, bs[LenOf(o, bs)..])
  }

  function ZeroActions(o: Order, bs: Bytes): (r: Bytes)
    requires WellFormed(o, bs)
    ensures |r| == |bs|
    decreases |bs|
  {
    if bs == [] then []
    else
      var n := LenOf(o, bs);
      ZeroPadding(ActionFields(TypeOf(o, bs), n), bs[..n]) + ZeroActions(o, bs[n..])
  }

  lemma SliceFirst(a: Bytes, b: Bytes, i: nat, j: nat)
    requires i <= j <= |a|
    ensures (a + b)[i..j] == a[i..j]
  {
  }

  /** Flipping the two leading numbers keeps type and length, read in the other order. */
  lemma ConvKeepsHead(h: Order, o: Order, o': Order, bs: Bytes, rest: Bytes)
    requires GoodHead(o, bs) && Opposite(h, o, o')
    ensures var r := ConvAction(h, o, bs) + rest;
      TypeOf(o', r) == TypeOf(o, bs) && LenOf(o', r) == LenOf(o, bs)
  {
    var n := LenOf(o, bs);
    var fs := ActionFields(TypeOf(o, bs), n);
    var src := bs[..n];
    var c := ConvAction(h, o, bs);
    ConvLeadingNumbers(h, fs, src, src);
    assert src[..2] == bs[..2] && src[2..4] == bs[2..4];
    FlipChangesOrder(h, bs[..2]);
    FlipChangesOrder(h, bs[2..4]);
    SliceFirst(c, rest, 0, 2);
    SliceFirst(c, rest, 2, 4);
  }

  /** The converted list has the same boundaries, and converting back gives the original
      list with its padding zeroed. */
  lemma {:induction false} ActionsThereAndBack(h: Order, o: Order, o': Order, bs: Bytes)
    requires WellFormed(o, bs) && Opposite(h, o, o')
    ensures WellFormed(o', ConvActions(h, o, bs))
    ensures ConvActions(h, o', ConvActions(h, o, bs)) == ZeroActions(o, bs)
    decreases |bs|
  {
    if bs != [] {
      var n := LenOf(o, bs);
      var fs := ActionFields(TypeOf(o, bs), n);
      var c := ConvAction(h, o, bs);
      var rest := ConvActions(h, o, bs[n..]);
      ActionsThereAndBack(h, o, o', bs[n..]);
      ConvKeepsHead(h, o, o', bs, rest);
      assert (c + rest)[n..] == rest && (c + rest)[..n] == c;
      ConvTwice(h, fs, bs[..n], c, bs[..n]);
    }
  }

  // ------------------------------------------------------------- the walk as it is

  /** The action at the head can be converted inside the record: its structure and the length it
      claims lie within it, and the walk moves on. */
  predicate CanStep(o: Order, bs: Bytes) {
    && |bs| >= ACTION_HEADER
    && KnownType(TypeOf(o, bs))
    && ACTION_HEADER <= StructSize(TypeOf(o, bs), LenOf(o, bs)) <= |bs|
    && 0 < LenOf(o, bs) <= |bs|
  }

  /** `Died` at an undefined type; `Strayed` where the walk leaves the record or stands still. */
  datatype Walked = Died | Strayed | Written(bytes: Bytes)

  function Prepend(front: Bytes, w: Walked): Walked {
    match w
    case Written(bs) => Written(front + bs)
    case _ => w
  }

  /** The structure of the action at the head, converted. */
  function ConvStruct(h: Order, o: Order, src: Bytes): (r: Bytes)
    requires CanStep(o, src)
    ensures ACTION_HEADER <= |r| == StructSize(TypeOf(o, src), LenOf(o, src)) <= |src|
  {
    var t := TypeOf(o, src);
    var n := StructSize(t, LenOf(o, src));
    Conv(h, ActionFields(t, n), src[..n], src[..n])
  }

  /** What `dst` holds after the structure at the head was written over it. */
  function Overwritten(h: Order, o: Order, dst: Bytes, src: Bytes): (r: Bytes)
    requires CanStep(o, src) && |dst| == |src|
    ensures |r| == |dst|
  {
    var c := ConvStruct(h, o, src);
    c + dst[|c|..]
  }

  /** The cursor loop of ntoh_flow_stats and hton_flow_stats over any bytes: structures are
      written one after the other, the cursor moves by what the length fields say, and a rest
      shorter than a header keeps what `dst` held. */
  function Walk(h: Order, o: Order, dst: Bytes, src: Bytes): (w: Walked)
    requires |dst| == |src|
    ensures w.Written? ==> |w.bytes| == |src|
    decreases |src|
  {
    if |src| < ACTION_HEADER then Written(dst)
    else if !KnownType(TypeOf(o, src)) then Died
    else if !CanStep(o, src) then Strayed
    else
      var n := LenOf(o, src);
      var d := Overwritten(h, o, dst, src);
      Prepend(d[..n], Walk(h, o, d[n..], src[n..]))
  }

  /** On a well-formed list the walk converts every action and ends at the end, whatever the
      destination held before. */
  lemma {:induction false} WalkWellFormed(h: Order, o: Order, dst: Bytes, src: Bytes)
    requires |dst| == |src| && WellFormed(o, src)
    ensures Walk(h, o, dst, src) == Written(ConvActions(h, o, src))
    decreases |src|
  {
    hide Value, ActionFields, Conv, TypeOf, LenOf;
    if src == [] {
      assert dst == [];
    } else {
      var n := LenOf(o, src);
      var d := Overwritten(h, o, dst, src);
      assert d[..n] == ConvAction(h, o, src);
      WalkWellFormed(h, o, d[n..], src[n..]);
    }
  }
}
