/**
  Flow-stats records by byte position, as sections 5.2.3, 5.2.4 and 5.3.5 of the OpenFlow Switch
  Specification 1.0.0 lay them out: what stands where, and what conversion does to it.
*/
module FlowStatsLayout {
  import opened ByteFields
  import opened FlowStats
  import opened FlowStatsMeaning
  import opened FlowStatsRecords

  // -------------------------------------------------------- layouts piece by piece

  function ValField(o: Order, f: Field, bs: Bytes): seq<Val>
    requires |bs| == f.width
  {
    match f
    case Num(_) => [N(Value(o, bs))]
    case Raw(_) => [R(bs)]
    case _ => []
  }

  lemma SubTail(bs: Bytes, i: nat, a: nat, b: nat)
    requires i <= |bs| && a <= b <= |bs| - i
    ensures bs[i..][a..b] == bs[i + a..i + b] && bs[i..][b..] == bs[i + b..]
  {
    var x, y := bs[i..][a..b], bs[i + a..i + b];
    assert |x| == |y|;
    forall k | 0 <= k < |x| ensures x[k] == y[k] {}
  }

  lemma Layout1(h: Order, o: Order, a: Field, s: Bytes)
    requires |s| == a.width
    ensures Size([a]) == a.width
    ensures Conv(h, [a], s, s) == ConvField(h, a, s, s)
    ensures Values(o, [a], s) == ValField(o, a, s)
  {
    hide Value, Flip;
    assert s[..a.width] == s && s[a.width..] == [];
    assert Conv(h, [], [], []) == [] && Values(o, [], []) == [];
  }

  lemma LayoutMore(h: Order, o: Order, a: Field, fs: seq<Field>, all: seq<Field>, s: Bytes)
    requires all == [a] + fs && |s| == a.width + Size(fs)
    ensures Size(all) == |s|
    ensures Conv(h, all, s, s)
         == ConvField(h, a, s[..a.width], s[..a.width]) + Conv(h, fs, s[a.width..], s[a.width..])
    ensures Values(o, all, s) == ValField(o, a, s[..a.width]) + Values(o, fs, s[a.width..])
  {
    hide Value, Flip;
    assert all[1..] == fs;
  }

  lemma Layout2(h: Order, o: Order, a: Field, b: Field, s: Bytes)
    requires |s| == a.width + b.width
    ensures Size([a, b]) == |s|
    ensures var x, y := s[..a.width], s[a.width..];
      && Conv(h, [a, b], s, s) == ConvField(h, a, x, x) + ConvField(h, b, y, y)
      && Values(o, [a, b], s) == ValField(o, a, x) + ValField(o, b, y)
  {
    hide Conv, Values, Size, ConvField, ValField;
    Layout1(h, o, b, s[a.width..]);
    LayoutMore(h, o, a, [b], [a, b], s);
  }

  lemma Layout3(h: Order, o: Order, a: Field, b: Field, c: Field, s: Bytes)
    requires |s| == a.width + b.width + c.width
    ensures Size([a, b, c]) == |s|
    ensures var i, j := a.width, a.width + b.width;
      var x, y, z := s[..i], s[i..j], s[j..];
      && Conv(h, [a, b, c], s, s) == ConvField(h, a, x, x) + (ConvField(h, b, y, y) + ConvField(h, c, z, z))
      && Values(o, [a, b, c], s) == ValField(o, a, x) + (ValField(o, b, y) + ValField(o, c, z))
  {
    hide Conv, Values, Size, ConvField, ValField;
    var rest := s[a.width..];
    Layout2(h, o, b, c, rest);
    LayoutMore(h, o, a, [b, c], [a, b, c], s);
    assert rest[..b.width] == s[a.width..a.width + b.width] && rest[b.width..] == s[a.width + b.width..];
  }

  lemma Layout4(h: Order, o: Order, a: Field, b: Field, c: Field, d: Field, s: Bytes)
    requires |s| == a.width + b.width + c.width + d.width
    ensures Size([a, b, c, d]) == |s|
    ensures var i, j := a.width, a.width + b.width;
      var k := j + c.width;
      var w, x, y, z := s[..i], s[i..j], s[j..k], s[k..];
      && Conv(h, [a, b, c, d], s, s)
         == ConvField(h, a, w, w) + (ConvField(h, b, x, x) + (ConvField(h, c, y, y) + ConvField(h, d, z, z)))
      && Values(o, [a, b, c, d], s)
         == ValField(o, a, w) + (ValField(o, b, x) + (ValField(o, c, y) + ValField(o, d, z)))
  {
    hide Conv, Values, Size, ConvField, ValField;
    var i, rest := a.width, s[a.width..];
    var j, k := i + b.width, i + b.width + c.width;
    Layout3(h, o, b, c, d, rest);
    LayoutMore(h, o, a, [b, c, d], [a, b, c, d], s);
    SubTail(s, i, 0, j - i);
    SubTail(s, i, j - i, k - i);
  }

  lemma Layout5(h: Order, o: Order, a: Field, b: Field, c: Field, d: Field, e: Field, s: Bytes)
    requires |s| == a.width + b.width + c.width + d.width + e.width
    ensures Size([a, b, c, d, e]) == |s|
    ensures var i, j := a.width, a.width + b.width;
      var k := j + c.width;
      var l := k + d.width;
      var v, w, x, y, z := s[..i], s[i..j], s[j..k], s[k..l], s[l..];
      && Conv(h, [a, b, c, d, e], s, s)
         == ConvField(h, a, v, v) + (ConvField(h, b, w, w)
            + (ConvField(h, c, x, x) + (ConvField(h, d, y, y) + ConvField(h, e, z, z))))
      && Values(o, [a, b, c, d, e], s)
         == ValField(o, a, v) + (ValField(o, b, w) + (ValField(o, c, x) + (ValField(o, d, y) + ValField(o, e, z))))
  {
    hide Conv, Values, Size, ConvField, ValField;
    var i, rest := a.width, s[a.width..];
    var j := i + b.width;
    var k := j + c.width;
    var l := k + d.width;
    Layout4(h, o, b, c, d, e, rest);
    LayoutMore(h, o, a, [b, c, d, e], [a, b, c, d, e], s);
    SubTail(s, i, 0, j - i);
    SubTail(s, i, j - i, k - i);
    SubTail(s, i, k - i, l - i);
  }

  lemma SizeCons(fs: seq<Field>)
    requires fs != []
    ensures Size(fs) == fs[0].width + Size(fs[1..])
  {
  }

  lemma NoFields(h: Order, o: Order)
    ensures Size([]) == 0 && Conv(h, [], [], []) == [] && Values(o, [], []) == []
  {
  }

  /** Two layouts one behind the other. */
  lemma {:induction false} LayoutJoin(h: Order, o: Order, a: seq<Field>, b: seq<Field>, x: Bytes, y: Bytes)
    requires |x| == Size(a) && |y| == Size(b)
    ensures Size(a + b) == |x + y|
    ensures Conv(h, a + b, x + y, x + y) == Conv(h, a, x, x) + Conv(h, b, y, y)
    ensures Values(o, a + b, x + y) == Values(o, a, x) + Values(o, b, y)
    decreases |a|
  {
    hide Conv, Values, Size, ConvField, ValField;
    NoFields(h, o);
    if a == [] {
      assert a + b == b && x + y == y;
    } else {
      var w := a[0].width;
      SizeCons(a);
      LayoutJoin(h, o, a[1..], b, x[w..], y);
      assert [a[0]] + a[1..] == a && [a[0]] + (a[1..] + b) == a + b;
      assert (x + y)[..w] == x[..w] && (x + y)[w..] == x[w..] + y;
      LayoutMore(h, o, a[0], a[1..], a, x);
      LayoutMore(h, o, a[0], a[1..] + b, a + b, x + y);
    }
  }

  lemma Sub(bs: Bytes, i: nat, j: nat, a: nat, b: nat)
    requires a <= b && i <= j <= |bs| && b <= j - i
    ensures bs[i..j][a..b] == bs[i + a..i + b]
  {
    var x, y := bs[i..j][a..b], bs[i + a..i + b];
    assert |x| == |y|;
    forall k | 0 <= k < |x| ensures x[k] == y[k] {}
  }

  lemma OneByte(h: Order, o: Order, bs: Bytes)
    requires |bs| == 1
    ensures Value(o, bs) == bs[0] && Flip(h, bs) == bs
  {
    PlaceValues(bs);
    assert bs[1..] == [];
  }

  // --------------------------------------------------------------------- actions

  /** The meaning of the structure of an action of type `t`, from the bytes at their places. */
  function StructAt(o: Order, t: nat, bs: Bytes): Action
    requires KnownType(t) && SizeFits(t, |bs|)
  {
    if t == 0 then Output(Value(o, bs[4..6]), Value(o, bs[6..8]))
    else if t == 1 then SetVlanVid(Value(o, bs[4..6]))
    else if t == 2 then SetVlanPcp(bs[4])
    else if t == 3 then StripVlan
    else if t == 4 then SetDlSrc(bs[4..10])
    else if t == 5 then SetDlDst(bs[4..10])
    else if t == 6 then SetNwSrc(Value(o, bs[4..8]))
    else if t == 7 then SetNwDst(Value(o, bs[4..8]))
    else if t == 8 then SetNwTos(bs[4])
    else if t == 9 then SetTpSrc(Value(o, bs[4..6]))
    else if t == 10 then SetTpDst(Value(o, bs[4..6]))
    else if t == 11 then Enqueue(Value(o, bs[4..6]), Value(o, bs[12..16]))
    else Vendor(Value(o, bs[4..8]), bs[8..])
  }

  /** The bytes of a converted action behind its header: numbers turned around in place, raw bytes
      copied, padding zeroed. */
  function ArgsTurned(h: Order, t: nat, bs: Bytes): Bytes
    requires KnownType(t) && SizeFits(t, |bs|)
  {
    if t == 0 then Flip(h, bs[4..6]) + Flip(h, bs[6..8])
    else if t == 1 || t == 9 || t == 10 then Flip(h, bs[4..6]) + [0, 0]
    else if t == 2 || t == 8 then [bs[4], 0, 0, 0]
    else if t == 3 then [0, 0, 0, 0]
    else if t == 4 || t == 5 then bs[4..10] + [0, 0, 0, 0, 0, 0]
    else if t == 6 || t == 7 then Flip(h, bs[4..8])
    else if t == 11 then Flip(h, bs[4..6]) + ([0, 0, 0, 0, 0, 0] + Flip(h, bs[12..16]))
    else Flip(h, bs[4..8]) + bs[8..]
  }

  lemma ZeroBytes()
    ensures Zeros(1) == [0] && Zeros(2) == [0, 0] && Zeros(3) == [0, 0, 0] && Zeros(4) == [0, 0, 0, 0]
    ensures Zeros(6) == [0, 0, 0, 0, 0, 0]
  {
  }

  /** The values behind the header of an action, from the bytes at their places. */
  function ArgsAt(o: Order, t: nat, bs: Bytes): seq<Val>
    requires KnownType(t) && SizeFits(t, |bs|)
  {
    if t == 0 then [N(Value(o, bs[4..6])), N(Value(o, bs[6..8]))]
    else if t == 3 then []
    else if t == 4 || t == 5 then [R(bs[4..10])]
    else if t == 2 || t == 8 then [N(bs[4])]
    else if t == 6 || t == 7 then [N(Value(o, bs[4..8]))]
    else if t == 11 then [N(Value(o, bs[4..6])), N(Value(o, bs[12..16]))]
    else if t == VENDOR then [N(Value(o, bs[4..8])), R(bs[8..])]
    else [N(Value(o, bs[4..6]))]
  }

  /** An action of each type, byte for byte. */
  ghost predicate Laid(h: Order, o: Order, t: nat, bs: Bytes)
    requires KnownType(t) && SizeFits(t, |bs|)
  {
    var fs := ActionFields(t, |bs|);
    && Conv(h, fs, bs, bs) == Flip(h, bs[0..2]) + (Flip(h, bs[2..4]) + ArgsTurned(h, t, bs))
    && Values(o, fs, bs) == [N(Value(o, bs[0..2]))] + ([N(Value(o, bs[2..4]))] + ArgsAt(o, t, bs))
  }

  lemma LaidShort(h: Order, o: Order, t: nat, bs: Bytes)
    requires KnownType(t) && SizeFits(t, |bs|) && (t == 3 || t == 6 || t == 7)
    ensures Laid(h, o, t, bs)
  {
    hide Value, Flip, Conv, Values, Size;
    ZeroBytes();
    Layout3(h, o, Num(2), Num(2), if t == 3 then Pad(4) else Num(4), bs);
    assert bs[4..] == bs[4..8] && bs[..2] == bs[0..2];
  }

  lemma LaidByte(h: Order, o: Order, t: nat, bs: Bytes)
    requires KnownType(t) && SizeFits(t, |bs|) && (t == 2 || t == 8)
    ensures Laid(h, o, t, bs)
  {
    hide Value, Flip, Conv, Values, Size;
    ZeroBytes();
    OneByte(h, o, bs[4..5]);
    Layout4(h, o, Num(2), Num(2), Num(1), Pad(3), bs);
    assert bs[..2] == bs[0..2] && bs[4..5] == [bs[4]];
  }

  lemma LaidAddress(h: Order, o: Order, t: nat, bs: Bytes)
    requires KnownType(t) && SizeFits(t, |bs|) && (t == 4 || t == 5)
    ensures Laid(h, o, t, bs)
  {
    hide Value, Flip, Conv, Values, Size;
    ZeroBytes();
    Layout4(h, o, Num(2), Num(2), Raw(6), Pad(6), bs);
    assert bs[..2] == bs[0..2];
  }

  lemma LaidPort(h: Order, o: Order, t: nat, bs: Bytes)
    requires KnownType(t) && SizeFits(t, |bs|) && (t == 0 || t == 1 || t == 9 || t == 10)
    ensures Laid(h, o, t, bs)
  {
    hide Value, Flip, Conv, Values, Size;
    ZeroBytes();
    Layout4(h, o, Num(2), Num(2), Num(2), if t == 0 then Num(2) else Pad(2), bs);
    assert bs[..2] == bs[0..2] && bs[6..] == bs[6..8];
  }

  lemma LaidEnqueue(h: Order, o: Order, bs: Bytes)
    requires |bs| == 16
    ensures Laid(h, o, 11, bs)
  {
    hide Value, Flip, Conv, Values, Size;
    ZeroBytes();
    Layout5(h, o, Num(2), Num(2), Num(2), Pad(6), Num(4), bs);
    assert bs[..2] == bs[0..2] && bs[12..] == bs[12..16];
  }

  lemma LaidVendor(h: Order, o: Order, bs: Bytes)
    requires |bs| >= 8
    ensures Laid(h, o, VENDOR, bs)
  {
    hide Value, Flip, Conv, Values, Size;
    Layout4(h, o, Num(2), Num(2), Num(4), Raw(|bs| - 8), bs);
    assert bs[..2] == bs[0..2];
  }

  lemma LaidOut(h: Order, o: Order, t: nat, bs: Bytes)
    requires KnownType(t) && SizeFits(t, |bs|)
    ensures Laid(h, o, t, bs)
  {
    hide Laid;
    if t == 3 || t == 6 || t == 7 {
      LaidShort(h, o, t, bs);
    } else if t == 2 || t == 8 {
      LaidByte(h, o, t, bs);
    } else if t == 4 || t == 5 {
      LaidAddress(h, o, t, bs);
    } else if t == 11 {
      LaidEnqueue(h, o, bs);
    } else if t == VENDOR {
      LaidVendor(h, o, bs);
    } else {
      LaidPort(h, o, t, bs);
    }
  }

  /** What the structure of an action of any type means, from the bytes at their places. */
  lemma StructByPosition(o: Order, t: nat, bs: Bytes)
    requires KnownType(t) && SizeFits(t, |bs|)
    ensures ActionOf(t, Values(o, ActionFields(t, |bs|), bs)) == StructAt(o, t, bs)
  {
    hide Value, Values, Conv, ActionFields, ArgsTurned;
    LaidOut(o, o, t, bs);
  }

  /** What an action means stands at the specified places, for each type. */
  lemma ActionByPosition(o: Order, bs: Bytes)
    requires GoodHead(o, bs)
    ensures DecodeAction(o, bs) == StructAt(o, Value(o, bs[0..2]), bs[..Value(o, bs[2..4])])
  {
    hide Value, Values, ActionFields, ActionOf, StructAt;
    assert bs[0..2] == bs[..2];
    StructByPosition(o, TypeOf(o, bs), bs[..LenOf(o, bs)]);
  }

  /** What conversion writes for an action, byte for byte, whatever length it claims. */
  lemma StructTurned(h: Order, o: Order, bs: Bytes)
    requires CanStep(o, bs)
    ensures var t, n := TypeOf(o, bs), StructSize(TypeOf(o, bs), LenOf(o, bs));
      && SizeFits(t, n)
      && ConvStruct(h, o, bs) == Flip(h, bs[0..2]) + (Flip(h, bs[2..4]) + ArgsTurned(h, t, bs[..n]))
  {
    hide Value, Values, Conv, ActionFields, ArgsTurned, ArgsAt;
    var t, n := TypeOf(o, bs), StructSize(TypeOf(o, bs), LenOf(o, bs));
    assert bs[..n][0..2] == bs[0..2] && bs[..n][2..4] == bs[2..4];
    LaidOut(h, o, t, bs[..n]);
  }

  /** Where the walk writes: at an action that is at least as long as its structure, the structure
      is written, what the action claims beyond it is left as it was, and the walk goes on behind
      the action; and a rest that is too short for an action is left as it was. */
  lemma WalkByPosition(h: Order, o: Order, dst: Bytes, src: Bytes)
    requires |dst| == |src|
    ensures |src| < ACTION_HEADER ==> Walk(h, o, dst, src) == Written(dst)
    ensures CanStep(o, src) && StructSize(TypeOf(o, src), LenOf(o, src)) <= LenOf(o, src) ==>
      var len, size := LenOf(o, src), StructSize(TypeOf(o, src), LenOf(o, src));
      Walk(h, o, dst, src)
      == Prepend(ConvStruct(h, o, src) + dst[size..len], Walk(h, o, dst[len..], src[len..]))
  {
    hide Value, ConvStruct;
    if CanStep(o, src) && StructSize(TypeOf(o, src), LenOf(o, src)) <= LenOf(o, src) {
      var len := LenOf(o, src);
      var d := Overwritten(h, o, dst, src);
      assert d[len..] == dst[len..];
      assert d[..len] == ConvStruct(h, o, src) + dst[|ConvStruct(h, o, src)|..len];
    }
  }

  /** The known types are exactly those of the actions there are, with their sizes. */
  lemma TypesOfActions(t: nat)
    ensures KnownType(t) <==> exists a: Action :: ActionType(a) == t
    ensures forall a: Action :: ActionType(a) == t ==> StructSize(t, ActionLen(a)) == ActionLen(a)
  {
    if t == 0 { assert ActionType(Output(0, 0)) == t; }
    if t == 1 { assert ActionType(SetVlanVid(0)) == t; }
    if t == 2 { assert ActionType(SetVlanPcp(0)) == t; }
    if t == 3 { assert ActionType(StripVlan) == t; }
    if t == 4 { assert ActionType(SetDlSrc([])) == t; }
    if t == 5 { assert ActionType(SetDlDst([])) == t; }
    if t == 6 { assert ActionType(SetNwSrc(0)) == t; }
    if t == 7 { assert ActionType(SetNwDst(0)) == t; }
    if t == 8 { assert ActionType(SetNwTos(0)) == t; }
    if t == 9 { assert ActionType(SetTpSrc(0)) == t; }
    if t == 10 { assert ActionType(SetTpDst(0)) == t; }
    if t == 11 { assert ActionType(Enqueue(0, 0)) == t; }
    if t == VENDOR { assert ActionType(Vendor(0, [])) == t; }
  }

  // --------------------------------------------------------------------- headers

  function MatchAt(o: Order, bs: Bytes): Match
    requires |bs| == FLOW_STATS_HEADER
  {
    Match(Value(o, bs[4..8]), Value(o, bs[8..10]), bs[10..16], bs[16..22], Value(o, bs[22..24]), bs[24],
          Value(o, bs[26..28]), bs[28], bs[29], Value(o, bs[32..36]), Value(o, bs[36..40]), Value(o, bs[40..42]),
          Value(o, bs[42..44]))
  }

  function HeaderAt(o: Order, bs: Bytes): Header
    requires |bs| == FLOW_STATS_HEADER
  {
    Header(Value(o, bs[0..2]), bs[2], MatchAt(o, bs), Value(o, bs[44..48]), Value(o, bs[48..52]),
           Value(o, bs[52..54]), Value(o, bs[54..56]), Value(o, bs[56..58]), Value(o, bs[64..72]),
           Value(o, bs[72..80]), Value(o, bs[80..88]))
  }

  /** The converted header, byte for byte. */
  function HeaderTurned(h: Order, bs: Bytes): Bytes
    requires |bs| == FLOW_STATS_HEADER
  {
    (Flip(h, bs[0..2]) + ([bs[2]] + [0]))
    + ((Flip(h, bs[4..8]) + (Flip(h, bs[8..10]) + (bs[10..16] + bs[16..22])))
    + ((Flip(h, bs[22..24]) + ([bs[24]] + ([0] + Flip(h, bs[26..28]))))
    + (([bs[28]] + ([bs[29]] + [0, 0]))
    + ((Flip(h, bs[32..36]) + (Flip(h, bs[36..40]) + (Flip(h, bs[40..42]) + Flip(h, bs[42..44]))))
    + ((Flip(h, bs[44..48]) + (Flip(h, bs[48..52])
       + (Flip(h, bs[52..54]) + (Flip(h, bs[54..56]) + Flip(h, bs[56..58])))))
    + ([0, 0, 0, 0, 0, 0] + (Flip(h, bs[64..72]) + (Flip(h, bs[72..80]) + Flip(h, bs[80..88])))))))))
  }

  const LAST_FIELDS: seq<Field> :=
    [Num(4), Num(4), Num(2), Num(2)]
    + ([Num(4), Num(4), Num(2), Num(2), Num(2)]
    + [Pad(6), Num(8), Num(8), Num(8)])

  /** A group of `n` bytes at byte `i`, and what follows it to the end. */
  lemma Join(h: Order, o: Order, bs: Bytes, i: nat, n: nat, g: seq<Field>, rest: seq<Field>)
    requires i + n <= |bs| && Size(g) == n && Size(rest) == |bs| - i - n
    ensures Size(g + rest) == |bs| - i
    ensures Conv(h, g + rest, bs[i..], bs[i..])
         == Conv(h, g, bs[i..i + n], bs[i..i + n]) + Conv(h, rest, bs[i + n..], bs[i + n..])
    ensures Values(o, g + rest, bs[i..]) == Values(o, g, bs[i..i + n]) + Values(o, rest, bs[i + n..])
  {
    hide Conv, Values, Size;
    SizeAppend(g, rest);
    assert bs[i..] == bs[i..i + n] + bs[i + n..];
    LayoutJoin(h, o, g, rest, bs[i..i + n], bs[i + n..]);
  }

  /** Length and table. */
  lemma Group1(h: Order, o: Order, bs: Bytes)
    requires |bs| == FLOW_STATS_HEADER
    ensures Size([Num(2), Num(1), Pad(1)]) == 4
    ensures var s, fs := bs[0..4], [Num(2), Num(1), Pad(1)];
      && Conv(h, fs, s, s)
         == Flip(h, bs[0..2]) + ([bs[2]] + [0])
      && Values(o, fs, s) == [N(Value(o, bs[0..2])), N(bs[2])]
  {
    hide Value, Flip, Conv, Values, Size;
    var s := bs[0..4];
    Layout3(h, o, Num(2), Num(1), Pad(1), s);
    ZeroBytes();
    OneByte(h, o, bs[2..3]);
    Sub(bs, 0, 4, 0, 2);
    Sub(bs, 0, 4, 2, 3);
    Sub(bs, 0, 4, 3, 4);
    assert s[3..] == s[3..4];
  }

  /** The match: wildcards, port, hardware addresses. */
  lemma Group2(h: Order, o: Order, bs: Bytes)
    requires |bs| == FLOW_STATS_HEADER
    ensures Size([Num(4), Num(2), Raw(6), Raw(6)]) == 18
    ensures var s, fs := bs[4..22], [Num(4), Num(2), Raw(6), Raw(6)];
      && Conv(h, fs, s, s)
         == Flip(h, bs[4..8]) + (Flip(h, bs[8..10]) + (bs[10..16] + bs[16..22]))
      && Values(o, fs, s) == [N(Value(o, bs[4..8])), N(Value(o, bs[8..10])), R(bs[10..16]), R(bs[16..22])]
  {
    hide Value, Flip, Conv, Values, Size;
    var s := bs[4..22];
    Layout4(h, o, Num(4), Num(2), Raw(6), Raw(6), s);
    Sub(bs, 4, 22, 0, 4);
    Sub(bs, 4, 22, 4, 6);
    Sub(bs, 4, 22, 6, 12);
    Sub(bs, 4, 22, 12, 18);
    assert s[12..] == s[12..18];
  }

  /** The match: VLAN and type. */
  lemma Group3(h: Order, o: Order, bs: Bytes)
    requires |bs| == FLOW_STATS_HEADER
    ensures Size([Num(2), Num(1), Pad(1), Num(2)]) == 6
    ensures var s, fs := bs[22..28], [Num(2), Num(1), Pad(1), Num(2)];
      && Conv(h, fs, s, s)
         == Flip(h, bs[22..24]) + ([bs[24]] + ([0] + Flip(h, bs[26..28])))
      && Values(o, fs, s) == [N(Value(o, bs[22..24])), N(bs[24]), N(Value(o, bs[26..28]))]
  {
    hide Value, Flip, Conv, Values, Size;
    var s := bs[22..28];
    Layout4(h, o, Num(2), Num(1), Pad(1), Num(2), s);
    ZeroBytes();
    OneByte(h, o, bs[24..25]);
    Sub(bs, 22, 28, 0, 2);
    Sub(bs, 22, 28, 2, 3);
    Sub(bs, 22, 28, 3, 4);
    Sub(bs, 22, 28, 4, 6);
    assert s[4..] == s[4..6];
  }

  /** The match: type of service and protocol. */
  lemma Group4(h: Order, o: Order, bs: Bytes)
    requires |bs| == FLOW_STATS_HEADER
    ensures Size([Num(1), Num(1), Pad(2)]) == 4
    ensures var s, fs := bs[28..32], [Num(1), Num(1), Pad(2)];
      && Conv(h, fs, s, s)
         == [bs[28]] + ([bs[29]] + [0, 0])
      && Values(o, fs, s) == [N(bs[28]), N(bs[29])]
  {
    hide Value, Flip, Conv, Values, Size;
    var s := bs[28..32];
    Layout3(h, o, Num(1), Num(1), Pad(2), s);
    ZeroBytes();
    OneByte(h, o, bs[28..29]);
    OneByte(h, o, bs[29..30]);
    Sub(bs, 28, 32, 0, 1);
    Sub(bs, 28, 32, 1, 2);
    Sub(bs, 28, 32, 2, 4);
    assert s[2..] == s[2..4];
  }

  /** The match: addresses and ports. */
  lemma Group5(h: Order, o: Order, bs: Bytes)
    requires |bs| == FLOW_STATS_HEADER
    ensures Size([Num(4), Num(4), Num(2), Num(2)]) == 12
    ensures var s, fs := bs[32..44], [Num(4), Num(4), Num(2), Num(2)];
      && Conv(h, fs, s, s)
         == Flip(h, bs[32..36]) + (Flip(h, bs[36..40]) + (Flip(h, bs[40..42]) + Flip(h, bs[42..44])))
      && Values(o, fs, s)
         == [N(Value(o, bs[32..36])), N(Value(o, bs[36..40])), N(Value(o, bs[40..42])), N(Value(o, bs[42..44]))]
  {
    hide Value, Flip, Conv, Values, Size;
    var s := bs[32..44];
    Layout4(h, o, Num(4), Num(4), Num(2), Num(2), s);
    Sub(bs, 32, 44, 0, 4);
    Sub(bs, 32, 44, 4, 8);
    Sub(bs, 32, 44, 8, 10);
    Sub(bs, 32, 44, 10, 12);
    assert s[10..] == s[10..12];
  }

  /** Durations, priority, timeouts. */
  lemma Group6(h: Order, o: Order, bs: Bytes)
    requires |bs| == FLOW_STATS_HEADER
    ensures Size([Num(4), Num(4), Num(2), Num(2), Num(2)]) == 14
    ensures var s, fs := bs[44..58], [Num(4), Num(4), Num(2), Num(2), Num(2)];
      && Conv(h, fs, s, s)
         == Flip(h, bs[44..48]) + (Flip(h, bs[48..52])
            + (Flip(h, bs[52..54]) + (Flip(h, bs[54..56]) + Flip(h, bs[56..58]))))
      && Values(o, fs, s)
         == [N(Value(o, bs[44..48])), N(Value(o, bs[48..52])), N(Value(o, bs[52..54])), N(Value(o, bs[54..56])),
             N(Value(o, bs[56..58]))]
  {
    hide Value, Flip, Conv, Values, Size;
    var s := bs[44..58];
    Layout5(h, o, Num(4), Num(4), Num(2), Num(2), Num(2), s);
    Sub(bs, 44, 58, 0, 4);
    Sub(bs, 44, 58, 4, 8);
    Sub(bs, 44, 58, 8, 10);
    Sub(bs, 44, 58, 10, 12);
    Sub(bs, 44, 58, 12, 14);
    assert s[12..] == s[12..14];
  }

  /** Padding, cookie, counters. */
  lemma Group7(h: Order, o: Order, bs: Bytes)
    requires |bs| == FLOW_STATS_HEADER
    ensures Size([Pad(6), Num(8), Num(8), Num(8)]) == 30
    ensures var s, fs := bs[58..88], [Pad(6), Num(8), Num(8), Num(8)];
      && Conv(h, fs, s, s)
         == [0, 0, 0, 0, 0, 0] + (Flip(h, bs[64..72]) + (Flip(h, bs[72..80]) + Flip(h, bs[80..88])))
      && Values(o, fs, s) == [N(Value(o, bs[64..72])), N(Value(o, bs[72..80])), N(Value(o, bs[80..88]))]
  {
    hide Value, Flip, Conv, Values, Size;
    var s := bs[58..88];
    Layout4(h, o, Pad(6), Num(8), Num(8), Num(8), s);
    ZeroBytes();
    Sub(bs, 58, 88, 0, 6);
    Sub(bs, 58, 88, 6, 14);
    Sub(bs, 58, 88, 14, 22);
    Sub(bs, 58, 88, 22, 30);
    assert s[22..] == s[22..30];
  }

  /** What a header means and what conversion makes of it, from the bytes at their places. */
  lemma HeaderByPosition(h: Order, o: Order, bs: Bytes)
    requires |bs| == FLOW_STATS_HEADER
    ensures ConvHeader(h, bs) == HeaderTurned(h, bs)
    ensures DecodeHeader(o, bs) == HeaderAt(o, bs)
  {
    hide Conv, Values, Size, HeaderTurned, HeaderVals, HeaderAt, HeaderOf;
    FlowFieldsSize();
    GroupsJoined(h, o, bs);
    HeaderOfVals(HeaderAt(o, bs));
  }

  lemma GroupsJoined(h: Order, o: Order, bs: Bytes)
    requires |bs| == FLOW_STATS_HEADER
    ensures Size(FLOW_FIELDS) == FLOW_STATS_HEADER
    ensures Conv(h, FLOW_FIELDS, bs, bs) == HeaderTurned(h, bs)
    ensures Values(o, FLOW_FIELDS, bs) == HeaderVals(HeaderAt(o, bs))
  {
    hide Value, Flip, Conv, Values, Size;
    FlowFieldsSize();
    LastGroups(h, o, bs);
    Group1(h, o, bs);
    Group2(h, o, bs);
    Group3(h, o, bs);
    Group4(h, o, bs);
    var g1: seq<Field> := [Num(2), Num(1), Pad(1)];
    var g2: seq<Field> := [Num(4), Num(2), Raw(6), Raw(6)];
    var g3: seq<Field> := [Num(2), Num(1), Pad(1), Num(2)];
    var g4: seq<Field> := [Num(1), Num(1), Pad(2)];
    Join(h, o, bs, 28, 4, g4, LAST_FIELDS);
    Join(h, o, bs, 22, 6, g3, g4 + LAST_FIELDS);
    Join(h, o, bs, 4, 18, g2, g3 + (g4 + LAST_FIELDS));
    Join(h, o, bs, 0, 4, g1, g2 + (g3 + (g4 + LAST_FIELDS)));
    assert bs[0..] == bs && FLOW_FIELDS == g1 + (g2 + (g3 + (g4 + LAST_FIELDS)));
  }

  lemma LastGroups(h: Order, o: Order, bs: Bytes)
    requires |bs| == FLOW_STATS_HEADER
    ensures Size(LAST_FIELDS) == 56
    ensures Conv(h, LAST_FIELDS, bs[32..], bs[32..])
         == (Flip(h, bs[32..36]) + (Flip(h, bs[36..40]) + (Flip(h, bs[40..42]) + Flip(h, bs[42..44]))))
          + ((Flip(h, bs[44..48]) + (Flip(h, bs[48..52])
              + (Flip(h, bs[52..54]) + (Flip(h, bs[54..56]) + Flip(h, bs[56..58])))))
          + ([0, 0, 0, 0, 0, 0] + (Flip(h, bs[64..72]) + (Flip(h, bs[72..80]) + Flip(h, bs[80..88])))))
    ensures Values(o, LAST_FIELDS, bs[32..])
         == [N(Value(o, bs[32..36])), N(Value(o, bs[36..40])), N(Value(o, bs[40..42])), N(Value(o, bs[42..44]))]
          + ([N(Value(o, bs[44..48])), N(Value(o, bs[48..52])), N(Value(o, bs[52..54])), N(Value(o, bs[54..56])),
              N(Value(o, bs[56..58]))]
          + [N(Value(o, bs[64..72])), N(Value(o, bs[72..80])), N(Value(o, bs[80..88]))])
  {
    hide Value, Flip, Conv, Values, Size;
    Group5(h, o, bs);
    Group6(h, o, bs);
    Group7(h, o, bs);
    var g5: seq<Field> := [Num(4), Num(4), Num(2), Num(2)];
    var g6: seq<Field> := [Num(4), Num(4), Num(2), Num(2), Num(2)];
    var g7: seq<Field> := [Pad(6), Num(8), Num(8), Num(8)];
    assert bs[58..88] == bs[58..];
    Join(h, o, bs, 44, 14, g6, g7);
    Join(h, o, bs, 32, 12, g5, g6 + g7);
  }
}
