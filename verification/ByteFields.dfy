/**
  Bytes, byte orders and record layouts.  A fixed-size OpenFlow record is a list of fields;
  converting it between network and host order flips the bytes of every number, copies raw
  bytes, and either zeroes padding or leaves it alone, as src/lib/byteorder.c does field by
  field for each of its structures.
*/
module ByteFields {

  type Byte = x: nat | x < 256

  type Bytes = seq<Byte>

  /** Network order is `Big`; the host may be either. */
  datatype Order = Big | Little

  // ------------------------------------------------------------------ numbers

  function Pow256(n: nat): (r: nat)
    ensures r > 0
  {
    if n == 0 then 1 else 256 * Pow256(n - 1)
  }

  function BigValue(bs: Bytes): nat {
    if bs == [] then 0 else BigValue(bs[..|bs| - 1]) * 256 + bs[|bs| - 1]
  }

  function LittleValue(bs: Bytes): nat {
    if bs == [] then 0 else bs[0] + 256 * LittleValue(bs[1..])
  }

  function BigBytes(width: nat, v: nat): (bs: Bytes)
    ensures |bs| == width
  {
    if width == 0 then [] else BigBytes(width - 1, v / 256) + [v % 256]
  }

  function Reversed(bs: Bytes): (r: Bytes)
    ensures |r| == |bs|
    ensures forall k :: 0 <= k < |bs| ==> r[k] == bs[|bs| - 1 - k]
  {
    seq(|bs|, k requires 0 <= k < |bs| => bs[|bs| - 1 - k])
  }

  /** What ntohs, htons, ntohl, htonl, ntohll and htonll do to the bytes of a number on a
      host of order `h`: nothing on a big-endian host, a reversal on a little-endian one. */
  function Flip(h: Order, bs: Bytes): (r: Bytes)
    ensures |r| == |bs|
  {
    if h == Little then Reversed(bs) else bs
  }

  /** The number that a host of order `o` reads in these bytes. */
  function Value(o: Order, bs: Bytes): nat {
    if o == Big then BigValue(bs) else LittleValue(bs)
  }

  function BytesOf(o: Order, width: nat, v: nat): (bs: Bytes)
    ensures |bs| == width
  {
    Flip(o, BigBytes(width, v))
  }

  /** The two orders a conversion goes between on host `h`. */
  predicate Opposite(h: Order, o: Order, o': Order) {
    (o == Big && o' == h) || (o == h && o' == Big)
  }

  /** Arithmetic stored into a uint16_t. */
  function U16(x: int): (r: nat)
    ensures r < 0x1_0000
    ensures 0 <= x < 0x1_0000 ==> r == x
    ensures -0x1_0000 <= x < 0 ==> r == x + 0x1_0000
  {
    x % 0x1_0000
  }

  /** Only whole multiples of 65536 are dropped. */
  lemma U16Drops(x: int, wraps: int)
    ensures U16(x + wraps * 0x1_0000) == U16(x)
  {
    assert (x + wraps * 0x1_0000) % 0x1_0000 == x % 0x1_0000;
  }

  lemma FlipTwice(h: Order, bs: Bytes)
    ensures Flip(h, Flip(h, bs)) == bs
  {
  }

  /** Read from the other end, the bytes mean the same number in the other order. */
  lemma {:induction false} ReversedValue(bs: Bytes)
    ensures LittleValue(Reversed(bs)) == BigValue(bs)
  {
    if bs != [] {
      var n := |bs| - 1;
      assert Reversed(bs) == [bs[n]] + Reversed(bs[..n]);
      ReversedValue(bs[..n]);
    }
  }

  lemma ReversedValueBack(bs: Bytes)
    ensures BigValue(Reversed(bs)) == LittleValue(bs)
  {
    ReversedValue(Reversed(bs));
    assert Reversed(Reversed(bs)) == bs;
  }

  /** Reading what was flipped: network order and host order change places. */
  lemma FlipChangesOrder(h: Order, bs: Bytes)
    ensures Value(h, Flip(h, bs)) == Value(Big, bs)
    ensures Value(Big, Flip(h, bs)) == Value(h, bs)
  {
    ReversedValue(bs);
    ReversedValueBack(bs);
  }

  /** What a number of each width on the wire is: the big-endian and the little-endian sum. */
  lemma {:induction false} PlaceValues(bs: Bytes)
    requires bs != []
    ensures Value(Big, bs) == (bs[0] as int) * Pow256(|bs| - 1) + Value(Big, bs[1..])
    ensures Value(Little, bs) == bs[0] + 256 * Value(Little, bs[1..])
  {
    var n := |bs| - 1;
    if n > 0 {
      PlaceValues(bs[..n]);
      assert bs[..n][1..] == bs[1..][..n - 1] && bs[1..][n - 1] == bs[n];
    }
  }

  lemma FourBytesValue(bs: Bytes)
    requires |bs| == 4
    ensures Value(Big, bs)
         == 0x100_0000 * (bs[0] as int) + 0x1_0000 * (bs[1] as int) + 0x100 * (bs[2] as int) + bs[3] as int
    ensures Value(Little, bs)
         == bs[0] as int + 0x100 * (bs[1] as int) + 0x1_0000 * (bs[2] as int) + 0x100_0000 * (bs[3] as int)
  {
    PlaceValues(bs);
    PlaceValues(bs[1..]);
    PlaceValues(bs[2..]);
    PlaceValues(bs[3..]);
    assert bs[1..][1..] == bs[2..] && bs[2..][1..] == bs[3..] && bs[3..][1..] == [];
    Powers();
  }

  lemma Powers()
    ensures Pow256(1) == 0x100 && Pow256(2) == 0x1_0000 && Pow256(4) == 0x1_0000_0000
    ensures Pow256(3) == 0x100_0000 && Pow256(8) == 0x1_0000_0000_0000_0000
  {
    assert Pow256(3) == 256 * Pow256(2);
    assert Pow256(5) == 256 * Pow256(4);
    assert Pow256(6) == 256 * Pow256(5);
    assert Pow256(7) == 256 * Pow256(6);
  }

  lemma {:induction false} BigValueOfBytes(width: nat, v: nat)
    requires v < Pow256(width)
    ensures BigValue(BigBytes(width, v)) == v
  {
    if width > 0 {
      BigValueOfBytes(width - 1, v / 256);
      var bs := BigBytes(width, v);
      assert bs[..width - 1] == BigBytes(width - 1, v / 256);
    }
  }

  lemma ValueOfBytes(o: Order, width: nat, v: nat)
    requires v < Pow256(width)
    ensures Value(o, BytesOf(o, width, v)) == v
  {
    FlipChangesOrder(o, BigBytes(width, v));
    BigValueOfBytes(width, v);
  }

  lemma Value16(o: Order, bs: Bytes)
    requires |bs| == 2
    ensures Value(o, bs) == if o ==
          Big then 256 * (bs[0] as int) + bs[1] as int else 256 * (bs[1] as int) + bs[0] as int
    ensures Value(o, bs) < 0x1_0000
  {
    PlaceValues(bs);
    PlaceValues(bs[1..]);
    assert bs[1..][1..] == [];
  }

  // ------------------------------------------------------------------ layouts

  datatype Field =
    | Num(width: nat)    // a number in the byte order of the record
    | Raw(width: nat)    // bytes copied as they are
    | Pad(width: nat)    // padding that is zeroed
    | Keep(width: nat)   // padding that is not touched

  function Size(fs: seq<Field>): nat {
    if fs == [] then 0 else fs[0].width + Size(fs[1..])
  }

  lemma SizeByParts(fs: seq<Field>)
    ensures |fs| == 3 ==> Size(fs) == fs[0].width + fs[1].width + fs[2].width
    ensures |fs| == 4 ==> Size(fs) == fs[0].width + fs[1].width + fs[2].width + fs[3].width
    ensures |fs| == 5 ==> Size(fs) == fs[0].width + fs[1].width + fs[2].width + fs[3].width + fs[4].width
  {
    if |fs| == 3 || |fs| == 4 || |fs| == 5 {
      SizeSplit(fs, 2);
      assert fs[..2][1..] == [fs[1]];
      assert |fs| == 3 ==> fs[2..] == [fs[2]];
      if |fs| >= 4 {
        assert fs[2..][1..] == fs[3..];
        assert fs[3..][1..] == fs[4..];
        assert |fs| == 5 ==> fs[4..] == [fs[4]];
      }
    }
  }

  lemma {:induction false} SizeSplit(fs: seq<Field>, k: nat)
    requires k <= |fs|
    ensures Size(fs) == Size(fs[..k]) + Size(fs[k..])
  {
    if k > 0 {
      SizeSplit(fs[1..], k - 1);
      assert fs[..k][1..] == fs[1..][..k - 1];
      assert fs[k..] == fs[1..][k - 1..];
    }
  }

  function Zeros(n: nat): (bs: Bytes)
    ensures |bs| == n
  {
    seq(n, _ => 0)
  }

  function ConvField(h: Order, f: Field, dst: Bytes, src: Bytes): (r: Bytes)
    requires |dst| == |src| == f.width
    ensures |r| == f.width
  {
    match f
    case Num(_) => Flip(h, src)
    case Raw(_) => src
    case Pad(_) => Zeros(f.width)
    case Keep(_) => dst
  }

  /** A record converted on a host of order `h`, written over the old contents `dst`.  The
      same function serves both directions, as the source's macros do. */
  function Conv(h: Order, fs: seq<Field>, dst: Bytes, src: Bytes): (r: Bytes)
    requires |dst| == |src| == Size(fs)
    ensures |r| == |src|
  {
    if fs == [] then []
    else
      var w := fs[0].width;
      ConvField(h, fs[0], dst[..w], src[..w]) + Conv(h, fs[1..], dst[w..], src[w..])
  }

  datatype Val = N(n: nat) | R(bytes: Bytes)

  /** The numbers and byte strings a record means, read in order `o`; padding means nothing. */
  function Values(o: Order, fs: seq<Field>, bs: Bytes): seq<Val>
    requires |bs| == Size(fs)
  {
    if fs == [] then []
    else
      var w := fs[0].width;
      var rest := Values(o, fs[1..], bs[w..]);
      match fs[0]
      case Num(_) => [N(Value(o, bs[..w]))] + rest
      case Raw(_) => [R(bs[..w])] + rest
      case _ => rest
  }

  predicate Plain(fs: seq<Field>) {
    forall k :: 0 <= k < |fs| ==> !fs[k].Keep?
  }

  function ZeroField(f: Field, bs: Bytes): (r: Bytes)
    requires |bs| == f.width
    ensures |r| == |bs|
  {
    if f.Pad? then Zeros(f.width) else bs
  }

  function ZeroPadding(fs: seq<Field>, bs: Bytes): (r: Bytes)
    requires |bs| == Size(fs)
    ensures |r| == |bs|
  {
    if fs == [] then []
    else
      var w := fs[0].width;
      ZeroField(fs[0], bs[..w]) + ZeroPadding(fs[1..], bs[w..])
  }

  /** Converting keeps the meaning: what was written in one order is read in the other. */
  lemma {:induction false} ConvKeepsValues(h: Order, fs: seq<Field>, dst: Bytes, src: Bytes)
    requires |dst| == |src| == Size(fs)
    ensures Values(h, fs, Conv(h, fs, dst, src)) == Values(Big, fs, src)
    ensures Values(Big, fs, Conv(h, fs, dst, src)) == Values(h, fs, src)
  {
    if fs != [] {
      var w := fs[0].width;
      var r := Conv(h, fs, dst, src);
      assert r[..w] == ConvField(h, fs[0], dst[..w], src[..w]);
      assert r[w..] == Conv(h, fs[1..], dst[w..], src[w..]);
      ConvKeepsValues(h, fs[1..], dst[w..], src[w..]);
      FlipChangesOrder(h, src[..w]);
    }
  }

  /** Converting there and back gives the record with its padding zeroed. */
  lemma {:induction false} ConvTwice(h: Order, fs: seq<Field>, d1: Bytes, d2: Bytes, src: Bytes)
    requires |d1| == |d2| == |src| == Size(fs) && Plain(fs)
    ensures Conv(h, fs, d2, Conv(h, fs, d1, src)) == ZeroPadding(fs, src)
  {
    if fs != [] {
      var w := fs[0].width;
      var r := Conv(h, fs, d1, src);
      assert r[..w] == ConvField(h, fs[0], d1[..w], src[..w]);
      assert r[w..] == Conv(h, fs[1..], d1[w..], src[w..]);
      ConvTwice(h, fs[1..], d1[w..], d2[w..], src[w..]);
      FlipTwice(h, src[..w]);
    }
  }

  lemma ConvLeadingNumbers(h: Order, fs: seq<Field>, dst: Bytes, src: Bytes)
    requires |fs| >= 2 && fs[0] == Num(2) && fs[1] == Num(2)
    requires |dst| == |src| == Size(fs)
    ensures |src| >= 4
    ensures Conv(h, fs, dst, src)[..2] == Flip(h, src[..2])
    ensures Conv(h, fs, dst, src)[2..4] == Flip(h, src[2..4])
  {
    var gs := fs[1..];
    assert gs[0] == Num(2);
    var r := Conv(h, gs, dst[2..], src[2..]);
    assert r[..2] == Flip(h, src[2..][..2]);
    assert src[2..][..2] == src[2..4];
    assert Conv(h, fs, dst, src) == Flip(h, src[..2]) + r;
  }

  // ----------------------------------------------------------------- encoding

  /** The values fit the fields of the layout, in number, kind and range. */
  predicate Fits(fs: seq<Field>, vs: seq<Val>) {
    if fs == [] then vs == []
    else match fs[0]
      case Num(w) => vs != [] && vs[0].N? && vs[0].n < Pow256(w) && Fits(fs[1..], vs[1..])
      case Raw(w) => vs != [] && vs[0].R? && |vs[0].bytes| == w && Fits(fs[1..], vs[1..])
      case _ => Fits(fs[1..], vs)
  }

  /** The record in order `o` with these values and zero padding. */
  function Enc(o: Order, fs: seq<Field>, vs: seq<Val>): (bs: Bytes)
    requires Fits(fs, vs)
    ensures |bs| == Size(fs)
    decreases |fs|
  {
    if fs == [] then []
    else match fs[0]
      case Num(w) => BytesOf(o, w, vs[0].n) + Enc(o, fs[1..], vs[1..])
      case Raw(w) => vs[0].bytes + Enc(o, fs[1..], vs[1..])
      case _ => Zeros(fs[0].width) + Enc(o, fs[1..], vs)
  }

  lemma {:induction false} ValuesByFields(o: Order, fs: seq<Field>, x: Bytes, y: Bytes)
    requires fs != [] && |x| == fs[0].width && |y| == Size(fs[1..])
    ensures Values(o, fs, x + y) ==
      (match fs[0] case Num(_) => [N(Value(o, x))] case Raw(_) => [R(x)] case _ => []) + Values(o, fs[1..], y)
  {
    assert (x + y)[..|x|] == x && (x + y)[|x|..] == y;
  }

  lemma {:induction false} ValuesOfEnc(o: Order, fs: seq<Field>, vs: seq<Val>)
    requires Fits(fs, vs)
    ensures Values(o, fs, Enc(o, fs, vs)) == vs
    decreases |fs|
  {
    if fs != [] {
      match fs[0] {
        case Num(w) =>
          ValuesByFields(o, fs, BytesOf(o, w, vs[0].n), Enc(o, fs[1..], vs[1..]));
          ValueOfBytes(o, w, vs[0].n);
          ValuesOfEnc(o, fs[1..], vs[1..]);
          assert [vs[0]] + vs[1..] == vs;
        case Raw(w) =>
          ValuesByFields(o, fs, vs[0].bytes, Enc(o, fs[1..], vs[1..]));
          ValuesOfEnc(o, fs[1..], vs[1..]);
          assert [vs[0]] + vs[1..] == vs;
        case _ =>
          ValuesByFields(o, fs, Zeros(fs[0].width), Enc(o, fs[1..], vs));
          ValuesOfEnc(o, fs[1..], vs);
      }
    }
  }

  lemma {:induction false} ConvByFields(h: Order, fs: seq<Field>, d: Bytes, x: Bytes, y: Bytes)
    requires fs != [] && |x| == fs[0].width && |y| == Size(fs[1..]) && |d| == Size(fs)
    ensures Conv(h, fs, d, x + y) == ConvField(h, fs[0], d[..|x|], x) + Conv(h, fs[1..], d[|x|..], y)
  {
    assert (x + y)[..|x|] == x && (x + y)[|x|..] == y;
  }

  /** Conversion takes the network-order record of some values to their host-order record,
      and back. */
  lemma {:induction false} ConvOfEnc(h: Order, fs: seq<Field>, vs: seq<Val>, dst: Bytes, o: Order, o': Order)
    requires Fits(fs, vs) && Plain(fs) && |dst| == Size(fs) && Opposite(h, o, o')
    ensures Conv(h, fs, dst, Enc(o, fs, vs)) == Enc(o', fs, vs)
    decreases |fs|
  {
    if fs != [] {
      var d := dst[fs[0].width..];
      match fs[0] {
        case Num(w) =>
          ConvByFields(h, fs, dst, BytesOf(o, w, vs[0].n), Enc(o, fs[1..], vs[1..]));
          FlipTwice(h, BigBytes(w, vs[0].n));
          ConvOfEnc(h, fs[1..], vs[1..], d, o, o');
        case Raw(w) =>
          ConvByFields(h, fs, dst, vs[0].bytes, Enc(o, fs[1..], vs[1..]));
          ConvOfEnc(h, fs[1..], vs[1..], d, o, o');
        case Pad(w) =>
          ConvByFields(h, fs, dst, Zeros(w), Enc(o, fs[1..], vs));
          ConvOfEnc(h, fs[1..], vs, d, o, o');
        case Keep(_) =>
      }
    }
  }
}
