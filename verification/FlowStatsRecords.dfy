/**
  Lists of actions and whole flow-stats records: conversion keeps their meaning, undoes
  itself up to padding, and takes the network form of every entry to its host form.
*/
module FlowStatsRecords {
  import opened ByteFields
  import opened FlowStats
  import opened FlowStatsMeaning

  // ------------------------------------------------------------- action lists

  function DecodeActions(o: Order, bs: Bytes): seq<Action>
    requires WellFormed(o, bs)
    decreases |bs|
  {
    if bs == [] then [] else [DecodeAction(o, bs)] + DecodeActions(o, bs[LenOf(o, bs)..])
  }

  ghost predicate ValidActions(acts: seq<Action>) {
    forall k :: 0 <= k < |acts| ==> ValidAction(acts[k])
  }

  ghost function EncActions(o: Order, acts: seq<Action>): Bytes
    requires ValidActions(acts)
  {
    if acts == [] then [] else EncAction(o, acts[0]) + EncActions(o, acts[1..])
  }

  lemma {:induction false} ConvActionsMeaning(h: Order, o: Order, o': Order, bs: Bytes)
    requires WellFormed(o, bs) && Opposite(h, o, o')
    ensures WellFormed(o', ConvActions(h, o, bs))
    ensures DecodeActions(o', ConvActions(h, o, bs)) == DecodeActions(o, bs)
    decreases |bs|
  {
    if bs != [] {
      var n := LenOf(o, bs);
      var c, rest := ConvAction(h, o, bs), ConvActions(h, o, bs[n..]);
      ConvActionMeaning(h, o, o', bs, rest);
      ConvActionsMeaning(h, o, o', bs[n..]);
      assert (c + rest)[n..] == rest;
    }
  }

  lemma OneAction(o: Order, bs: Bytes)
    requires GoodHead(o, bs) && WellFormed(o, bs[LenOf(o, bs)..])
    ensures WellFormed(o, bs)
    ensures DecodeActions(o, bs) == [DecodeAction(o, bs)] + DecodeActions(o, bs[LenOf(o, bs)..])
  {
    hide Value, TypeOf, DecodeAction;
  }

  lemma EncNothing(o: Order)
    ensures EncActions(o, []) == [] && WellFormed(o, []) && DecodeActions(o, []) == []
  {
  }

  lemma EncFirst(o: Order, acts: seq<Action>)
    requires ValidActions(acts) && acts != []
    ensures ValidAction(acts[0]) && ValidActions(acts[1..])
    ensures EncActions(o, acts) == EncAction(o, acts[0]) + EncActions(o, acts[1..])
  {
    hide EncAction, ValidAction;
  }

  lemma {:induction false} DecodeEncActions(o: Order, acts: seq<Action>)
    requires ValidActions(acts)
    ensures WellFormed(o, EncActions(o, acts)) && DecodeActions(o, EncActions(o, acts)) == acts
  {
    hide EncActions, EncAction, ValidActions, ValidAction, WellFormed, DecodeActions, DecodeAction, LenOf, TypeOf;
    if acts == [] {
      EncNothing(o);
    } else {
      EncFirst(o, acts);
      var e, rest := EncAction(o, acts[0]), EncActions(o, acts[1..]);
      DecodeEncActions(o, acts[1..]);
      EncActionHead(o, acts[0], rest);
      DecodeEncAction(o, acts[0], rest);
      assert (e + rest)[|e|..] == rest;
      OneAction(o, e + rest);
      assert [acts[0]] + acts[1..] == acts;
    }
  }

  lemma ConvEncAction(h: Order, o: Order, o': Order, a: Action, rest: Bytes)
    requires ValidAction(a) && Opposite(h, o, o')
    ensures GoodHead(o, EncAction(o, a) + rest)
    ensures ConvAction(h, o, EncAction(o, a) + rest) == EncAction(o', a)
  {
    EncActionHead(o, a, rest);
    ActionFits(a);
    var e := EncAction(o, a);
    assert (e + rest)[..|e|] == e;
    ConvOfEnc(h, ActionFields(ActionType(a), ActionLen(a)), ActionVals(a), e, o, o');
  }

  lemma {:induction false} ConvEncActions(h: Order, o: Order, o': Order, acts: seq<Action>)
    requires ValidActions(acts) && Opposite(h, o, o')
    ensures WellFormed(o, EncActions(o, acts))
    ensures ConvActions(h, o, EncActions(o, acts)) == EncActions(o', acts)
  {
    DecodeEncActions(o, acts);
    if acts != [] {
      var e, rest := EncAction(o, acts[0]), EncActions(o, acts[1..]);
      ConvEncActions(h, o, o', acts[1..]);
      ConvEncAction(h, o, o', acts[0], rest);
      EncActionHead(o, acts[0], rest);
      assert (e + rest)[|e|..] == rest;
    }
  }

  // ------------------------------------------------------------------ headers

  function HeaderOf(vs: seq<Val>): Header {
    Header(NumAt(vs, 0), NumAt(vs, 1),
           Match(NumAt(vs, 2), NumAt(vs, 3), RawAt(vs, 4), RawAt(vs, 5), NumAt(vs, 6), NumAt(vs, 7), NumAt(vs, 8),
                 NumAt(vs, 9), NumAt(vs, 10), NumAt(vs, 11), NumAt(vs, 12), NumAt(vs, 13), NumAt(vs, 14)),
           NumAt(vs, 15), NumAt(vs, 16), NumAt(vs, 17), NumAt(vs, 18), NumAt(vs, 19),
           NumAt(vs, 20), NumAt(vs, 21), NumAt(vs, 22))
  }

  function HeaderVals(x: Header): seq<Val> {
    var m := x.flowMatch;
    [N(x.length), N(x.tableId)]
    + ([N(m.wildcards), N(m.inPort), R(m.dlSrc), R(m.dlDst)]
    + ([N(m.dlVlan), N(m.dlVlanPcp), N(m.dlType)]
    + ([N(m.nwTos), N(m.nwProto)]
    + ([N(m.nwSrc), N(m.nwDst), N(m.tpSrc), N(m.tpDst)]
    + ([N(x.durationSec), N(x.durationNsec), N(x.priority), N(x.idleTimeout), N(x.hardTimeout)]
    + [N(x.cookie), N(x.packetCount), N(x.byteCount)])))))
  }

  predicate ValidHeader(x: Header) {
    var m := x.flowMatch;
    && x.length < 0x1_0000 && x.tableId < 0x100
    && m.wildcards < 0x1_0000_0000 && m.inPort < 0x1_0000 && |m.dlSrc| == 6 && |m.dlDst| == 6
    && m.dlVlan < 0x1_0000 && m.dlVlanPcp < 0x100 && m.dlType < 0x1_0000
    && m.nwTos < 0x100 && m.nwProto < 0x100
    && m.nwSrc < 0x1_0000_0000 && m.nwDst < 0x1_0000_0000 && m.tpSrc < 0x1_0000 && m.tpDst < 0x1_0000
    && x.durationSec < 0x1_0000_0000 && x.durationNsec < 0x1_0000_0000
    && x.priority < 0x1_0000 && x.idleTimeout < 0x1_0000 && x.hardTimeout < 0x1_0000
    && x.cookie < 0x1_0000_0000_0000_0000 && x.packetCount < 0x1_0000_0000_0000_0000
    && x.byteCount < 0x1_0000_0000_0000_0000
  }

  lemma HeaderOfVals(x: Header)
    ensures HeaderOf(HeaderVals(x)) == x
  {
  }

  /** One more number, or one more piece of padding, in front. */
  lemma FitsNum(w: nat, n: nat, fs: seq<Field>, vs: seq<Val>)
    requires n < Pow256(w) && Fits(fs, vs)
    ensures Fits([Num(w)] + fs, [N(n)] + vs)
  {
    FitsOne(Num(w), N(n));
    FitsAppend([Num(w)], [N(n)], fs, vs);
  }

  lemma FitsThree(a: nat, x: nat, b: nat, y: nat, c: nat, z: nat)
    requires x < Pow256(a) && y < Pow256(b) && z < Pow256(c)
    ensures Fits([Num(a), Num(b), Num(c)], [N(x), N(y), N(z)])
  {
    FitsOne(Num(c), N(z));
    FitsOne(Num(b), N(y));
    FitsTwo(Num(b), N(y), Num(c), N(z));
    FitsNum(a, x, [Num(b), Num(c)], [N(y), N(z)]);
    assert [Num(a)] + [Num(b), Num(c)] == [Num(a), Num(b), Num(c)];
    assert [N(x)] + [N(y), N(z)] == [N(x), N(y), N(z)];
  }

  lemma FitsPair(a: nat, x: nat, b: nat, y: nat)
    requires x < Pow256(a) && y < Pow256(b)
    ensures Fits([Num(a), Num(b)], [N(x), N(y)])
  {
    FitsOne(Num(a), N(x));
    FitsOne(Num(b), N(y));
    FitsTwo(Num(a), N(x), Num(b), N(y));
  }

  lemma FitsPairPadded(a: nat, x: nat, b: nat, y: nat, n: nat)
    requires x < Pow256(a) && y < Pow256(b)
    ensures Fits([Num(a), Num(b), Pad(n)], [N(x), N(y)])
  {
    FitsPair(a, x, b, y);
    FitsPad(n);
    FitsAppend([Num(a), Num(b)], [N(x), N(y)], [Pad(n)], []);
    assert [Num(a), Num(b)] + [Pad(n)] == [Num(a), Num(b), Pad(n)];
    assert [N(x), N(y)] + [] == [N(x), N(y)];
  }

  lemma FitsJoin(fs: seq<Field>, vs: seq<Val>, gs: seq<Field>, ws: seq<Val>, fgs: seq<Field>, vws: seq<Val>)
    requires Fits(fs, vs) && Fits(gs, ws) && fgs == fs + gs && vws == vs + ws
    ensures Fits(fgs, vws)
  {
    FitsAppend(fs, vs, gs, ws);
  }

  lemma MatchFits(x: Match)
    requires x.wildcards < 0x1_0000_0000 && x.inPort < 0x1_0000 && |x.dlSrc| == 6 && |x.dlDst| == 6
    requires x.dlVlan < 0x1_0000 && x.dlVlanPcp < 0x100 && x.dlType < 0x1_0000
    ensures Fits([Num(4), Num(2), Raw(6), Raw(6)], [N(x.wildcards), N(x.inPort), R(x.dlSrc), R(x.dlDst)])
    ensures Fits([Num(2), Num(1), Pad(1), Num(2)], [N(x.dlVlan), N(x.dlVlanPcp), N(x.dlType)])
  {
    Powers();
    FitsPair(4, x.wildcards, 2, x.inPort);
    FitsOne(Raw(6), R(x.dlSrc));
    FitsOne(Raw(6), R(x.dlDst));
    FitsTwo(Raw(6), R(x.dlSrc), Raw(6), R(x.dlDst));
    FitsJoin([Num(4), Num(2)], [N(x.wildcards), N(x.inPort)], [Raw(6), Raw(6)], [R(x.dlSrc), R(x.dlDst)],
             [Num(4), Num(2), Raw(6), Raw(6)], [N(x.wildcards), N(x.inPort), R(x.dlSrc), R(x.dlDst)]);
    FitsPairPadded(2, x.dlVlan, 1, x.dlVlanPcp, 1);
    FitsOne(Num(2), N(x.dlType));
    FitsJoin([Num(2), Num(1), Pad(1)], [N(x.dlVlan), N(x.dlVlanPcp)], [Num(2)], [N(x.dlType)],
             [Num(2), Num(1), Pad(1), Num(2)], [N(x.dlVlan), N(x.dlVlanPcp), N(x.dlType)]);
  }

  lemma TailFits(x: Header)
    requires x.durationSec < 0x1_0000_0000 && x.durationNsec < 0x1_0000_0000
    requires x.priority < 0x1_0000 && x.idleTimeout < 0x1_0000 && x.hardTimeout < 0x1_0000
    requires x.cookie < 0x1_0000_0000_0000_0000 && x.packetCount < 0x1_0000_0000_0000_0000
    requires x.byteCount < 0x1_0000_0000_0000_0000
    ensures Fits([Num(4), Num(4), Num(2), Num(2), Num(2)],
                 [N(x.durationSec), N(x.durationNsec), N(x.priority), N(x.idleTimeout), N(x.hardTimeout)])
    ensures Fits([Pad(6), Num(8), Num(8), Num(8)], [N(x.cookie), N(x.packetCount), N(x.byteCount)])
  {
    Powers();
    FitsPair(4, x.durationSec, 4, x.durationNsec);
    FitsThree(2, x.priority, 2, x.idleTimeout, 2, x.hardTimeout);
    FitsJoin([Num(4), Num(4)], [N(x.durationSec), N(x.durationNsec)],
             [Num(2), Num(2), Num(2)], [N(x.priority), N(x.idleTimeout), N(x.hardTimeout)],
             [Num(4), Num(4), Num(2), Num(2), Num(2)],
             [N(x.durationSec), N(x.durationNsec), N(x.priority), N(x.idleTimeout), N(x.hardTimeout)]);
    FitsPad(6);
    FitsThree(8, x.cookie, 8, x.packetCount, 8, x.byteCount);
    FitsJoin([Pad(6)], [], [Num(8), Num(8), Num(8)], [N(x.cookie), N(x.packetCount), N(x.byteCount)],
             [Pad(6), Num(8), Num(8), Num(8)], [N(x.cookie), N(x.packetCount), N(x.byteCount)]);
  }

  lemma HeaderFits(x: Header)
    requires ValidHeader(x)
    ensures Fits(FLOW_FIELDS, HeaderVals(x))
  {
    Powers();
    var m := x.flowMatch;
    TailFits(x);
    MatchFits(m);
    FitsPairPadded(2, x.length, 1, x.tableId, 1);
    FitsPairPadded(1, m.nwTos, 1, m.nwProto, 2);
    FitsPair(4, m.nwSrc, 4, m.nwDst);
    FitsPair(2, m.tpSrc, 2, m.tpDst);
    var f5: seq<Field>, v5 := [Num(4), Num(4), Num(2), Num(2)], [N(m.nwSrc), N(m.nwDst), N(m.tpSrc), N(m.tpDst)];
    FitsJoin([Num(4), Num(4)], [N(m.nwSrc), N(m.nwDst)], [Num(2), Num(2)], [N(m.tpSrc), N(m.tpDst)], f5, v5);
    var f6: seq<Field> := [Num(4), Num(4), Num(2), Num(2), Num(2)];
    var v6 := [N(x.durationSec), N(x.durationNsec), N(x.priority), N(x.idleTimeout), N(x.hardTimeout)];
    var f7: seq<Field>, v7 := [Pad(6), Num(8), Num(8), Num(8)], [N(x.cookie), N(x.packetCount), N(x.byteCount)];
    FitsAppend(f6, v6, f7, v7);
    FitsAppend(f5, v5, f6 + f7, v6 + v7);
    var f4: seq<Field>, v4 := [Num(1), Num(1), Pad(2)], [N(m.nwTos), N(m.nwProto)];
    FitsAppend(f4, v4, f5 + (f6 + f7), v5 + (v6 + v7));
    var f3: seq<Field>, v3 := [Num(2), Num(1), Pad(1), Num(2)], [N(m.dlVlan), N(m.dlVlanPcp), N(m.dlType)];
    FitsAppend(f3, v3, f4 + (f5 + (f6 + f7)), v4 + (v5 + (v6 + v7)));
    var f2: seq<Field> := [Num(4), Num(2), Raw(6), Raw(6)];
    var v2 := [N(m.wildcards), N(m.inPort), R(m.dlSrc), R(m.dlDst)];
    FitsAppend(f2, v2, f3 + (f4 + (f5 + (f6 + f7))), v3 + (v4 + (v5 + (v6 + v7))));
    FitsAppend([Num(2), Num(1), Pad(1)], [N(x.length), N(x.tableId)],
               f2 + (f3 + (f4 + (f5 + (f6 + f7)))), v2 + (v3 + (v4 + (v5 + (v6 + v7)))));
  }

  // ------------------------------------------------------------------ records

  /** A complete record in order `o`: the length field counts its bytes and the rest is a
      list of actions whose lengths add up. */
  predicate GoodRecord(o: Order, bs: Bytes) {
    && |bs| >= FLOW_STATS_HEADER
    && Value(o, bs[..2]) == |bs|
    && WellFormed(o, bs[FLOW_STATS_HEADER..])
  }

  function ConvHeader(h: Order, bs: Bytes): (r: Bytes)
    requires |bs| == FLOW_STATS_HEADER
    ensures |r| == |bs|
  {
    FlowFieldsSize();
    Conv(h, FLOW_FIELDS, bs, bs)
  }

  function ConvRecord(h: Order, o: Order, bs: Bytes): (r: Bytes)
    requires GoodRecord(o, bs)
    ensures |r| == |bs|
  {
    ConvHeader(h, bs[..FLOW_STATS_HEADER]) + ConvActions(h, o, bs[FLOW_STATS_HEADER..])
  }

  /** The record with every padding byte, of header and actions, set to zero. */
  function ZeroRecord(o: Order, bs: Bytes): (r: Bytes)
    requires GoodRecord(o, bs)
    ensures |r| == |bs|
  {
    FlowFieldsSize();
    ZeroPadding(FLOW_FIELDS, bs[..FLOW_STATS_HEADER]) + ZeroActions(o, bs[FLOW_STATS_HEADER..])
  }

  function DecodeHeader(o: Order, bs: Bytes): Header
    requires |bs| == FLOW_STATS_HEADER
  {
    FlowFieldsSize();
    HeaderOf(Values(o, FLOW_FIELDS, bs))
  }

  function DecodeRecord(o: Order, bs: Bytes): Entry
    requires GoodRecord(o, bs)
  {
    Entry(DecodeHeader(o, bs[..FLOW_STATS_HEADER]), DecodeActions(o, bs[FLOW_STATS_HEADER..]))
  }

  /** The header length counts the record. */
  ghost predicate ValidEntry(x: Entry) {
    && ValidHeader(x.header) && ValidActions(x.actions)
    && x.header.length == FLOW_STATS_HEADER + |EncActions(Big, x.actions)|
  }

  ghost function EncHeader(o: Order, x: Header): (bs: Bytes)
    requires ValidHeader(x)
    ensures |bs| == FLOW_STATS_HEADER
  {
    FlowFieldsSize();
    HeaderFits(x);
    Enc(o, FLOW_FIELDS, HeaderVals(x))
  }

  ghost function EncRecord(o: Order, x: Entry): Bytes
    requires ValidEntry(x)
  {
    EncHeader(o, x.header) + EncActions(o, x.actions)
  }

  /** The length field is the first number of the header. */
  lemma ConvHeaderLength(h: Order, bs: Bytes)
    requires |bs| == FLOW_STATS_HEADER
    ensures ConvHeader(h, bs)[..2] == Flip(h, bs[..2])
  {
    FlowFieldsSize();
    assert FLOW_FIELDS[0] == Num(2);
  }

  lemma ConvKeepsRecord(h: Order, o: Order, o': Order, bs: Bytes)
    requires GoodRecord(o, bs) && Opposite(h, o, o')
    ensures GoodRecord(o', ConvRecord(h, o, bs))
    ensures var r := ConvRecord(h, o, bs);
      && r[..FLOW_STATS_HEADER] == ConvHeader(h, bs[..FLOW_STATS_HEADER])
      && r[FLOW_STATS_HEADER..] == ConvActions(h, o, bs[FLOW_STATS_HEADER..])
  {
    var head, acts := bs[..FLOW_STATS_HEADER], bs[FLOW_STATS_HEADER..];
    var r := ConvRecord(h, o, bs);
    ConvActionsMeaning(h, o, o', acts);
    ConvHeaderLength(h, head);
    assert r[..FLOW_STATS_HEADER] == ConvHeader(h, head) && r[FLOW_STATS_HEADER..] == ConvActions(h, o, acts);
    assert r[..2] == ConvHeader(h, head)[..2] && head[..2] == bs[..2];
    FlipChangesOrder(h, bs[..2]);
  }

  /** Converting and converting back gives the record with its padding zeroed, in either
      direction and on either kind of host. */
  lemma RecordThereAndBack(h: Order, o: Order, o': Order, bs: Bytes)
    requires GoodRecord(o, bs) && Opposite(h, o, o')
    ensures GoodRecord(o', ConvRecord(h, o, bs))
    ensures ConvRecord(h, o', ConvRecord(h, o, bs)) == ZeroRecord(o, bs)
  {
    var head, acts := bs[..FLOW_STATS_HEADER], bs[FLOW_STATS_HEADER..];
    ConvKeepsRecord(h, o, o', bs);
    ActionsThereAndBack(h, o, o', acts);
    FlowFieldsSize();
    ConvTwice(h, FLOW_FIELDS, head, ConvHeader(h, head), head);
  }

  /** Conversion keeps every field and every action. */
  lemma ConvKeepsMeaning(h: Order, o: Order, o': Order, bs: Bytes)
    requires GoodRecord(o, bs) && Opposite(h, o, o')
    ensures GoodRecord(o', ConvRecord(h, o, bs))
    ensures DecodeRecord(o', ConvRecord(h, o, bs)) == DecodeRecord(o, bs)
  {
    var head, acts := bs[..FLOW_STATS_HEADER], bs[FLOW_STATS_HEADER..];
    ConvKeepsRecord(h, o, o', bs);
    ConvActionsMeaning(h, o, o', acts);
    FlowFieldsSize();
    ConvKeepsValues(h, FLOW_FIELDS, head, head);
  }

  lemma {:induction false} EncActionsLength(o: Order, acts: seq<Action>)
    requires ValidActions(acts)
    ensures |EncActions(o, acts)| == |EncActions(Big, acts)|
  {
    if acts != [] { EncActionsLength(o, acts[1..]); }
  }

  lemma EncRecordParts(o: Order, x: Entry)
    requires ValidEntry(x)
    ensures Fits(FLOW_FIELDS, HeaderVals(x.header)) && |EncRecord(o, x)| == x.header.length
    ensures GoodRecord(o, EncRecord(o, x))
    ensures EncRecord(o, x)[..FLOW_STATS_HEADER] == EncHeader(o, x.header)
    ensures EncRecord(o, x)[FLOW_STATS_HEADER..] == EncActions(o, x.actions)
  {
    FlowFieldsSize();
    HeaderFits(x.header);
    EncActionsLength(o, x.actions);
    DecodeEncActions(o, x.actions);
    var vs := HeaderVals(x.header);
    var e := Enc(o, FLOW_FIELDS, vs);
    assert FLOW_FIELDS[0] == Num(2) && vs[0] == N(x.header.length);
    assert e[..2] == BytesOf(o, 2, x.header.length);
    assert EncRecord(o, x)[..2] == e[..2];
    Powers();
    ValueOfBytes(o, 2, x.header.length);
  }

  lemma DecodeEncRecord(o: Order, x: Entry)
    requires ValidEntry(x)
    ensures GoodRecord(o, EncRecord(o, x)) && DecodeRecord(o, EncRecord(o, x)) == x
  {
    EncRecordParts(o, x);
    ValuesOfEnc(o, FLOW_FIELDS, HeaderVals(x.header));
    HeaderOfVals(x.header);
    DecodeEncActions(o, x.actions);
  }

  lemma ConvEncHeader(h: Order, o: Order, o': Order, x: Header)
    requires ValidHeader(x) && Opposite(h, o, o')
    ensures ConvHeader(h, EncHeader(o, x)) == EncHeader(o', x)
  {
    FlowFieldsSize();
    HeaderFits(x);
    ConvOfEnc(h, FLOW_FIELDS, HeaderVals(x), EncHeader(o, x), o, o');
  }

  /** Conversion takes the network form of an entry to its host form, byte for byte, and back. */
  lemma ConvEncRecord(h: Order, o: Order, o': Order, x: Entry)
    requires ValidEntry(x) && Opposite(h, o, o')
    ensures GoodRecord(o, EncRecord(o, x)) && ConvRecord(h, o, EncRecord(o, x)) == EncRecord(o', x)
  {
    EncRecordParts(o, x);
    ConvEncHeader(h, o, o', x.header);
    ConvEncActions(h, o, o', x.actions);
  }
}
