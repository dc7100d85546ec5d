/**
  The actions of a flow: what the bytes of one action mean, as get_action of
  ruby/trema/stats-reply.c reads them, how an action is written down, and that conversion keeps
  its meaning.
*/
module FlowStatsMeaning {
  import opened ByteFields
  import opened FlowStats

  datatype Action =
    | Output(port: nat, maxLen: nat)
    | SetVlanVid(vid: nat)
    | SetVlanPcp(pcp: nat)
    | StripVlan
    | SetDlSrc(mac: Bytes)
    | SetDlDst(mac: Bytes)
    | SetNwSrc(addr: nat)
    | SetNwDst(addr: nat)
    | SetNwTos(tos: nat)
    | SetTpSrc(tpPort: nat)
    | SetTpDst(tpPort: nat)
    | Enqueue(port: nat, queueId: nat)
    | Vendor(vendor: nat, data: Bytes)

  datatype Match = Match(
    wildcards: nat, inPort: nat, dlSrc: Bytes, dlDst: Bytes, dlVlan: nat, dlVlanPcp: nat, dlType: nat,
    nwTos: nat, nwProto: nat, nwSrc: nat, nwDst: nat, tpSrc: nat, tpDst: nat)

  datatype Header = Header(
    length: nat, tableId: nat, flowMatch: Match, durationSec: nat, durationNsec: nat, priority: nat,
    idleTimeout: nat, hardTimeout: nat, cookie: nat, packetCount: nat, byteCount: nat)

  datatype Entry = Entry(header: Header, actions: seq<Action>)

  // --------------------------------------------------------------- one action

  function NumAt(vs: seq<Val>, k: nat): nat {
    if k < |vs| && vs[k].N? then vs[k].n else 0
  }

  function RawAt(vs: seq<Val>, k: nat): Bytes {
    if k < |vs| && vs[k].R? then vs[k].bytes else []
  }

  /** get_action of ruby/trema/stats-reply.c: one object per action type, from its fields. */
  function ActionOf(t: nat, vs: seq<Val>): Action
    requires KnownType(t)
  {
    if t == 0 then Output(NumAt(vs, 2), NumAt(vs, 3))
    else if t == 1 then SetVlanVid(NumAt(vs, 2))
    else if t == 2 then SetVlanPcp(NumAt(vs, 2))
    else if t == 3 then StripVlan
    else if t == 4 then SetDlSrc(RawAt(vs, 2))
    else if t == 5 then SetDlDst(RawAt(vs, 2))
    else if t == 6 then SetNwSrc(NumAt(vs, 2))
    else if t == 7 then SetNwDst(NumAt(vs, 2))
    else if t == 8 then SetNwTos(NumAt(vs, 2))
    else if t == 9 then SetTpSrc(NumAt(vs, 2))
    else if t == 10 then SetTpDst(NumAt(vs, 2))
    else if t == 11 then Enqueue(NumAt(vs, 2), NumAt(vs, 3))
    else Vendor(NumAt(vs, 2), RawAt(vs, 3))
  }

  function ActionType(a: Action): (t: nat)
    ensures KnownType(t)
  {
    match a
    case Output(_, _) => 0
    case SetVlanVid(_) => 1
    case SetVlanPcp(_) => 2
    case StripVlan => 3
    case SetDlSrc(_) => 4
    case SetDlDst(_) => 5
    case SetNwSrc(_) => 6
    case SetNwDst(_) => 7
    case SetNwTos(_) => 8
    case SetTpSrc(_) => 9
    case SetTpDst(_) => 10
    case Enqueue(_, _) => 11
    case Vendor(_, _) => VENDOR
  }

  function ActionLen(a: Action): nat {
    if a.Vendor? then 8 + |a.data|
    else if a.SetDlSrc? || a.SetDlDst? || a.Enqueue? then 16
    else 8
  }

  function ActionArgs(a: Action): seq<Val> {
    match a
    case Output(p, m) => [N(p), N(m)]
    case SetVlanVid(v) => [N(v)]
    case SetVlanPcp(v) => [N(v)]
    case StripVlan => []
    case SetDlSrc(m) => [R(m)]
    case SetDlDst(m) => [R(m)]
    case SetNwSrc(x) => [N(x)]
    case SetNwDst(x) => [N(x)]
    case SetNwTos(x) => [N(x)]
    case SetTpSrc(p) => [N(p)]
    case SetTpDst(p) => [N(p)]
    case Enqueue(p, q) => [N(p), N(q)]
    case Vendor(v, d) => [N(v), R(d)]
  }

  function ActionVals(a: Action): seq<Val> {
    [N(ActionType(a)), N(ActionLen(a))] + ActionArgs(a)
  }

  /** The arguments fit their fields on the wire. */
  predicate ValidAction(a: Action) {
    match a
    case Output(p, m) => p < 0x1_0000 && m < 0x1_0000
    case SetVlanVid(v) => v < 0x1_0000
    case SetVlanPcp(v) => v < 0x100
    case StripVlan => true
    case SetDlSrc(m) => |m| == 6
    case SetDlDst(m) => |m| == 6
    case SetNwSrc(x) => x < 0x1_0000_0000
    case SetNwDst(x) => x < 0x1_0000_0000
    case SetNwTos(x) => x < 0x100
    case SetTpSrc(p) => p < 0x1_0000
    case SetTpDst(p) => p < 0x1_0000
    case Enqueue(p, q) => p < 0x1_0000 && q < 0x1_0000_0000
    case Vendor(v, d) => v < 0x1_0000_0000 && |d| % 8 == 0 && 8 + |d| < 0x1_0000
  }

  /** Two leading numbers, then the rest. */
  lemma {:induction false} FitsLeading(fs: seq<Field>, vs: seq<Val>)
    requires |fs| >= 2 && fs[0] == Num(2) && fs[1] == Num(2)
    requires |vs| >= 2 && vs[0].N? && vs[1].N? && vs[0].n < 0x1_0000 && vs[1].n < 0x1_0000
    requires Fits(fs[2..], vs[2..])
    ensures Fits(fs, vs)
  {
    Powers();
    assert fs[1..][1..] == fs[2..] && vs[1..][1..] == vs[2..];
  }

  lemma {:induction false} FitsAppend(fs: seq<Field>, vs: seq<Val>, gs: seq<Field>, ws: seq<Val>)
    requires Fits(fs, vs) && Fits(gs, ws)
    ensures Fits(fs + gs, vs + ws)
    decreases |fs|
  {
    if fs == [] {
      assert fs + gs == gs && vs + ws == ws;
    } else {
      assert (fs + gs)[1..] == fs[1..] + gs;
      if fs[0].Num? || fs[0].Raw? {
        FitsAppend(fs[1..], vs[1..], gs, ws);
        assert (vs + ws)[1..] == vs[1..] + ws;
      } else {
        FitsAppend(fs[1..], vs, gs, ws);
      }
    }
  }

  lemma FitsOne(f: Field, v: Val)
    requires (f.Num? && v.N? && v.n < Pow256(f.width)) || (f.Raw? && v.R? && |v.bytes| == f.width)
    ensures Fits([f], [v])
  {
  }

  lemma FitsPad(n: nat)
    ensures Fits([Pad(n)], [])
  {
  }

  lemma FitsTwo(f: Field, v: Val, g: Field, w: Val)
    requires Fits([f], [v]) && Fits([g], [w])
    ensures Fits([f, g], [v, w])
  {
    FitsAppend([f], [v], [g], [w]);
    assert [f] + [g] == [f, g] && [v] + [w] == [v, w];
  }

  lemma FitsPadded(f: Field, v: Val, n: nat)
    requires Fits([f], [v])
    ensures Fits([f, Pad(n)], [v])
  {
    FitsPad(n);
    FitsAppend([f], [v], [Pad(n)], []);
    assert [f] + [Pad(n)] == [f, Pad(n)] && [v] + [] == [v];
  }

  function ArgFields(a: Action): seq<Field> {
    match a
    case Output(_, _) => [Num(2), Num(2)]
    case SetVlanVid(_) => [Num(2), Pad(2)]
    case SetVlanPcp(_) => [Num(1), Pad(3)]
    case StripVlan => [Pad(4)]
    case SetDlSrc(_) => [Raw(6), Pad(6)]
    case SetDlDst(_) => [Raw(6), Pad(6)]
    case SetNwSrc(_) => [Num(4)]
    case SetNwDst(_) => [Num(4)]
    case SetNwTos(_) => [Num(1), Pad(3)]
    case SetTpSrc(_) => [Num(2), Pad(2)]
    case SetTpDst(_) => [Num(2), Pad(2)]
    case Enqueue(_, _) => [Num(2), Pad(6), Num(4)]
    case Vendor(_, d) => [Num(4), Raw(|d|)]
  }

  lemma ArgsFit(a: Action)
    requires ValidAction(a)
    ensures Fits(ArgFields(a), ActionArgs(a))
  {
    Powers();
    match a
    case Output(p, m) =>
      FitsOne(Num(2), N(p));
      FitsOne(Num(2), N(m));
      FitsTwo(Num(2), N(p), Num(2), N(m));
    case SetVlanVid(v) => FitsPadded(Num(2), N(v), 2);
    case SetVlanPcp(v) => FitsPadded(Num(1), N(v), 3);
    case StripVlan => FitsPad(4);
    case SetDlSrc(m) => FitsPadded(Raw(6), R(m), 6);
    case SetDlDst(m) => FitsPadded(Raw(6), R(m), 6);
    case SetNwSrc(x) => FitsOne(Num(4), N(x));
    case SetNwDst(x) => FitsOne(Num(4), N(x));
    case SetNwTos(x) => FitsPadded(Num(1), N(x), 3);
    case SetTpSrc(p) => FitsPadded(Num(2), N(p), 2);
    case SetTpDst(p) => FitsPadded(Num(2), N(p), 2);
    case Enqueue(p, q) =>
      FitsPadded(Num(2), N(p), 6);
      FitsOne(Num(4), N(q));
      FitsAppend([Num(2), Pad(6)], [N(p)], [Num(4)], [N(q)]);
      assert [Num(2), Pad(6)] + [Num(4)] == [Num(2), Pad(6), Num(4)];
      assert [N(p)] + [N(q)] == [N(p), N(q)];
    case Vendor(v, d) =>
      FitsOne(Num(4), N(v));
      FitsOne(Raw(|d|), R(d));
      FitsTwo(Num(4), N(v), Raw(|d|), R(d));
  }

  lemma {:induction false} ActionFits(a: Action)
    requires ValidAction(a)
    ensures LengthFits(ActionType(a), ActionLen(a)) && ActionLen(a) < 0x1_0000
    ensures Fits(ActionFields(ActionType(a), ActionLen(a)), ActionVals(a))
  {
    var fs := ActionFields(ActionType(a), ActionLen(a));
    var vs := ActionVals(a);
    ArgsFit(a);
    assert fs[2..] == ArgFields(a);
    assert vs[2..] == ActionArgs(a);
    FitsLeading(fs, vs);
  }

  function EncAction(o: Order, a: Action): (bs: Bytes)
    requires ValidAction(a)
    ensures |bs| == ActionLen(a)
  {
    ActionFits(a);
    Enc(o, ActionFields(ActionType(a), ActionLen(a)), ActionVals(a))
  }

  function DecodeAction(o: Order, bs: Bytes): Action
    requires GoodHead(o, bs)
  {
    var n := LenOf(o, bs);
    ActionOf(TypeOf(o, bs), Values(o, ActionFields(TypeOf(o, bs), n), bs[..n]))
  }

  lemma EncLeading(o: Order, fs: seq<Field>, vs: seq<Val>)
    requires Fits(fs, vs) && |fs| >= 2 && fs[0] == Num(2) && fs[1] == Num(2)
    ensures |Enc(o, fs, vs)| >= 4 && |vs| >= 2 && vs[0].N? && vs[1].N?
    ensures Value(o, Enc(o, fs, vs)[..2]) == vs[0].n
    ensures Value(o, Enc(o, fs, vs)[2..4]) == vs[1].n
  {
    var e := Enc(o, fs, vs);
    var e1 := Enc(o, fs[1..], vs[1..]);
    assert e == BytesOf(o, 2, vs[0].n) + e1;
    assert e1[..2] == BytesOf(o, 2, vs[1].n);
    assert e[..2] == BytesOf(o, 2, vs[0].n) && e[2..4] == e1[..2];
    ValueOfBytes(o, 2, vs[0].n);
    ValueOfBytes(o, 2, vs[1].n);
  }

  /** The bytes `EncAction` starts with say what it is. */
  lemma EncActionHead(o: Order, a: Action, rest: Bytes)
    requires ValidAction(a)
    ensures var bs := EncAction(o, a) + rest;
      GoodHead(o, bs) && LenOf(o, bs) == ActionLen(a) && TypeOf(o, bs) == ActionType(a)
  {
    ActionFits(a);
    var e := EncAction(o, a);
    EncLeading(o, ActionFields(ActionType(a), ActionLen(a)), ActionVals(a));
    SliceFirst(e, rest, 0, 2);
    SliceFirst(e, rest, 2, 4);
  }

  lemma ActionOfVals(a: Action)
    ensures ActionOf(ActionType(a), ActionVals(a)) == a
  {
    var vs := ActionVals(a);
    var ws := ActionArgs(a);
    assert |ws| > 0 ==> vs[2] == ws[0];
    assert |ws| > 1 ==> vs[3] == ws[1];
  }

  /** An encoded action is read back, whatever follows it. */
  lemma DecodeEncAction(o: Order, a: Action, rest: Bytes)
    requires ValidAction(a)
    ensures GoodHead(o, EncAction(o, a) + rest) && DecodeAction(o, EncAction(o, a) + rest) == a
  {
    EncActionHead(o, a, rest);
    ActionFits(a);
    var e := EncAction(o, a);
    assert (e + rest)[..|e|] == e;
    ValuesOfEnc(o, ActionFields(ActionType(a), ActionLen(a)), ActionVals(a));
    ActionOfVals(a);
  }

  /** Conversion keeps the meaning of one action. */
  lemma ConvActionMeaning(h: Order, o: Order, o': Order, bs: Bytes, rest: Bytes)
    requires GoodHead(o, bs) && Opposite(h, o, o')
    ensures var r := ConvAction(h, o, bs) + rest;
      GoodHead(o', r) && LenOf(o', r) == LenOf(o, bs) && DecodeAction(o', r) == DecodeAction(o, bs)
  {
    var n := LenOf(o, bs);
    var fs := ActionFields(TypeOf(o, bs), n);
    var c := ConvAction(h, o, bs);
    ConvKeepsHead(h, o, o', bs, rest);
    ConvKeepsValues(h, fs, bs[..n], bs[..n]);
    assert (c + rest)[..n] == c;
  }
}
