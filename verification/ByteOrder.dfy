/**
  src/lib/byteorder.c on byte arrays: the cursor loops over variable-length flow-stats
  records.  `dst` and `src` may be the same array, as the source allows.
*/
module ByteOrder {
  import opened ByteFields
  import opened FlowStats
  import opened FlowStatsRecords

  method ReadU16(o: Order, a: array<Byte>, i: nat) returns (v: nat)
    requires i + 2 <= a.Length
    ensures v == Value(o, a[i..i + 2]) && v < 0x1_0000
  {
    ghost var bs := a[i..i + 2];
    Value16(o, bs);
    assert bs[0] == a[i] && bs[1] == a[i + 1];
    v := if o == Big then 256 * (a[i] as int) + a[i + 1] as int else 256 * (a[i + 1] as int) + a[i] as int;
  }

  method WriteBytes(dst: array<Byte>, d: nat, bs: Bytes)
    requires d + |bs| <= dst.Length
    modifies dst
    ensures dst[..d] == old(dst[..d])
    ensures dst[d..d + |bs|] == bs
    ensures dst[d + |bs|..] == old(dst[d + |bs|..])
  {
    forall k | 0 <= k < |bs| { dst[d + k] := bs[k]; }
  }

  /** What is unchanged from `m` on is unchanged in every part behind `m`. */
  lemma SplitBehind(a: Bytes, b: Bytes, m: nat, n: nat)
    requires |a| == |b| && m <= n <= |a| && a[m..] == b[m..]
    ensures a[m..n] == b[m..n] && a[n..] == b[n..]
  {
    assert a[m..n] == a[m..][..n - m] && b[m..n] == b[m..][..n - m];
    assert a[n..] == a[m..][n - m..] && b[n..] == b[m..][n - m..];
  }

  /** memcpy into a private block, as every variable-length conversion starts. */
  method PrivateCopy(src: array<Byte>, s: nat, n: nat) returns (fs: array<Byte>)
    requires s + n <= src.Length
    ensures fresh(fs) && fs.Length == n && fs[..] == src[s..s + n]
  {
    fs := new Byte[n];
    forall k | 0 <= k < n { fs[k] := src[s + k]; }
  }

  lemma OverwrittenBytes(before: Bytes, after: Bytes, d: nat, e: nat, c: Bytes)
    requires |before| == |after| && d + |c| <= e <= |before|
    requires after[..d] == before[..d] && after[d..d + |c|] == c && after[d + |c|..] == before[d + |c|..]
    ensures after[d..e] == c + before[d..e][|c|..] && after[e..] == before[e..]
  {
    SplitBehind(before, after, d + |c|, e);
    assert after[d..e] == after[d..d + |c|] + after[d + |c|..e];
  }

  /** ntoh_action and hton_action: convert the action at the head of `from` into `dst` at `d`, inside
      the record that ends at `end`.  `o` is the order of the source; an undefined type is fatal. */
  method ConvertAction(h: Order, o: Order, dst: array<Byte>, d: nat, end: nat, src: array<Byte>, s: nat,
                       ghost into: Bytes, ghost from: Bytes)
    returns (died: bool)
    requires dst != src && d <= end <= dst.Length && into == dst[d..end] && s <= src.Length && from == src[s..]
    requires |into| == |from| >= ACTION_HEADER && Walk(h, o, into, from) != Strayed
    modifies dst
    ensures died <==> !KnownType(TypeOf(o, from))
    ensures !died ==>
      && CanStep(o, from)
      && dst[..d] == old(dst[..d])
      && dst[d..end] == Overwritten(h, o, into, from)
      && dst[end..] == old(dst[end..])
  {
    hide Value, ActionFields, Conv, Size;
    assert from[..2] == src[s..s + 2] && from[2..4] == src[s + 2..s + 4];
    var t := ReadU16(o, src, s);
    if !KnownType(t) {
      return true;
    }
    var len := ReadU16(o, src, s + 2);
    var n := StructSize(t, len);
    var action := src[s..s + n];
    assert action == from[..n];
    ghost var before := dst[..];
    var c := Conv(h, ActionFields(t, n), action, action);
    WriteBytes(dst, d, c);
    assert before[d..end] == into;
    OverwrittenBytes(before, dst[..], d, end, c);
    return false;
  }

  /** The first numbers of the structure just written are type and length in the other order. */
  lemma StructHead(h: Order, o: Order, o': Order, into: Bytes, from: Bytes)
    requires CanStep(o, from) && |into| == |from| && Opposite(h, o, o')
    ensures Value(o', Overwritten(h, o, into, from)[2..4]) == LenOf(o, from)
  {
    hide Value, Conv, ActionFields, Size;
    var c := ConvStruct(h, o, from);
    var t := TypeOf(o, from);
    var n := |c|;
    ConvLeadingNumbers(h, ActionFields(t, n), from[..n], from[..n]);
    assert from[..n][2..4] == from[2..4];
    assert Overwritten(h, o, into, from)[2..4] == c[2..4];
    FlipChangesOrder(h, from[2..4]);
  }

  /** The length field of the action just converted: ntoh reads it from the destination, in
      host order; hton reads it from the private copy. */
  method NextLength(h: Order, o: Order, fromDst: bool, dst: array<Byte>, d: nat, end: nat, fs: array<Byte>, at: nat,
                    ghost into: Bytes, ghost from: Bytes)
    returns (len: nat)
    requires at <= fs.Length && from == fs[at..] && CanStep(o, from) && |into| == |from|
    requires d <= end <= dst.Length && dst[d..end] == Overwritten(h, o, into, from)
    requires o == if fromDst then Big else h
    ensures len == LenOf(o, from)
  {
    hide Value, Overwritten, TypeOf;
    if fromDst {
      len := ReadU16(h, dst, d + 2);
      StructHead(h, o, h, into, from);
      assert dst[d..end][2..4] == dst[d + 2..d + 4];
    } else {
      len := ReadU16(h, fs, at + 2);
      assert from[2..4] == fs[at + 2..at + 4];
    }
  }

  /** What the bytes from the start of the record will be, once the rest is walked too. */
  ghost function Goal(h: Order, o: Order, written: Bytes, into: Bytes, from: Bytes): Walked
    requires |into| == |from|
  {
    Prepend(written, Walk(h, o, into, from))
  }

  lemma GoalStep(h: Order, o: Order, written: Bytes, into: Bytes, from: Bytes, written': Bytes, into': Bytes)
    requires |into| == |from| && CanStep(o, from)
    requires written' == written + Overwritten(h, o, into, from)[..LenOf(o, from)]
    requires into' == Overwritten(h, o, into, from)[LenOf(o, from)..]
    ensures Goal(h, o, written', into', from[LenOf(o, from)..]) == Goal(h, o, written, into, from)
    ensures Walk(h, o, into, from) != Strayed ==> Walk(h, o, into', from[LenOf(o, from)..]) != Strayed
  {
    hide Value, TypeOf, LenOf, Overwritten;
    var n := LenOf(o, from);
    var front := Overwritten(h, o, into, from)[..n];
    var w := Walk(h, o, into', from[n..]);
    if w.Written? {
      assert (written + front) + w.bytes == written + (front + w.bytes);
    }
  }

  /** One round of the cursor loop: the goal stays, and less is left. */
  method ConvertNext(h: Order, o: Order, fromDst: bool, dst: array<Byte>, start: nat, d: nat, end: nat,
                     fs: array<Byte>, at: nat, ghost into: Bytes, ghost from: Bytes)
    returns (died: bool, len: nat)
    requires dst != fs && start <= d <= end <= dst.Length && into == dst[d..end] && at <= fs.Length && from == fs[at..]
    requires |into| == |from| >= ACTION_HEADER && Walk(h, o, into, from) != Strayed
    requires o == if fromDst then Big else h
    modifies dst
    ensures died ==> Walk(h, o, into, from) == Died
    ensures !died ==>
      && 0 < len <= |from|
      && Walk(h, o, dst[d + len..end], from[len..]) != Strayed
      && Goal(h, o, dst[start..d + len], dst[d + len..end], from[len..]) == Goal(h, o, old(dst[start..d]), into, from)
      && dst[..start] == old(dst[..start]) && dst[end..] == old(dst[end..])
  {
    hide Value, ActionFields, Conv, LenOf, TypeOf, Walk, Goal, Overwritten;
    len := 0;
    ghost var before, written := dst[..d], dst[start..d];
    died := ConvertAction(h, o, dst, d, end, fs, at, into, from);
    WalkDies(h, o, into, from);
    if !died {
      len := NextLength(h, o, fromDst, dst, d, end, fs, at, into, from);
      assert dst[..start] == dst[..d][..start] && before[..start] == old(dst[..start]);
      assert dst[start..d] == dst[..d][start..] && before[start..] == written;
      assert dst[start..d + len] == written + dst[d..end][..len];
      assert dst[d + len..end] == dst[d..end][len..];
      StepFits(o, from);
      GoalStep(h, o, written, into, from, dst[start..d + len], dst[d + len..end]);
    }
  }

  lemma StepFits(o: Order, from: Bytes)
    requires CanStep(o, from)
    ensures 0 < LenOf(o, from) <= |from|
  {
  }

  lemma WalkDies(h: Order, o: Order, into: Bytes, from: Bytes)
    requires |into| == |from| >= ACTION_HEADER
    ensures !KnownType(TypeOf(o, from)) ==> Walk(h, o, into, from) == Died
  {
  }

  lemma GoalReached(h: Order, o: Order, written: Bytes, into: Bytes, from: Bytes)
    requires |into| == |from| < ACTION_HEADER
    ensures Goal(h, o, written, into, from) == Written(written + into)
  {
  }

  lemma GoalSplit(h: Order, o: Order, written: Bytes, into: Bytes, from: Bytes)
    requires |into| == |from|
    ensures Goal(h, o, written, into, from) == Died <==> Walk(h, o, into, from) == Died
    ensures Goal(h, o, written, into, from).Written? <==> Walk(h, o, into, from).Written?
    ensures Walk(h, o, into, from).Written? ==>
          Goal(h, o, written, into, from).bytes == written + Walk(h, o, into, from).bytes
  {
  }

  /** The cursor loop over the actions of the private copy `fs`, into the record of `dst` that
      starts at `start`. */
  method ConvertActionList(h: Order, o: Order, fromDst: bool, dst: array<Byte>, start: nat, fs: array<Byte>)
    returns (died: bool)
    requires dst != fs && FLOW_STATS_HEADER <= fs.Length < 0x1_0000 && start + fs.Length <= dst.Length
    requires Walk(h, o, dst[start + FLOW_STATS_HEADER..start + fs.Length], fs[FLOW_STATS_HEADER..]) != Strayed
    requires o == if fromDst then Big else h
    modifies dst
    ensures var w := Walk(h, o, old(dst[start + FLOW_STATS_HEADER..start + fs.Length]), fs[FLOW_STATS_HEADER..]);
      && (died <==> w == Died)
      && (!died ==> w.Written? && dst[start..start + fs.Length] == old(dst[start..start + FLOW_STATS_HEADER]) + w.bytes)
    ensures !died ==> dst[..start] == old(dst[..start]) && dst[start + fs.Length..] == old(dst[start + fs.Length..])
  {
    hide Value, LenOf, TypeOf, Walk, Goal;
    var end := start + fs.Length;
    var at: nat := FLOW_STATS_HEADER;
    ghost var into, from := dst[start + at..end], fs[at..];
    ghost var goal := Goal(h, o, dst[start..start + at], into, from);
    GoalSplit(h, o, dst[start..start + at], into, from);
    var actionsLength: nat := U16(fs.Length - FLOW_STATS_HEADER);
    while actionsLength >= ACTION_HEADER
      invariant at + actionsLength == fs.Length
      invariant into == dst[start + at..end] && from == fs[at..] && Walk(h, o, into, from) != Strayed
      invariant Goal(h, o, dst[start..start + at], into, from) == goal
      invariant dst[..start] == old(dst[..start]) && dst[end..] == old(dst[end..])
      decreases actionsLength
    {
      var len;
      GoalSplit(h, o, dst[start..start + at], into, from);
      died, len := ConvertNext(h, o, fromDst, dst, start, start + at, end, fs, at, into, from);
      if died {
        return;
      }
      actionsLength := U16(actionsLength - len);
      into, from := dst[start + at + len..end], from[len..];
      at := at + len;
    }
    died := false;
    GoalReached(h, o, dst[start..start + at], into, from);
    assert dst[start..end] == dst[start..start + at] + into;
  }

  /** What converting the record `from` over the old bytes `into` gives. */
  ghost function Converted(h: Order, o: Order, into: Bytes, from: Bytes): Walked
    requires |into| == |from| >= FLOW_STATS_HEADER
  {
    Prepend(ConvHeader(h, from[..FLOW_STATS_HEADER]), Walk(h, o, into[FLOW_STATS_HEADER..], from[FLOW_STATS_HEADER..]))
  }

  /** For a well-formed record that is the converted record, whatever was there before: so it is
      the same in place and into separate memory. */
  lemma ConvertedWellFormed(h: Order, o: Order, into: Bytes, from: Bytes)
    requires |into| == |from| && GoodRecord(o, from)
    ensures Converted(h, o, into, from) == Written(ConvRecord(h, o, from))
  {
    WalkWellFormed(h, o, into[FLOW_STATS_HEADER..], from[FLOW_STATS_HEADER..]);
  }

  /** The common part of ntoh_flow_stats and hton_flow_stats: header fields, then actions. */
  method ConvertCopy(h: Order, o: Order, fromDst: bool, dst: array<Byte>, d: nat, fs: array<Byte>, ghost into: Bytes)
    returns (died: bool)
    requires dst != fs && FLOW_STATS_HEADER <= fs.Length < 0x1_0000 && d + fs.Length <= dst.Length
    requires into == dst[d..d + fs.Length] && Converted(h, o, into, fs[..]) != Strayed
    requires o == if fromDst then Big else h
    modifies dst
    ensures died <==> Converted(h, o, into, fs[..]) == Died
    ensures !died ==>
      && Converted(h, o, into, fs[..]).Written?
      && dst[d..d + fs.Length] == Converted(h, o, into, fs[..]).bytes
      && dst[..d] == old(dst[..d]) && dst[d + fs.Length..] == old(dst[d + fs.Length..])
  {
    hide Walk, ConvHeader;
    ghost var end := d + fs.Length;
    ghost var before := dst[..];
    var header := ConvHeader(h, fs[..FLOW_STATS_HEADER]);
    WriteBytes(dst, d, header);
    assert fs[..][..FLOW_STATS_HEADER] == fs[..FLOW_STATS_HEADER];
    assert fs[..][FLOW_STATS_HEADER..] == fs[FLOW_STATS_HEADER..];
    assert before[d..end] == into;
    OverwrittenBytes(before, dst[..], d, end, header);
    assert dst[d + FLOW_STATS_HEADER..end] == dst[..][d..end][FLOW_STATS_HEADER..];
    died := ConvertActionList(h, o, fromDst, dst, d, fs);
  }

  /** ntoh_flow_stats on the record at `s`, into `dst` at `d`.  The two may overlap in any way. */
  method NtohFlowStats(h: Order, dst: array<Byte>, d: nat, src: array<Byte>, s: nat, ghost size: nat)
    returns (died: bool)
    requires s + 2 <= src.Length && size == Value(Big, src[s..s + 2])
    requires FLOW_STATS_HEADER <= size && s + size <= src.Length && d + size <= dst.Length
    requires Converted(h, Big, dst[d..d + size], src[s..s + size]) != Strayed
    modifies dst
    ensures var w := Converted(h, Big, old(dst[d..d + size]), old(src[s..s + size]));
      && (died <==> w == Died)
      && (!died ==> w.Written? && dst[d..d + size] == w.bytes)
    ensures !died ==> dst[..d] == old(dst[..d]) && dst[d + size..] == old(dst[d + size..])
  {
    hide Converted, Value;
    var length := ReadU16(Big, src, s);
    var fs := PrivateCopy(src, s, length);
    died := ConvertCopy(h, Big, true, dst, d, fs, dst[d..d + size]);
  }

  /** hton_flow_stats: the same in the other direction. */
  method HtonFlowStats(h: Order, dst: array<Byte>, d: nat, src: array<Byte>, s: nat, ghost size: nat)
    returns (died: bool)
    requires s + 2 <= src.Length && size == Value(h, src[s..s + 2])
    requires FLOW_STATS_HEADER <= size && s + size <= src.Length && d + size <= dst.Length
    requires Converted(h, h, dst[d..d + size], src[s..s + size]) != Strayed
    modifies dst
    ensures var w := Converted(h, h, old(dst[d..d + size]), old(src[s..s + size]));
      && (died <==> w == Died)
      && (!died ==> w.Written? && dst[d..d + size] == w.bytes)
    ensures !died ==> dst[..d] == old(dst[..d]) && dst[d + size..] == old(dst[d + size..])
  {
    hide Converted, Value;
    var length := ReadU16(h, src, s);
    var fs := PrivateCopy(src, s, length);
    died := ConvertCopy(h, h, false, dst, d, fs, dst[d..d + size]);
  }
}
