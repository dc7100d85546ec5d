/**
  The OFPST_FLOW branch of handle_stats_reply in ruby/trema/stats-reply.c: a second walk,
  over host-order records, that turns a reply body into one entry per record with its list
  of actions.
*/
module StatsReply {
  import opened ByteFields
  import opened FlowStats
  import opened FlowStatsMeaning
  import opened FlowStatsRecords
  import opened FlowStatsLayout
  import opened Optional

  /** The first record of a body is complete and the rest is a body again. */
  predicate GoodFirst(o: Order, bs: Bytes) {
    && |bs| >= FLOW_STATS_HEADER
    && FLOW_STATS_HEADER <= Value(o, bs[..2]) <= |bs|
    && GoodRecord(o, bs[..Value(o, bs[..2])])
  }

  predicate GoodBody(o: Order, bs: Bytes)
    decreases |bs|
  {
    bs == [] || (GoodFirst(o, bs) && GoodBody(o, bs[Value(o, bs[..2])..]))
  }

  function ParseBody(o: Order, bs: Bytes): seq<Entry>
    requires GoodBody(o, bs)
    decreases |bs|
  {
    if bs == [] then []
    else
      var n := Value(o, bs[..2]);
      [DecodeRecord(o, bs[..n])] + ParseBody(o, bs[n..])
  }

  // ------------------------------------------------------- the walk over any bytes
  //
  // `mem` is the body from the cursor to its end.  Two counters of 16 bits decide when the loops
  // end; they are not bounds, and wrap around where a record or an action is longer than what
  // they have left.

  const COUNTER: nat := 0x1_0000

  /** An entry as the walk builds it: get_action gives nil for an undefined action type. */
  datatype Built = Built(header: Header, actions: seq<Option<Action>>)

  /** `Lost`: the walk reads behind the end of the body, or does not end. */
  datatype Outcome<T> = Lost | Got(items: seq<T>)

  function Push<T>(x: T, rest: Outcome<T>): Outcome<T> {
    if rest.Lost? then Lost else Got([x] + rest.items)
  }

  /** How much get_action reads: a vendor action always has its vendor id. */
  function ReadSize(t: nat, len: nat): nat {
    if t == VENDOR && len < ACTION_HEADER then ACTION_HEADER else StructSize(t, len)
  }

  predicate CanRead(h: Order, mem: Bytes) {
    && |mem| >= ACTION_HEADER
    && (KnownType(TypeOf(h, mem)) ==> ReadSize(TypeOf(h, mem), LenOf(h, mem)) <= |mem|)
  }

  /** get_action. */
  function ReadAction(h: Order, mem: Bytes): Option<Action>
    requires CanRead(h, mem)
  {
    var t := TypeOf(h, mem);
    if !KnownType(t) then None
    else
      var n := ReadSize(t, LenOf(h, mem));
      Some(ActionOf(t, Values(h, ActionFields(t, n), mem[..n])))
  }

  /** The inner loop, with `left` in its counter.  The cursor stays where it is once the counter
      has come to zero, and a length of zero would keep both for ever. */
  function ReadActions(h: Order, mem: Bytes, left: nat): Outcome<Option<Action>>
    decreases |mem|
  {
    if left == 0 then Got([])
    else if !CanRead(h, mem) then Lost
    else
      var len := LenOf(h, mem);
      if U16(left - len) == 0 then Got([ReadAction(h, mem)])
      else if len == 0 || len > |mem| then Lost
      else Push(ReadAction(h, mem), ReadActions(h, mem[len..], U16(left - len)))
  }

  function RecordLength(h: Order, mem: Bytes): nat
    requires |mem| >= FLOW_STATS_HEADER
  {
    Value(h, mem[..2])
  }

  function ActionsOf(h: Order, mem: Bytes): Outcome<Option<Action>>
    requires |mem| >= FLOW_STATS_HEADER
  {
    ReadActions(h, mem[FLOW_STATS_HEADER..], U16(RecordLength(h, mem) - FLOW_STATS_HEADER))
  }

  predicate CanReadRecord(h: Order, mem: Bytes) {
    |mem| >= FLOW_STATS_HEADER && ActionsOf(h, mem).Got?
  }

  function ReadRecord(h: Order, mem: Bytes): Built
    requires CanReadRecord(h, mem)
  {
    Built(DecodeHeader(h, mem[..FLOW_STATS_HEADER]), ActionsOf(h, mem).items)
  }

  /** The outer loop, with `left` in its counter. */
  function ReadBody(h: Order, mem: Bytes, left: nat): Outcome<Built>
    decreases |mem|
  {
    if left == 0 then Got([])
    else if !CanReadRecord(h, mem) then Lost
    else
      var n := RecordLength(h, mem);
      if U16(left - n) == 0 then Got([ReadRecord(h, mem)])
      else if n == 0 || n > |mem| then Lost
      else Push(ReadRecord(h, mem), ReadBody(h, mem[n..], U16(left - n)))
  }

  /** What get_action reads, whatever length the action claims: the structure of its type, from the
      bytes at their places. */
  lemma ReadsByPosition(h: Order, mem: Bytes)
    requires CanRead(h, mem) && KnownType(TypeOf(h, mem))
    ensures var t, n := TypeOf(h, mem), ReadSize(TypeOf(h, mem), LenOf(h, mem));
      SizeFits(t, n) && ReadAction(h, mem) == Some(StructAt(h, t, mem[..n]))
  {
    hide Value, Values, ActionFields, ActionOf, StructAt;
    StructByPosition(h, TypeOf(h, mem), mem[..ReadSize(TypeOf(h, mem), LenOf(h, mem))]);
  }

  /** get_action gives nil exactly for a type that no action has. */
  lemma NilForUndefined(h: Order, mem: Bytes)
    requires CanRead(h, mem)
    ensures ReadAction(h, mem) == None <==> forall a: Action :: ActionType(a) != TypeOf(h, mem)
  {
    hide Value, Values, ActionFields, ActionOf;
    TypesOfActions(TypeOf(h, mem));
  }

  // ---------------------------------------------------------------- the loops

  method ReadLength(o: Order, bs: Bytes, i: nat) returns (v: nat)
    requires i + 2 <= |bs|
    ensures v == Value(o, bs[i..i + 2]) && v < 0x1_0000
  {
    Value16(o, bs[i..i + 2]);
    v := if o == Big then 256 * (bs[i] as int) + bs[i + 1] as int else 256 * (bs[i + 1] as int) + bs[i] as int;
  }

  lemma {:induction false} NextAction(h: Order, mem: Bytes, left: nat, done: seq<Option<Action>>)
    requires left > 0 && ReadActions(h, mem, left).Got?
    ensures CanRead(h, mem)
    ensures var len := LenOf(h, mem);
      var more := done + [ReadAction(h, mem)];
      var all := done + ReadActions(h, mem, left).items;
      if U16(left - len) == 0 then more == all
      else
        && 0 < len <= |mem|
        && var next := ReadActions(h, mem[len..], U16(left - len));
           next.Got? && more + next.items == all
  {
    hide Value, TypeOf, ReadAction;
    var len, x := LenOf(h, mem), ReadAction(h, mem);
    if U16(left - len) != 0 {
      var next := ReadActions(h, mem[len..], U16(left - len));
      assert next.Got? ==> (done + [x]) + next.items == done + ([x] + next.items);
    }
  }

  lemma NothingLeftToRead(h: Order, mem: Bytes)
    ensures ReadActions(h, mem, 0) == Got([]) && ReadBody(h, mem, 0) == Got([])
  {
  }

  /** The inner loop on the actions at the start of `mem`. */
  method WalkActions(h: Order, mem: Bytes, length: nat) returns (actions: seq<Option<Action>>)
    requires ReadActions(h, mem, length).Got? && length < COUNTER
    ensures actions == ReadActions(h, mem, length).items
  {
    hide Value, TypeOf, ReadAction, ReadActions, ReadBody;
    actions := [];
    var actionsLength: nat, ah: nat := length, 0;
    ghost var rest := mem;
    while actionsLength > 0
      invariant ah <= |mem| && rest == mem[ah..]
      invariant ReadActions(h, rest, actionsLength).Got?
      invariant actions + ReadActions(h, rest, actionsLength).items == ReadActions(h, mem, length).items
      decreases |mem| - ah, actionsLength
    {
      NextAction(h, rest, actionsLength, actions);
      var len := ReadLength(h, mem, ah + 2);
      assert rest[2..4] == mem[ah + 2..ah + 4];
      actions := actions + [ReadAction(h, mem[ah..])];
      actionsLength := U16(actionsLength - len);
      if actionsLength > 0 {
        ah := ah + len;
        rest := rest[len..];
      }
      NothingLeftToRead(h, rest);
    }
    NothingLeftToRead(h, rest);
  }

  /** One turn of the outer loop: the entry of the record at the cursor. */
  method ReadEntry(h: Order, mem: Bytes, length: nat) returns (entry: Built)
    requires CanReadRecord(h, mem) && length == RecordLength(h, mem)
    ensures entry == ReadRecord(h, mem)
  {
    hide Value, ReadActions;
    var actions := WalkActions(h, mem[FLOW_STATS_HEADER..], U16(length - FLOW_STATS_HEADER));
    entry := Built(DecodeHeader(h, mem[..FLOW_STATS_HEADER]), actions);
  }

  lemma {:induction false} NextRecord(h: Order, mem: Bytes, left: nat, done: seq<Built>)
    requires left > 0 && ReadBody(h, mem, left).Got?
    ensures CanReadRecord(h, mem)
    ensures var n := RecordLength(h, mem);
      var more := done + [ReadRecord(h, mem)];
      var all := done + ReadBody(h, mem, left).items;
      if U16(left - n) == 0 then more == all
      else
        && 0 < n <= |mem|
        && var next := ReadBody(h, mem[n..], U16(left - n));
           next.Got? && more + next.items == all
  {
    hide Value, ReadRecord, ReadActions;
    var n, x := RecordLength(h, mem), ReadRecord(h, mem);
    if U16(left - n) != 0 {
      var next := ReadBody(h, mem[n..], U16(left - n));
      assert next.Got? ==> (done + [x]) + next.items == done + ([x] + next.items);
    }
  }

  lemma RecordFits(h: Order, mem: Bytes)
    requires CanReadRecord(h, mem)
    ensures |mem| >= FLOW_STATS_HEADER && RecordLength(h, mem) == Value(h, mem[..2])
  {
  }

  /** The outer loop over the whole of `body`, with its length modulo 65536 in the counter. */
  method HandleFlowStats(h: Order, body: Bytes) returns (entries: seq<Built>)
    requires ReadBody(h, body, |body| % COUNTER).Got?
    ensures entries == ReadBody(h, body, |body| % COUNTER).items
  {
    hide Value, ReadRecord, ReadBody, ReadActions, CanReadRecord, RecordLength;
    entries := [];
    var bodyLength: nat, at: nat := U16(|body|), 0;
    ghost var rest := body;
    while bodyLength > 0
      invariant at <= |body| && rest == body[at..]
      invariant ReadBody(h, rest, bodyLength).Got?
      invariant entries + ReadBody(h, rest, bodyLength).items == ReadBody(h, body, |body| % COUNTER).items
      decreases |body| - at, bodyLength
    {
      NextRecord(h, rest, bodyLength, entries);
      RecordFits(h, rest);
      assert rest[..2] == body[at..at + 2];
      var length := ReadLength(h, body, at);
      var entry := ReadEntry(h, body[at..], length);
      entries := entries + [entry];
      bodyLength := U16(bodyLength - length);
      if bodyLength > 0 {
        at := at + length;
        rest := rest[length..];
      }
      NothingLeftToRead(h, rest);
    }
    NothingLeftToRead(h, rest);
  }

  // ------------------------------------------------- on well-formed bodies

  function Present<T>(xs: seq<T>): (r: seq<Option<T>>)
    ensures |r| == |xs|
  {
    seq(|xs|, k requires 0 <= k < |xs| => Some(xs[k]))
  }

  function BuiltFrom(x: Entry): Built {
    Built(x.header, Present(x.actions))
  }

  function AllBuilt(xs: seq<Entry>): (r: seq<Built>)
    ensures |r| == |xs|
  {
    seq(|xs|, k requires 0 <= k < |xs| => BuiltFrom(xs[k]))
  }

  lemma ReadsGoodHead(h: Order, bs: Bytes, behind: Bytes)
    requires GoodHead(h, bs)
    ensures CanRead(h, bs + behind) && LenOf(h, bs + behind) == LenOf(h, bs)
    ensures ReadAction(h, bs + behind) == Some(DecodeAction(h, bs))
  {
    hide Value, Values, ActionFields, ActionOf;
    var mem, n := bs + behind, LenOf(h, bs);
    assert mem[..2] == bs[..2] && mem[2..4] == bs[2..4] && mem[..n] == bs[..n];
  }

  /** As long as the counter does not wrap, it and the cursor move together. */
  lemma ReadActionsStep(h: Order, mem: Bytes, left: nat)
    requires CanRead(h, mem) && 0 < LenOf(h, mem) <= left < COUNTER && LenOf(h, mem) <= |mem|
    ensures ReadActions(h, mem, left)
            == Push(ReadAction(h, mem), ReadActions(h, mem[LenOf(h, mem)..], left - LenOf(h, mem)))
  {
    hide Value, TypeOf, ReadAction;
    assert [ReadAction(h, mem)] + [] == [ReadAction(h, mem)];
  }

  lemma NoActions(h: Order, mem: Bytes)
    ensures WellFormed(h, []) && DecodeActions(h, []) == [] && ReadActions(h, [] + mem, 0) == Got([])
  {
  }

  lemma WellFormedStep(h: Order, bs: Bytes)
    requires bs != [] && WellFormed(h, bs)
    ensures GoodHead(h, bs) && WellFormed(h, bs[LenOf(h, bs)..])
    ensures DecodeActions(h, bs) == [DecodeAction(h, bs)] + DecodeActions(h, bs[LenOf(h, bs)..])
  {
    hide Value, TypeOf, DecodeAction;
  }

  lemma {:induction false} ReadsWellFormed(h: Order, bs: Bytes, behind: Bytes)
    requires WellFormed(h, bs) && |bs| < COUNTER
    ensures ReadActions(h, bs + behind, |bs|) == Got(Present(DecodeActions(h, bs)))
    decreases |bs|
  {
    hide WellFormed, GoodHead, LenOf, ReadAction, ReadActions, DecodeAction, DecodeActions, CanRead;
    if bs == [] {
      NoActions(h, behind);
    } else {
      WellFormedStep(h, bs);
      HeadFits(h, bs);
      var n := LenOf(h, bs);
      ReadsGoodHead(h, bs, behind);
      ReadActionsStep(h, bs + behind, |bs|);
      assert (bs + behind)[n..] == bs[n..] + behind;
      ReadsWellFormed(h, bs[n..], behind);
    }
  }

  lemma HeadFits(h: Order, bs: Bytes)
    requires GoodHead(h, bs)
    ensures |bs| >= ACTION_HEADER && 0 < LenOf(h, bs) <= |bs|
  {
  }

  lemma ReadsGoodRecord(h: Order, bs: Bytes, behind: Bytes)
    requires GoodRecord(h, bs)
    ensures |bs| < COUNTER && CanReadRecord(h, bs + behind) && RecordLength(h, bs + behind) == |bs|
    ensures ReadRecord(h, bs + behind) == BuiltFrom(DecodeRecord(h, bs))
  {
    hide Value, ReadActions, DecodeActions, WellFormed, DecodeHeader;
    var mem := bs + behind;
    Value16(h, bs[..2]);
    assert mem[..2] == bs[..2] && mem[..FLOW_STATS_HEADER] == bs[..FLOW_STATS_HEADER];
    assert mem[FLOW_STATS_HEADER..] == bs[FLOW_STATS_HEADER..] + behind;
    ReadsWellFormed(h, bs[FLOW_STATS_HEADER..], behind);
  }

  /** How many records of a body are read before the counter is zero. */
  function StopAt(o: Order, bs: Bytes): nat
    requires GoodBody(o, bs)
    decreases |bs|
  {
    if |bs| % COUNTER == 0 then 0 else 1 + StopAt(o, bs[Value(o, bs[..2])..])
  }

  lemma GoodFirstFits(h: Order, bs: Bytes)
    requires GoodFirst(h, bs)
    ensures |bs| >= 2 && 0 < Value(h, bs[..2]) <= |bs| && GoodRecord(h, bs[..Value(h, bs[..2])])
  {
  }

  lemma CounterFollows(size: nat, n: nat)
    requires n <= size
    ensures U16(size % COUNTER - n) == (size - n) % COUNTER
  {
    var q := size / COUNTER;
    assert size == q * COUNTER + size % COUNTER;
    assert (size - n) % COUNTER == (size % COUNTER - n) % COUNTER;
  }

  lemma {:induction false} ReadsUpTo(h: Order, bs: Bytes)
    requires GoodBody(h, bs)
    ensures StopAt(h, bs) <= |ParseBody(h, bs)|
    ensures ReadBody(h, bs, |bs| % COUNTER) == Got(AllBuilt(ParseBody(h, bs)[..StopAt(h, bs)]))
    decreases |bs|
  {
    hide Value, ReadRecord, DecodeRecord, CanReadRecord, RecordLength, GoodFirst, GoodRecord, BuiltFrom;
    if |bs| % COUNTER != 0 {
      GoodFirstFits(h, bs);
      var n := Value(h, bs[..2]);
      assert bs == bs[..n] + bs[n..];
      ReadsGoodRecord(h, bs[..n], bs[n..]);
      CounterFollows(|bs|, n);
      ReadsUpTo(h, bs[n..]);
      Collected(DecodeRecord(h, bs[..n]), ParseBody(h, bs[n..]), StopAt(h, bs[n..]));
    }
  }

  lemma Collected(x: Entry, xs: seq<Entry>, n: nat)
    requires n <= |xs|
    ensures AllBuilt(([x] + xs)[..n + 1]) == [BuiltFrom(x)] + AllBuilt(xs[..n])
  {
    hide BuiltFrom;
  }

  lemma {:induction false} ShortBodyStops(h: Order, bs: Bytes)
    requires GoodBody(h, bs) && |bs| < COUNTER
    ensures StopAt(h, bs) == |ParseBody(h, bs)|
    decreases |bs|
  {
    hide Value, GoodFirst, GoodRecord, DecodeRecord;
    if bs != [] {
      GoodFirstFits(h, bs);
      ShortBodyStops(h, bs[Value(h, bs[..2])..]);
    }
  }

  /** On a concatenation of well-formed records of less than 65536 bytes the walk gives one entry
      per record, in order, with its actions in order. */
  lemma ReadsGoodBody(h: Order, bs: Bytes)
    requires GoodBody(h, bs) && |bs| < COUNTER
    ensures ReadBody(h, bs, |bs| % COUNTER) == Got(AllBuilt(ParseBody(h, bs)))
  {
    hide ReadBody, ParseBody, GoodBody, StopAt;
    ReadsUpTo(h, bs);
    ShortBodyStops(h, bs);
    var all := ParseBody(h, bs);
    assert all[..|all|] == all;
  }

  // ------------------------------------------------------------- what it means

  ghost predicate ValidEntries(xs: seq<Entry>) {
    forall k :: 0 <= k < |xs| ==> ValidEntry(xs[k])
  }

  ghost function EncBody(o: Order, xs: seq<Entry>): Bytes
    requires ValidEntries(xs)
  {
    if xs == [] then [] else EncRecord(o, xs[0]) + EncBody(o, xs[1..])
  }

  lemma FirstOfBody(o: Order, x: Entry, rest: Bytes)
    requires ValidEntry(x)
    ensures var bs := EncRecord(o, x) + rest;
      && GoodFirst(o, bs) && Value(o, bs[..2]) == |EncRecord(o, x)|
      && bs[..Value(o, bs[..2])] == EncRecord(o, x) && bs[Value(o, bs[..2])..] == rest
  {
    EncRecordParts(o, x);
    var e := EncRecord(o, x);
    assert (e + rest)[..2] == e[..2];
    assert (e + rest)[..|e|] == e;
  }

  /** For every list of entries, walking its host-order body gives back the list: one entry
      per record, in order, with its actions in order. */
  lemma {:induction false} BodyRoundTrip(o: Order, xs: seq<Entry>)
    requires ValidEntries(xs)
    ensures GoodBody(o, EncBody(o, xs)) && ParseBody(o, EncBody(o, xs)) == xs
  {
    if xs != [] {
      BodyRoundTrip(o, xs[1..]);
      FirstOfBody(o, xs[0], EncBody(o, xs[1..]));
      DecodeEncRecord(o, xs[0]);
    }
  }

  /** A network-order body, each record converted by ntoh_flow_stats. */
  function NtohBody(h: Order, bs: Bytes): Bytes
    requires GoodBody(Big, bs)
    decreases |bs|
  {
    if bs == [] then []
    else
      var n := Value(Big, bs[..2]);
      ConvRecord(h, Big, bs[..n]) + NtohBody(h, bs[n..])
  }

  lemma FirstOfGood(o: Order, record: Bytes, rest: Bytes)
    requires GoodRecord(o, record)
    ensures var bs := record + rest;
      && Value(o, bs[..2]) == |record| && GoodFirst(o, bs)
      && bs[..|record|] == record && bs[|record|..] == rest
  {
    assert (record + rest)[..2] == record[..2];
    assert (record + rest)[..|record|] == record;
  }

  /** Converting a received body and walking it gives the entries the network bytes meant:
      the walk visits exactly the records and actions that were converted. */
  lemma {:induction false} ReceiveBody(h: Order, bs: Bytes)
    requires GoodBody(Big, bs)
    ensures GoodBody(h, NtohBody(h, bs)) && ParseBody(h, NtohBody(h, bs)) == ParseBody(Big, bs)
    decreases |bs|
  {
    hide Value, GoodRecord, ConvRecord, DecodeRecord;
    if bs != [] {
      var n := Value(Big, bs[..2]);
      var r, rest := ConvRecord(h, Big, bs[..n]), NtohBody(h, bs[n..]);
      ReceiveBody(h, bs[n..]);
      ConvKeepsMeaning(h, Big, h, bs[..n]);
      FirstOfGood(h, r, rest);
    }
  }

  // --------------------------------------------------------------- longer bodies

  /** No records at the end of the body add up to a multiple of 65536 bytes. */
  ghost predicate NoTailVanishes(h: Order, xs: seq<Entry>)
    requires ValidEntries(xs)
  {
    forall k :: 0 <= k < |xs| ==> |EncBody(h, xs[k..])| % COUNTER != 0
  }

  lemma NoTailVanishesStep(h: Order, xs: seq<Entry>)
    requires ValidEntries(xs) && xs != []
    ensures NoTailVanishes(h, xs) <==> |EncBody(h, xs)| % COUNTER != 0 && NoTailVanishes(h, xs[1..])
  {
    hide EncBody, ValidEntry;
    assert xs[0..] == xs;
    forall k | 0 <= k < |xs| - 1 ensures xs[1..][k..] == xs[k + 1..] {}
    if |EncBody(h, xs)| % COUNTER != 0 && NoTailVanishes(h, xs[1..]) {
      forall k | 0 <= k < |xs| ensures |EncBody(h, xs[k..])| % COUNTER != 0 {
        if k > 0 { assert |EncBody(h, xs[1..][k - 1..])| % COUNTER != 0; }
      }
    }
    if NoTailVanishes(h, xs) {
      forall k | 0 <= k < |xs| - 1 ensures |EncBody(h, xs[1..][k..])| % COUNTER != 0 {
        assert |EncBody(h, xs[k + 1..])| % COUNTER != 0;
      }
    }
  }

  lemma {:induction false} StopsAtEnd(h: Order, xs: seq<Entry>)
    requires ValidEntries(xs) && GoodBody(h, EncBody(h, xs))
    ensures StopAt(h, EncBody(h, xs)) == |xs| <==> NoTailVanishes(h, xs)
  {
    hide Value, GoodFirst, ValidEntry, EncRecord, NoTailVanishes;
    if xs == [] {
      NoTailOfNone(h);
    } else {
      var body := EncBody(h, xs);
      BodyRoundTrip(h, xs[1..]);
      FirstOfBody(h, xs[0], EncBody(h, xs[1..]));
      StopsAtEnd(h, xs[1..]);
      NoTailVanishesStep(h, xs);
    }
  }

  lemma NoTailOfNone(h: Order)
    ensures NoTailVanishes(h, [])
  {
  }

  /** A body of any length comes out whole exactly if no non-empty tail of its records adds up to
      a multiple of 65536 bytes; otherwise the walk ends in front of the first such tail. */
  lemma TruncationIff(h: Order, xs: seq<Entry>, body: Bytes)
    requires ValidEntries(xs) && body == EncBody(h, xs)
    ensures ReadBody(h, body, |body| % COUNTER) == Got(AllBuilt(xs)) <==> NoTailVanishes(h, xs)
  {
    hide ReadBody, GoodBody, ParseBody, EncBody, ValidEntries, NoTailVanishes, StopAt;
    BodyRoundTrip(h, xs);
    ReadsUpTo(h, body);
    StopsAtEnd(h, xs);
    assert xs[..|xs|] == xs;
  }

  /** An entry with zeros everywhere and no actions. */
  function EmptyEntry(): Entry {
    var nothing := Match(0, 0, Zeros(6), Zeros(6), 0, 0, 0, 0, 0, 0, 0, 0, 0);
    Entry(Header(FLOW_STATS_HEADER, 0, nothing, 0, 0, 0, 0, 0, 0, 0, 0), [])
  }

  lemma EmptyEntryLength(o: Order)
    ensures ValidEntry(EmptyEntry()) && |EncRecord(o, EmptyEntry())| == FLOW_STATS_HEADER
  {
    assert EncActions(Big, []) == [];
    EncRecordParts(o, EmptyEntry());
  }

  ghost predicate AllEmpty(xs: seq<Entry>) {
    forall k :: 0 <= k < |xs| ==> xs[k] == EmptyEntry()
  }

  lemma {:induction false} LengthOfCopies(o: Order, xs: seq<Entry>)
    requires AllEmpty(xs)
    ensures ValidEntries(xs) && |EncBody(o, xs)| == FLOW_STATS_HEADER * |xs|
  {
    hide EmptyEntry, EncRecord, ValidEntry;
    EmptyEntryLength(o);
    if xs != [] { LengthOfCopies(o, xs[1..]); }
  }

  /** 8192 such entries make 720896 bytes, eleven times 65536: the walk gives nothing at all. */
  lemma LongBodyVanishes(h: Order, xs: seq<Entry>)
    requires |xs| == 8192 && AllEmpty(xs)
    ensures ValidEntries(xs) && |EncBody(h, xs)| == 720896
    ensures ReadBody(h, EncBody(h, xs), |EncBody(h, xs)| % COUNTER) == Got([])
  {
    hide EncBody, ValidEntries, AllEmpty, ReadBody;
    LengthOfCopies(h, xs);
    NothingLeftToRead(h, EncBody(h, xs));
  }

  /** 745 of them make 65560 bytes and come out whole: the counter starts at 24 and wraps. */
  lemma LongBodyIsWhole(h: Order, xs: seq<Entry>)
    requires |xs| == 745 && AllEmpty(xs)
    ensures ValidEntries(xs) && |EncBody(h, xs)| == 65560
    ensures ReadBody(h, EncBody(h, xs), |EncBody(h, xs)| % COUNTER) == Got(AllBuilt(xs))
  {
    hide EncBody, ReadBody, EmptyEntry, ValidEntry;
    LengthOfCopies(h, xs);
    forall k | 0 <= k < |xs| ensures |EncBody(h, xs[k..])| % COUNTER != 0 {
      LengthOfCopies(h, xs[k..]);
    }
    TruncationIff(h, xs, EncBody(h, xs));
  }
}
