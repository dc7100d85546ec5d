/**
  The OFPST_FLOW branch of handle_stats_reply in src/lib/openflow_application_interface.c: the
  body of one stats reply message is converted record by record and handed on.
*/
module StatsReplyMessage {
  import opened ByteFields
  import opened FlowStats
  import opened FlowStatsMeaning
  import opened FlowStatsRecords
  import opened ByteOrder
  import opened StatsReply

  const BODY: nat := 12   // offset of the body: OpenFlow header, type, flags

  /** The 16-bit length of the body, from the 16-bit length in the message header. */
  function BodyLength(message: Bytes): (n: nat)
    requires |message| >= BODY
    ensures n < 0x1_0000
  {
    U16(Value(Big, message[2..4]) - BODY)
  }

  function BodyOf(message: Bytes): (body: Bytes)
    requires |message| >= BODY && BODY + BodyLength(message) <= |message|
    ensures |body| < 0x1_0000
  {
    message[BODY..BODY + BodyLength(message)]
  }

  // ---------------------------------------------------------------- the loop

  /** The record at the head of the message body can be converted into what is left of `dst`. */
  predicate CanConvert(dst: Bytes, src: Bytes) {
    |src| >= 2 && FLOW_STATS_HEADER <= Value(Big, src[..2]) <= |dst|
  }

  /** The conversion loop: `dst` is what is still to be filled, `src` the message from the source
      cursor on. */
  ghost function ConvertedBody(h: Order, dst: Bytes, src: Bytes): (w: Walked)
    requires |dst| <= |src|
    decreases |dst|
  {
    if dst == [] then Written([])
    else if !CanConvert(dst, src) then Strayed
    else
      var n := Value(Big, src[..2]);
      match Converted(h, Big, dst[..n], src[..n])
      case Written(bs) => Prepend(bs, ConvertedBody(h, dst[n..], src[n..]))
      case other => other
  }

  /** What the whole of the new body will be, once the rest is converted too. */
  ghost function BodyGoal(h: Order, done: Bytes, dst: Bytes, src: Bytes): Walked
    requires |dst| <= |src|
  {
    Prepend(done, ConvertedBody(h, dst, src))
  }

  lemma BodyGoalStep(h: Order, done: Bytes, dst: Bytes, src: Bytes, n: nat)
    requires |dst| <= |src| && dst != [] && ConvertedBody(h, dst, src) != Strayed
    requires |src| >= 2 && n == Value(Big, src[..2])
    ensures FLOW_STATS_HEADER <= n <= |dst|
    ensures var w := Converted(h, Big, dst[..n], src[..n]);
      && w != Strayed
      && (w == Died ==> ConvertedBody(h, dst, src) == Died)
      && (w.Written? ==>
            && BodyGoal(h, done + w.bytes, dst[n..], src[n..]) == BodyGoal(h, done, dst, src)
            && ConvertedBody(h, dst[n..], src[n..]) != Strayed)
  {
    hide Converted, Value;
    var w := Converted(h, Big, dst[..n], src[..n]);
    if w.Written? {
      var rest := ConvertedBody(h, dst[n..], src[n..]);
      assert rest.Written? ==> (done + w.bytes) + rest.bytes == done + (w.bytes + rest.bytes);
    }
  }

  /** The record just written starts with its length, in host order. */
  lemma WrittenLength(h: Order, dst: Bytes, src: Bytes)
    requires |dst| == |src| >= FLOW_STATS_HEADER && Converted(h, Big, dst, src).Written?
    ensures |Converted(h, Big, dst, src).bytes| == |src|
    ensures Value(h, Converted(h, Big, dst, src).bytes[..2]) == Value(Big, src[..2])
  {
    hide Value, Walk, ConvHeader;
    var head := src[..FLOW_STATS_HEADER];
    ConvHeaderLength(h, head);
    assert Converted(h, Big, dst, src).bytes[..2] == ConvHeader(h, head)[..2];
    assert head[..2] == src[..2];
    FlipChangesOrder(h, src[..2]);
  }

  /** One turn: convert the record under the two cursors, and read how far to move from the
      length that was written. */
  method ConvertRecord(h: Order, data: array<Byte>, bodyH: array<Byte>, at: nat, ghost dst: Bytes, ghost src: Bytes)
    returns (died: bool, length: nat)
    requires data != bodyH && at < bodyH.Length && BODY + bodyH.Length <= data.Length
    requires dst == bodyH[at..] && src == data[BODY + at..] && ConvertedBody(h, dst, src) != Strayed
    modifies bodyH
    ensures died ==> ConvertedBody(h, dst, src) == Died
    ensures !died ==>
      && 0 < length <= |dst|
      && ConvertedBody(h, bodyH[at + length..], src[length..]) != Strayed
      && BodyGoal(h, bodyH[..at + length], bodyH[at + length..], src[length..]) ==
            BodyGoal(h, old(bodyH[..at]), dst, src)
  {
    hide Value, Converted, ConvertedBody, BodyGoal;
    CanGoOn(h, dst, src);
    ghost var n := Value(Big, src[..2]);
    ghost var done := bodyH[..at];
    BodyGoalStep(h, done, dst, src, n);
    assert src[..2] == data[BODY + at..BODY + at + 2];
    assert dst[..n] == bodyH[at..at + n] && src[..n] == data[BODY + at..BODY + at + n];
    length := 0;
    died := NtohFlowStats(h, bodyH, at, data, BODY + at, n);
    if !died {
      ghost var bs := Converted(h, Big, dst[..n], src[..n]).bytes;
      WrittenLength(h, dst[..n], src[..n]);
      assert src[..n][..2] == src[..2];
      assert bodyH[at..at + n] == bs;
      assert bodyH[at..at + 2] == bodyH[at..at + n][..2];
      length := ReadU16(h, bodyH, at);
      assert bodyH[..at + n] == done + bs;
      assert bodyH[at + n..] == dst[n..];
    }
  }

  lemma CanGoOn(h: Order, dst: Bytes, src: Bytes)
    requires |dst| <= |src| && dst != [] && ConvertedBody(h, dst, src) != Strayed
    ensures |src| >= 2
  {
  }

  lemma BodyGoalSplit(h: Order, done: Bytes, dst: Bytes, src: Bytes)
    requires |dst| <= |src|
    ensures BodyGoal(h, done, dst, src) == Died <==> ConvertedBody(h, dst, src) == Died
    ensures dst == [] ==> BodyGoal(h, done, dst, src) == Written(done)
    ensures done == [] ==> BodyGoal(h, done, dst, src) == ConvertedBody(h, dst, src)
  {
    var w := ConvertedBody(h, dst, src);
    assert w.Written? ==> [] + w.bytes == w.bytes;
    assert done + [] == done;
  }

  /** The conversion loop: a source cursor, a destination cursor and a 16-bit counter.  `bodyH` is
      the new buffer, of as many bytes as the counter starts with; what it holds is of no concern. */
  method ConvertBody(h: Order, data: array<Byte>, bodyH: array<Byte>) returns (died: bool)
    requires data != bodyH && data.Length >= BODY && BODY + BodyLength(data[..]) <= data.Length
    requires bodyH.Length == BodyLength(data[..])
    requires ConvertedBody(h, bodyH[..], data[BODY..]) != Strayed
    modifies bodyH
    ensures died <==> ConvertedBody(h, old(bodyH[..]), data[BODY..]) == Died
    ensures !died ==> Written(bodyH[..]) == ConvertedBody(h, old(bodyH[..]), data[BODY..])
  {
    hide Value, ConvertedBody, BodyGoal;
    var bodyLength: nat := bodyH.Length;
    var at: nat := 0;
    ghost var dst, src := bodyH[..], data[BODY..];
    ghost var goal := ConvertedBody(h, dst, src);
    BodyGoalSplit(h, [], dst, src);
    assert bodyH[..0] == [];
    while bodyLength > 0
      invariant at + bodyLength == bodyH.Length && dst == bodyH[at..] && src == data[BODY + at..]
      invariant ConvertedBody(h, dst, src) != Strayed
      invariant BodyGoal(h, bodyH[..at], dst, src) == goal
      decreases bodyLength
    {
      var length;
      BodyGoalSplit(h, bodyH[..at], dst, src);
      died, length := ConvertRecord(h, data, bodyH, at, dst, src);
      if died {
        return;
      }
      bodyLength := U16(bodyLength - length);
      at := at + length;
      dst, src := bodyH[at..], src[length..];
    }
    died := false;
    BodyGoalSplit(h, bodyH[..at], dst, src);
    assert bodyH[..at] == bodyH[..];
  }

  // ------------------------------------------------------------- well-formed bodies

  /** On a well-formed body the loop converts every record, whatever follows the body in the
      message and whatever the new buffer held. */
  lemma {:induction false} ConvertsGoodBody(h: Order, dst: Bytes, body: Bytes, behind: Bytes)
    requires GoodBody(Big, body) && |dst| == |body|
    ensures ConvertedBody(h, dst, body + behind) == Written(NtohBody(h, body))
    decreases |body|
  {
    hide Value, Converted, ConvRecord, GoodFirst, GoodRecord;
    if body != [] {
      var src := body + behind;
      GoodFirstFits(Big, body);
      var n := Value(Big, body[..2]);
      RecordIsLong(body[..n]);
      assert src[..2] == body[..2] && src[..n] == body[..n] && src[n..] == body[n..] + behind;
      ConvertedWellFormed(h, Big, dst[..n], body[..n]);
      ConvertsGoodBody(h, dst[n..], body[n..], behind);
    }
  }

  lemma RecordIsLong(record: Bytes)
    requires GoodRecord(Big, record)
    ensures |record| >= FLOW_STATS_HEADER
  {
  }

  /** The whole way of one message: converted, handed on and walked.  Nothing is lost, because
      the body of one message is shorter than 65536 bytes: what comes out is what the network
      bytes meant. */
  method ReceiveFlowStats(h: Order, data: array<Byte>) returns (entries: seq<Built>)
    requires data.Length >= BODY && BODY + BodyLength(data[..]) <= data.Length
    requires GoodBody(Big, BodyOf(data[..]))
    ensures entries == AllBuilt(ParseBody(Big, BodyOf(data[..])))
  {
    hide Value, GoodBody, NtohBody, ParseBody, ReadBody, ConvertedBody;
    assert data[..][2..4] == data[2..4];
    var messageLength := ReadU16(Big, data, 2);
    var bodyH := new Byte[U16(messageLength - BODY)];
    ghost var body := BodyOf(data[..]);
    assert data[BODY..] == body + data[BODY + |body|..];
    ConvertsGoodBody(h, bodyH[..], body, data[BODY + |body|..]);
    var died := ConvertBody(h, data, bodyH);
    ReceiveBody(h, body);
    ReadsGoodBody(h, bodyH[..]);
    entries := HandleFlowStats(h, bodyH[..]);
  }

  // --------------------------------------------------------------- round trip

  const VERSION: Byte := 1
  const STATS_REPLY: Byte := 17
  const FLOW: nat := 1

  /** The stats reply message with the given entries. */
  ghost function MessageOf(xs: seq<Entry>, xid: nat, flags: nat): Bytes
    requires ValidEntries(xs)
  {
    var body := EncBody(Big, xs);
    [VERSION, STATS_REPLY] + BytesOf(Big, 2, BODY + |body|)
      + (BytesOf(Big, 4, xid) + BytesOf(Big, 2, FLOW) + BytesOf(Big, 2, flags)) + body
  }

  lemma MessageParts(xs: seq<Entry>, xid: nat, flags: nat, m: Bytes)
    requires ValidEntries(xs) && BODY + |EncBody(Big, xs)| < 0x1_0000 && m == MessageOf(xs, xid, flags)
    ensures |m| >= BODY && BODY + BodyLength(m) <= |m| && BodyOf(m) == EncBody(Big, xs)
  {
    hide EncBody, ValidEntries, BytesOf, Value;
    var body := EncBody(Big, xs);
    assert m[2..4] == BytesOf(Big, 2, BODY + |body|);
    Powers();
    ValueOfBytes(Big, 2, BODY + |body|);
    assert m[BODY..] == body;
  }

  /** For every list of entries that fits one message, the message with their network form is
      received as exactly that list, on either kind of host. */
  method MessageRoundTrip(h: Order, data: array<Byte>, ghost xs: seq<Entry>, ghost xid: nat, ghost flags: nat)
    returns (entries: seq<Built>)
    requires ValidEntries(xs) && BODY + |EncBody(Big, xs)| < 0x1_0000 && data[..] == MessageOf(xs, xid, flags)
    ensures entries == AllBuilt(xs)
  {
    hide EncBody, ValidEntries, GoodBody, ParseBody, MessageOf;
    MessageParts(xs, xid, flags, data[..]);
    BodyRoundTrip(Big, xs);
    entries := ReceiveFlowStats(h, data);
  }
}
