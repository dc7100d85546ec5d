/**
  The serializers of service-list messages in src/lib/event_forward_interface.c, which hold a
  header pointer across appends that may move the block.
*/
module ServiceList {
  import opened ByteFields
  import opened Buffer

  const HEADER: nat := 8              // type, result or padding, padding, n_services
  const NAME_LENGTH: nat := 32        // MESSENGER_SERVICE_NAME_LENGTH
  const REQUEST_ENVELOPE: nat := 10   // management_application_request: type, length, application_id
  const REPLY_ENVELOPE: nat := 12     // management_application_reply
  const APPLICATION_REQUEST: nat := 6
  const U32: nat := 0x1_0000_0000

  /** A C string without its terminator. */
  predicate IsName(s: Bytes) {
    forall k :: 0 <= k < |s| ==> s[k] != 0
  }

  predicate AreNames(names: seq<Bytes>) {
    forall k :: 0 <= k < |names| ==> IsName(names[k])
  }

  function Header(b0: Byte, b1: Byte, count: nat): (bs: Bytes)
    ensures |bs| == HEADER
  {
    [b0, b1, 0, 0] + BytesOf(Big, 4, count)
  }

  /** The header byte by byte: type, result or padding, padding, and the count big-endian. */
  lemma HeaderByPosition(b0: Byte, b1: Byte, count: nat)
    requires count < U32
    ensures var bs := Header(b0, b1, count);
      && bs[0] == b0 && bs[1] == b1 && bs[2] == 0 && bs[3] == 0
      && 0x100_0000 * (bs[4] as int) + 0x1_0000 * (bs[5] as int) + 0x100 * (bs[6] as int) + bs[7] as int == count
  {
    Powers();
    ValueOfBytes(Big, 4, count);
    FourBytesValue(BytesOf(Big, 4, count));
  }

  function NameBytes(names: seq<Bytes>): Bytes {
    if names == [] then []
    else NameBytes(names[..|names| - 1]) + (names[|names| - 1] + [0])
  }

  // ---------------------------------------------------------------- serializers

  /** Writing through a pointer into the current block of a buffer. */
  method Store(buf: Buffer, p: Ptr, bs: Bytes)
    requires buf.Valid() && p.block == buf.block && buf.front <= p.off && p.off + |bs| <= buf.front + buf.length
    modifies p.block
    ensures buf.Valid()
    ensures var i := p.off - buf.front;
      buf.Contents() == old(buf.Contents())[..i] + bs + old(buf.Contents())[i + |bs|..]
  {
    forall k | 0 <= k < |bs| { p.block[p.off + k] := bs[k]; }
  }

  /** Append and fill `bs`: the visible bytes grow by exactly `bs`. */
  method Append(buf: Buffer, bs: Bytes) returns (p: Ptr)
    requires buf.Valid() && bs != []
    modifies buf, buf.block
    ensures buf.Valid() && buf.block != null && (buf.block == old(buf.block) || fresh(buf.block))
    ensures buf.front == old(buf.front) && p == Ptr(buf.block, buf.front + old(buf.length))
    ensures buf.Contents() == old(buf.Contents()) + bs
  {
    ghost var before := buf.Contents();
    p := buf.AppendBack(|bs|);
    ghost var grown := buf.Contents();
    Store(buf, p, bs);
    assert grown[..|before|] + bs + grown[|before| + |bs|..] == before + bs;
  }

  /** The loop body of the serializers: append one name with its terminator, and recompute
      the header pointer by offset, because the block may have moved. */
  method AppendName(buf: Buffer, name: Bytes, headOffset: nat, ghost prior: Bytes, ghost head: Bytes, ghost done: Bytes)
    returns (req: Ptr, nextOffset: nat)
    requires buf.Valid() && buf.Contents() == prior + head + done && headOffset == |head| + |done|
    modifies buf, buf.block
    ensures buf.Valid() && buf.block != null && (buf.block == old(buf.block) || fresh(buf.block))
    ensures req == Ptr(buf.block, buf.front + |prior|)
    ensures nextOffset == headOffset + |name| + 1
    ensures buf.Contents() == prior + head + (done + (name + [0]))
  {
    var dst := Append(buf, name + [0]);
    req := Ptr(dst.block, dst.off - headOffset);
    nextOffset := headOffset + |name| + 1;
    assert (prior + head + done) + (name + [0]) == prior + head + (done + (name + [0]));
  }

  lemma NoNames()
    ensures NameBytes([]) == []
  {
  }

  lemma CountOneMore(k: nat)
    ensures (k % U32 + 1) % U32 == (k + 1) % U32
  {
    if k % U32 == U32 - 1 {
      assert k + 1 == (k / U32 + 1) * U32;
    }
  }

  lemma OneMoreName(names: seq<Bytes>, k: nat)
    requires k < |names|
    ensures NameBytes(names[..k + 1]) == NameBytes(names[..k]) + (names[k] + [0])
  {
    assert names[..k + 1][..k] == names[..k];
  }

  /** The loop of the serializers: all names, and the header pointer still on the header. */
  method AppendNames(buf: Buffer, names: seq<Bytes>, start: Ptr, ghost prior: Bytes, ghost head: Bytes)
    returns (req: Ptr, count: nat)
    requires buf.Valid() && buf.block != null && |head| == HEADER
    requires start == Ptr(buf.block, buf.front + |prior|) && buf.Contents() == prior + head
    modifies buf, buf.block
    ensures buf.Valid() && buf.block != null && (buf.block == old(buf.block) || fresh(buf.block))
    ensures req == Ptr(buf.block, buf.front + |prior|) && count == |names| % U32
    ensures buf.Contents() == prior + head + NameBytes(names)
  {
    hide NameBytes;
    req, count := start, 0;
    var headOffset: nat := HEADER;
    ghost var done: Bytes := NameBytes([]);
    NoNames();
    assert prior + head == prior + head + done;
    for k := 0 to |names|
      invariant buf.Valid() && buf.block != null && (buf.block == old(buf.block) || fresh(buf.block))
      invariant done == NameBytes(names[..k]) && headOffset == HEADER + |done|
      invariant req == Ptr(buf.block, buf.front + |prior|)
      invariant buf.Contents() == prior + head + done
      invariant count == k % U32
    {
      OneMoreName(names, k);
      req, headOffset := AppendName(buf, names[k], headOffset, prior, head, done);
      done := done + (names[k] + [0]);
      CountOneMore(k);
      count := (count + 1) % U32;
    }
    assert names[..|names|] == names;
  }

  /** create_event_forward_operation_request and _reply: header first, then every name, and at
      the end the count through the header pointer. */
  method AppendServices(buf: Buffer, b0: Byte, b1: Byte, names: seq<Bytes>)
    requires buf.Valid() && AreNames(names)
    modifies buf, buf.block
    ensures buf.Valid() && buf.block != null && (buf.block == old(buf.block) || fresh(buf.block))
    ensures buf.Contents() == old(buf.Contents()) + Header(b0, b1, |names| % U32) + NameBytes(names)
  {
    hide BytesOf, NameBytes, Header;
    ghost var prior := buf.Contents();
    var head: Bytes := [b0, b1, 0, 0, 0, 0, 0, 0];
    var req := Append(buf, head);
    var count;
    req, count := AppendNames(buf, names, req, prior, head);
    ghost var whole := buf.Contents();
    Patched(prior, b0, b1, NameBytes(names), count, whole);
    Store(buf, Ptr(req.block, req.off + 4), BytesOf(Big, 4, count));
  }

  /** Writing the count into the blank header. */
  lemma Patched(prior: Bytes, b0: Byte, b1: Byte, rest: Bytes, count: nat, whole: Bytes)
    requires whole == prior + [b0, b1, 0, 0, 0, 0, 0, 0] + rest
    ensures whole[..|prior| + 4] + BytesOf(Big, 4, count) + whole[|prior| + 4 + 4..]
            == prior + Header(b0, b1, count) + rest
  {
    assert whole[..|prior| + 4] == prior + [b0, b1, 0, 0];
    assert whole[|prior| + 8..] == rest;
  }

  method CreateRequest(given: Buffer?, eventType: Byte, names: seq<Bytes>) returns (buf: Buffer)
    requires (given != null ==> given.Valid()) && AreNames(names)
    modifies given, if given != null then {given.block} else {}
    ensures given != null ==> buf == given && (buf.block == old(given.block) || fresh(buf.block))
    ensures given == null ==> fresh(buf) && fresh(buf.block)
    ensures buf.Valid()
    ensures buf.Contents() == (if given == null then [] else old(given.Contents()))
                              + Header(eventType, 0, |names| % U32) + NameBytes(names)
  {
    if given == null {
      buf := new Buffer.WithLength(HEADER + NAME_LENGTH);
      AppendServices(buf, eventType, 0, names);
    } else {
      buf := given;
      AppendServices(buf, eventType, 0, names);
    }
  }

  method CreateReply(eventType: Byte, result: Byte, names: seq<Bytes>) returns (buf: Buffer)
    requires AreNames(names)
    ensures fresh(buf) && buf.Valid()
    ensures buf.Contents() == Header(eventType, result, |names| % U32) + NameBytes(names)
  {
    buf := new Buffer.WithLength(HEADER + NAME_LENGTH);
    AppendServices(buf, eventType, result, names);
    assert [] + Header(eventType, result, |names| % U32) == Header(eventType, result, |names| % U32);
  }

  /** The message of send_efi_event_config_request: the envelope's length field is written last
      and counts the whole message. */
  method CreateConfigRequest(command: nat, eventType: Byte, names: seq<Bytes>) returns (buf: Buffer)
    requires AreNames(names)
    ensures fresh(buf) && buf.Valid()
    ensures var body := Header(eventType, 0, |names| % U32) + NameBytes(names);
      buf.Contents() == BytesOf(Big, 2, APPLICATION_REQUEST) + BytesOf(Big, 4, (REQUEST_ENVELOPE + |body|) % U32)
                        + BytesOf(Big, 4, command) + body
  {
    hide Header, NameBytes, BytesOf;
    buf := new Buffer.WithLength(REQUEST_ENVELOPE + HEADER + NAME_LENGTH);
    ghost var body := Header(eventType, 0, |names| % U32) + NameBytes(names);
    var kind, id := BytesOf(Big, 2, APPLICATION_REQUEST), BytesOf(Big, 4, command);
    var _ := Append(buf, kind + [0, 0, 0, 0] + id);
    AppendServices(buf, eventType, 0, names);
    EnvelopeFirst(kind, id, Header(eventType, 0, |names| % U32), NameBytes(names));
    var total := BytesOf(Big, 4, buf.length % U32);
    Store(buf, Ptr(buf.block, buf.front + 2), total);
    LengthPatched(kind, total, id, body);
  }

  lemma EnvelopeFirst(kind: Bytes, id: Bytes, head: Bytes, names: Bytes)
    ensures ([] + (kind + [0, 0, 0, 0] + id)) + head + names == (kind + [0, 0, 0, 0] + id) + (head + names)
  {
  }

  lemma LengthPatched(kind: Bytes, total: Bytes, id: Bytes, body: Bytes)
    requires |kind| == 2 && |total| == 4
    ensures var whole: Bytes := (kind + [0, 0, 0, 0] + id) + body;
      whole[..2] + total + whole[6..] == kind + total + id + body
  {
    var whole: Bytes := (kind + [0, 0, 0, 0] + id) + body;
    assert whole[..2] == kind && whole[6..] == id + body;
  }
}
