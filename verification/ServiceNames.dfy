/**
  handle_event_forward_operation_reply of src/lib/event_forward_interface.c: the scan of a
  service list for NUL-terminated names.
*/
module ServiceNames {
  import opened ByteFields
  import opened ServiceList
  import EventForwardProtocol

  // ----------------------------------------------------------- what a list means

  /** Length of the first name: up to the first NUL, or everything. */
  function FirstName(bs: Bytes): (k: nat)
    ensures k <= |bs| && IsName(bs[..k]) && (k < |bs| ==> bs[k] == 0)
  {
    if bs == [] || bs[0] == 0 then 0
    else
      var k := FirstName(bs[1..]);
      NameGrows(bs, k);
      k + 1
  }

  lemma NameGrows(bs: Bytes, k: nat)
    requires bs != [] && bs[0] != 0 && k < |bs| && IsName(bs[1..][..k])
    ensures IsName(bs[..k + 1])
  {
    assert bs[..k + 1] == [bs[0]] + bs[1..][..k];
  }

  function AfterFirst(bs: Bytes): (r: Bytes)
    requires bs != []
    ensures |r| < |bs|
  {
    if FirstName(bs) < |bs| then bs[FirstName(bs) + 1..] else []
  }

  /** All names of a list, empty ones included. */
  function Split(bs: Bytes): seq<Bytes>
    decreases |bs|
  {
    if bs == [] then [] else [bs[..FirstName(bs)]] + Split(AfterFirst(bs))
  }

  function NonEmpty(names: seq<Bytes>): seq<Bytes> {
    if names == [] then []
    else (if names[0] == [] then [] else [names[0]]) + NonEmpty(names[1..])
  }

  function AtMost(names: seq<Bytes>, n: nat): (r: seq<Bytes>)
    ensures |r| <= n && |r| <= |names|
  {
    if |names| <= n then names else names[..n]
  }

  // -------------------------------------------------------------------- the scan

  /** strlen, on memory that is known to hold a NUL at `limit`: it reads no further. */
  method StrLen(mem: array<Byte>, at: nat, limit: nat) returns (n: nat)
    requires at <= limit < mem.Length && mem[limit] == 0
    ensures at + n <= limit && n == FirstName(mem[at..limit])
    ensures mem[at + n] == 0
  {
    hide FirstName;
    n := 0;
    ghost var rest := mem[at..limit];
    while mem[at + n] != 0
      invariant at + n <= limit && rest == mem[at + n..limit]
      invariant FirstName(mem[at..limit]) == n + FirstName(rest)
      decreases limit - at - n
    {
      assert rest[0] == mem[at + n];
      FirstNameStep(rest);
      rest := rest[1..];
      n := n + 1;
    }
    assert rest != [] ==> rest[0] == mem[at + n];
    FirstNameStep(rest);
  }

  lemma {:induction false} FirstNameStep(bs: Bytes)
    ensures FirstName(bs) == if bs == [] || bs[0] == 0 then 0 else 1 + FirstName(bs[1..])
  {
  }

  /** Where a name was found and what it says. */
  datatype Found = Found(at: nat, name: Bytes)

  function Says(found: seq<Found>): (names: seq<Bytes>)
    ensures |names| == |found|
  {
    seq(|found|, k requires 0 <= k < |found| => found[k].name)
  }

  /** A name is non-empty, free of NUL, and terminated inside the list. */
  ghost predicate InPlace(f: Found, mem: Bytes, start: nat, limit: nat)
    requires limit < |mem|
  {
    && start <= f.at && f.at + |f.name| <= limit
    && f.name != [] && IsName(f.name)
    && mem[f.at..f.at + |f.name|] == f.name
    && mem[f.at + |f.name|] == 0
  }

  /** All names are in place, and lie one behind the other without overlap. */
  ghost predicate WellPlaced(found: seq<Found>, mem: Bytes, start: nat, limit: nat) {
    && limit < |mem|
    && (forall k :: 0 <= k < |found| ==> InPlace(found[k], mem, start, limit))
    && (forall j, k :: 0 <= j < k < |found| ==> found[j].at + |found[j].name| < found[k].at)
  }

  ghost predicate AllBefore(found: seq<Found>, next: nat) {
    forall k :: 0 <= k < |found| ==> found[k].at + |found[k].name| < next
  }

  /** The names still to come, cut to what is still expected. */
  ghost function Wanted(found: seq<Found>, expected: nat, rest: Bytes): seq<Bytes>
    requires |found| <= expected
  {
    Says(found) + AtMost(NonEmpty(Split(rest)), expected - |found|)
  }

  lemma {:induction false} NonEmptyNext(rest: Bytes, name: Bytes)
    requires rest != [] && name == rest[..FirstName(rest)]
    ensures NonEmpty(Split(rest)) == (if name == [] then [] else [name]) + NonEmpty(Split(AfterFirst(rest)))
  {
    var all := [name] + Split(AfterFirst(rest));
    assert all[1..] == Split(AfterFirst(rest)) && all[0] == name;
  }

  lemma AtMostNext(name: Bytes, more: seq<Bytes>, n: nat)
    requires n > 0
    ensures AtMost([name] + more, n) == [name] + AtMost(more, n - 1)
  {
  }

  lemma {:induction false} WantedStep(found: seq<Found>, expected: nat, rest: Bytes, f: Found)
    requires |found| <= expected && rest != [] && f.name == rest[..FirstName(rest)]
    ensures f.name == [] || |found| == expected ==>
              Wanted(found, expected, AfterFirst(rest)) == Wanted(found, expected, rest)
    ensures f.name != [] && |found| < expected ==>
              Wanted(found + [f], expected, AfterFirst(rest)) == Wanted(found, expected, rest)
  {
    hide NonEmpty, Split, FirstName, AfterFirst;
    var more := NonEmpty(Split(AfterFirst(rest)));
    NonEmptyNext(rest, f.name);
    if f.name == [] {
      assert [] + more == more;
    } else if |found| < expected {
      assert Says(found + [f]) == Says(found) + [f.name];
      AtMostNext(f.name, more, expected - |found|);
      assert Says(found) + ([f.name] + AtMost(more, expected - |found| - 1))
          == (Says(found) + [f.name]) + AtMost(more, expected - |found| - 1);
    }
  }

  lemma PlaceOne(found: seq<Found>, f: Found, mem: Bytes, start: nat, limit: nat)
    requires WellPlaced(found, mem, start, limit) && AllBefore(found, f.at) && InPlace(f, mem, start, limit)
    ensures WellPlaced(found + [f], mem, start, limit)
  {
    hide InPlace;
  }

  /** The walk over a terminated list, name by name.  For any bytes and any declared count it
      ends, reads nothing past the terminator, and finds the first `expected` non-empty names. */
  method FindNames(mem: array<Byte>, start: nat, limit: nat, expected: nat) returns (found: seq<Found>)
    requires start <= limit < mem.Length && mem[limit] == 0
    ensures Says(found) == AtMost(NonEmpty(Split(mem[start..limit])), expected)
    ensures WellPlaced(found, mem[..], start, limit)
  {
    hide WellPlaced, AllBefore, Wanted, Split, NonEmpty, FirstName, AfterFirst, Says;
    ghost var rest := mem[start..limit];
    found := [];
    var next := start;
    Initially(mem[..], start, limit, expected, rest);
    while next < limit
      invariant start <= next && next <= limit + 1
      invariant rest == if next <= limit then mem[next..limit] else []
      invariant |found| <= expected
      invariant Wanted(found, expected, rest) == AtMost(NonEmpty(Split(mem[start..limit])), expected)
      invariant WellPlaced(found, mem[..], start, limit) && AllBefore(found, next)
      decreases limit + 1 - next
    {
      var n := StrLen(mem, next, limit);
      var f := Found(next, mem[next..next + n]);
      assert rest[..n] == mem[next..next + n];
      WantedStep(found, expected, rest, f);
      var after := next + n + 1;
      Skipped(rest, mem[..], next, limit, n);
      if n > 0 && |found| < expected {
        PlaceOne(found, f, mem[..], start, limit);
        AllBeforeOne(found, f, after);
        found := found + [f];
      } else {
        AllBeforeLater(found, next, after);
      }
      rest := AfterFirst(rest);
      next := after;
    }
    Finally(found, expected);
  }

  /** The scan: terminate the list, then walk it. */
  method Scan(mem: array<Byte>, start: nat, len: nat, expected: nat) returns (found: seq<Found>)
    requires start + len < mem.Length
    modifies mem
    ensures mem[..] == old(mem[..])[start + len := 0]
    ensures Says(found) == AtMost(NonEmpty(Split(old(mem[start..start + len]))), expected)
    ensures WellPlaced(found, mem[..], start, start + len)
  {
    hide WellPlaced, Split, NonEmpty, Says;
    ghost var list := mem[start..start + len];
    mem[start + len] := 0;
    assert mem[start..start + len] == list;
    found := FindNames(mem, start, start + len, expected);
  }

  lemma Initially(mem: Bytes, start: nat, limit: nat, expected: nat, rest: Bytes)
    requires start <= limit < |mem|
    ensures Wanted([], expected, rest) == AtMost(NonEmpty(Split(rest)), expected)
    ensures WellPlaced([], mem, start, limit) && AllBefore([], start)
  {
    assert [] + AtMost(NonEmpty(Split(rest)), expected) == AtMost(NonEmpty(Split(rest)), expected);
  }

  lemma Finally(found: seq<Found>, expected: nat)
    requires |found| <= expected
    ensures Wanted(found, expected, []) == Says(found)
  {
    assert Says(found) + [] == Says(found);
  }

  lemma Skipped(rest: Bytes, mem: Bytes, next: nat, limit: nat, n: nat)
    requires next < limit < |mem| && rest == mem[next..limit] && n == FirstName(rest)
    ensures AfterFirst(rest) == if next + n + 1 <= limit then mem[next + n + 1..limit] else []
  {
  }

  lemma AllBeforeOne(found: seq<Found>, f: Found, after: nat)
    requires AllBefore(found, f.at) && f.at + |f.name| < after
    ensures AllBefore(found + [f], after)
  {
  }

  lemma AllBeforeLater(found: seq<Found>, next: nat, after: nat)
    requires AllBefore(found, next) && next <= after
    ensures AllBefore(found, after)
  {
  }

  // ------------------------------------------------------------------ round trip

  lemma {:induction false} FirstNameOf(name: Bytes, rest: Bytes)
    requires IsName(name)
    ensures FirstName(name + [0] + rest) == |name|
  {
    var bs := name + [0] + rest;
    if name != [] {
      assert bs[1..] == name[1..] + [0] + rest;
      FirstNameOf(name[1..], rest);
    }
  }

  lemma {:induction false} NameBytesFront(names: seq<Bytes>)
    requires names != []
    ensures NameBytes(names) == names[0] + [0] + NameBytes(names[1..])
  {
    var n := |names| - 1;
    if n == 0 {
      assert names[..0] == [] && names[1..] == [];
    } else {
      hide NameBytes;
      NameBytesFront(names[..n]);
      OneMoreName(names, n);
      OneMoreName(names[1..], n - 1);
      assert names[..n + 1] == names && names[1..][..n] == names[1..] && names[1..][n - 1] == names[n];
      assert names[..n][1..] == names[1..][..n - 1] && names[..n][0] == names[0];
    }
  }

  /** Splitting what the serializer wrote gives back the names. */
  lemma {:induction false} SplitNames(names: seq<Bytes>)
    requires AreNames(names)
    ensures Split(NameBytes(names)) == names
  {
    if names != [] {
      var rest := NameBytes(names[1..]);
      var bs := names[0] + [0] + rest;
      NameBytesFront(names);
      FirstNameOf(names[0], rest);
      SplitNames(names[1..]);
      assert bs[..|names[0]|] == names[0];
      assert AfterFirst(bs) == rest;
    }
  }

  /** The bytes with a terminator behind the last name, where it is missing. */
  function Terminated(bs: Bytes): Bytes {
    if bs == [] || bs[|bs| - 1] == 0 then bs else bs + [0]
  }

  /** Splitting any bytes loses nothing: the names, written out again, are the bytes. */
  lemma {:induction false} SplitJoins(bs: Bytes)
    ensures AreNames(Split(bs)) && NameBytes(Split(bs)) == Terminated(bs)
    decreases |bs|
  {
    hide NameBytes, Split, FirstName, AfterFirst, Terminated;
    if bs == [] {
      SplitNothing();
    } else {
      SplitStep(bs);
      var name, more := bs[..FirstName(bs)], Split(AfterFirst(bs));
      SplitJoins(AfterFirst(bs));
      NameBytesFront([name] + more);
      assert ([name] + more)[1..] == more;
      NameAndRest(bs);
    }
  }

  lemma SplitNothing()
    ensures Split([]) == [] && NameBytes([]) == [] && Terminated([]) == []
  {
  }

  lemma SplitStep(bs: Bytes)
    requires bs != []
    ensures Split(bs) == [bs[..FirstName(bs)]] + Split(AfterFirst(bs)) && IsName(bs[..FirstName(bs)])
    ensures |AfterFirst(bs)| < |bs|
  {
  }

  lemma NameAndRest(bs: Bytes)
    requires bs != []
    ensures bs[..FirstName(bs)] + [0] + Terminated(AfterFirst(bs)) == Terminated(bs)
  {
    hide FirstName, Terminated;
    var k := FirstName(bs);
    if k < |bs| {
      assert bs == bs[..k] + [0] + bs[k + 1..];
      TerminatedBehind(bs[..k] + [0], bs[k + 1..]);
    } else {
      assert bs[..k] == bs && bs[..k][|bs| - 1] != 0;
      Unterminated(bs);
    }
  }

  lemma Unterminated(bs: Bytes)
    requires bs != [] && bs[|bs| - 1] != 0
    ensures Terminated(bs) == bs + [0] && Terminated([]) == []
  {
  }

  lemma TerminatedBehind(front: Bytes, rest: Bytes)
    requires front != [] && front[|front| - 1] == 0
    ensures Terminated(front + rest) == front + Terminated(rest)
  {
    if rest == [] {
      assert front + rest == front;
    } else {
      assert (front + rest) + [0] == front + (rest + [0]);
    }
  }

  /** `NonEmpty` keeps every non-empty name, in order, and nothing else. */
  lemma {:induction false} NonEmptyFilters(a: seq<Bytes>, x: Bytes, b: seq<Bytes>)
    ensures NonEmpty(a + [x] + b) == NonEmpty(a) + (if x == [] then [] else [x]) + NonEmpty(b)
  {
    var all := a + [x] + b;
    if a == [] {
      assert all == [x] + b && all[1..] == b;
    } else {
      assert all[1..] == a[1..] + [x] + b;
      NonEmptyFilters(a[1..], x, b);
    }
  }

  /** `AtMost` takes names from the front, as many as there are up to the bound. */
  lemma AtMostFromFront(names: seq<Bytes>, n: nat)
    ensures AtMost(names, n) <= names
    ensures |AtMost(names, n)| == if |names| <= n then |names| else n
  {
  }

  lemma {:induction false} NonEmptyShrinks(names: seq<Bytes>)
    ensures |NonEmpty(names)| <= |names|
  {
    if names != [] { NonEmptyShrinks(names[1..]); }
  }

  /** What the parser makes of a serialized list, for every list of names: with a count that
      fits 32 bits, exactly the non-empty names in order. */
  lemma ListRoundTrip(names: seq<Bytes>)
    requires AreNames(names)
    ensures AtMost(NonEmpty(Split(NameBytes(names))), |names| % U32) ==
            (if |names| < U32 then NonEmpty(names) else AtMost(NonEmpty(names), |names| % U32))
  {
    hide Split, NonEmpty, NameBytes, AtMost;
    SplitNames(names);
    NonEmptyShrinks(names);
    if |names| < U32 {
      CountFits(|names|);
      AtMostAll(NonEmpty(names), |names|);
    }
  }

  lemma CountFits(n: nat)
    requires n < U32
    ensures n % U32 == n
  {
  }

  lemma AtMostAll(names: seq<Bytes>, n: nat)
    requires |names| <= n
    ensures AtMost(names, n) == names
  {
  }

  // --------------------------------------------------------------- whole replies

  datatype Reply = ReplyFailed | ReplySucceeded(services: seq<Bytes>)

  /** The reply failed at the management level, or by its result byte. */
  predicate SaysFailed(m: Bytes)
    requires |m| >= REPLY_ENVELOPE + HEADER
  {
    m[2] == 1 || m[REPLY_ENVELOPE + 1] != 0
  }

  /** handle_event_forward_operation_reply on a message of `length` bytes at the start of the
      receive buffer `mem`: envelope, header, list.  The byte behind the message must belong to
      the buffer.  A message that ends inside the header may only say that it failed. */
  method HandleReply(mem: array<Byte>, length: nat) returns (r: Reply)
    requires REPLY_ENVELOPE <= length < mem.Length && REPLY_ENVELOPE + HEADER <= mem.Length
    requires length < REPLY_ENVELOPE + HEADER ==> SaysFailed(mem[..])
    modifies mem
    ensures var m := old(mem[..]);
      r == if SaysFailed(m) then ReplyFailed
           else ReplySucceeded(AtMost(NonEmpty(Split(m[REPLY_ENVELOPE + HEADER..length])),
                                      Value(Big, m[REPLY_ENVELOPE + 4..REPLY_ENVELOPE + 8])))
  {
    hide Value, Split, NonEmpty, WellPlaced, Says, AtMost;
    if mem[2] == 1 {
      return ReplyFailed;
    }
    if mem[REPLY_ENVELOPE + 1] != 0 {
      return ReplyFailed;
    }
    var start := REPLY_ENVELOPE + HEADER;
    var expected := Value(Big, mem[REPLY_ENVELOPE + 4..REPLY_ENVELOPE + 8]);
    assert mem[..][start..length] == mem[start..start + (length - start)];
    assert mem[..][REPLY_ENVELOPE + 4..REPLY_ENVELOPE + 8] == mem[REPLY_ENVELOPE + 4..REPLY_ENVELOPE + 8];
    var found := Scan(mem, start, length - start, expected);
    r := ReplySucceeded(Says(found));
  }

  const APPLICATION_REPLY: nat := 7   // MANAGEMENT_APPLICATION_REPLY

  /** create_management_application_reply: type, status, flags, length, application id, data. */
  function ReplyMessage(status: Byte, id: nat, body: Bytes): Bytes {
    BytesOf(Big, 2, APPLICATION_REPLY) + [status, 0] + BytesOf(Big, 4, (REPLY_ENVELOPE + |body|) % U32)
      + BytesOf(Big, 4, id) + body
  }

  lemma ReplyParts(status: Byte, id: nat, head: Bytes, list: Bytes)
    requires |head| == HEADER
    ensures var w := ReplyMessage(status, id, head + list);
      && |w| == REPLY_ENVELOPE + HEADER + |list| && w[2] == status && w[REPLY_ENVELOPE + 1] == head[1]
      && w[REPLY_ENVELOPE + 4..REPLY_ENVELOPE + 8] == head[4..8]
      && w[REPLY_ENVELOPE + HEADER..] == list
  {
    hide BytesOf;
    var w := ReplyMessage(status, id, head + list);
    var front := BytesOf(Big, 2, APPLICATION_REPLY) + [status, 0]
      + BytesOf(Big, 4, (REPLY_ENVELOPE + |head + list|) % U32) + BytesOf(Big, 4, id);
    assert |front| == REPLY_ENVELOPE && w == front + (head + list);
    Tail(front, head, list);
  }

  lemma Tail(front: Bytes, head: Bytes, list: Bytes)
    requires |head| == HEADER
    ensures var w, n := front + (head + list), |front|;
      w[n + 1] == head[1] && w[n + 4..n + 8] == head[4..8] && w[n + HEADER..] == list
  {
  }

  /** A reply as the switch side serializes it, with any status, result and names, in the message
      of `length` bytes at the start of the receive buffer `m`: it is received as failed exactly if
      its status is 1 or its result is not 0, and otherwise as exactly the non-empty names in their
      original order. */
  lemma ReplyRoundTrip(status: Byte, id: nat, eventType: Byte, result: Byte, names: seq<Bytes>, m: Bytes, length: nat)
    requires AreNames(names) && |names| < U32
    requires length == REPLY_ENVELOPE + HEADER + |NameBytes(names)| < |m|
    requires m[..length] == ReplyMessage(status, id, Header(eventType, result, |names| % U32) + NameBytes(names))
    ensures SaysFailed(m) <==> status == 1 || result != 0
    ensures AtMost(NonEmpty(Split(m[REPLY_ENVELOPE + HEADER..length])),
                   Value(Big, m[REPLY_ENVELOPE + 4..REPLY_ENVELOPE + 8])) == NonEmpty(names)
  {
    hide Value, Split, NonEmpty, NameBytes, BytesOf, ReplyMessage;
    var head, list := Header(eventType, result, |names| % U32), NameBytes(names);
    ReplyParts(status, id, head, list);
    assert forall k :: 0 <= k < length ==> m[k] == m[..length][k];
    assert m[REPLY_ENVELOPE + 4..REPLY_ENVELOPE + 8] == head[4..8];
    assert head[4..8] == BytesOf(Big, 4, |names| % U32);
    assert m[REPLY_ENVELOPE + HEADER..length] == list;
    Powers();
    ValueOfBytes(Big, 4, |names| % U32);
    CountFits(|names|);
    ListRoundTrip(names);
  }

  /** The parser and the protocol agree on which replies are successes. */
  lemma FailureIsRefusal(m: Bytes)
    requires |m| >= REPLY_ENVELOPE + HEADER
    ensures SaysFailed(m) <==>
      !EventForwardProtocol.Accepts(EventForwardProtocol.Reply(m[2] == 1, m[REPLY_ENVELOPE + 1]))
  {
  }
}
