/**
  The Ruby wrappers of ruby/trema/switch-event.c as the client of the protocol: each
  all-switches call allocates one `callback_info`, hands it to the interface as user data,
  and relies on the interface to call the completion handler, which yields to the block
  and releases the record.
*/
module SwitchEvent {
  import opened EventForwardProtocol
  import opened EventForwardInvariant
  import opened EventForwardSteps
  import opened EventForwardRuns
  import opened EventForwardHistory
  import opened EventForwardOutcome

  datatype CallbackInfo = CallbackInfo(hasBlock: bool)

  datatype BlockCall = BlockCall(param: ParamId, ok: bool)

  /** A `callback_info` is identified by the request it was allocated for. */
  datatype Client = Client(
    efi: State,
    infos: map<ParamId, CallbackInfo>,   // live callback_info records
    released: seq<ParamId>,              // callback_info records released, in order
    blockCalls: seq<BlockCall>,
    blocks: map<ParamId, bool>)          // record: which accepted calls gave a block

  const CLIENT_INIT: Client := Client(INIT, map[], [], [], map[])

  datatype ClientEvent =
    | AllSwitches(knownType: bool, op: Operation, hasBlock: bool, sent: bool)
    | Elsewhere(e: Event)

  predicate ClientEnabled(c: Client, ce: ClientEvent) {
    match ce
    case AllSwitches(_, _, _, _) => true
    case Elsewhere(e) => !e.Start? && Enabled(c.efi, e)
  }

  /** add_/delete_forward_entry_..._all_switches: bad arguments are turned away before
      anything is allocated, and a refused start releases the record at once. */
  function Wrapper(c: Client, op: Operation, hasBlock: bool, sent: bool): Client {
    var p := c.efi.nextParam;
    var c1 := c.(efi := StartStep(c.efi, Param(op, true), sent));
    if sent then
      c1.(infos := c.infos[p := CallbackInfo(hasBlock)], blocks := c.blocks[p := hasBlock])
    else
      c1.(released := c.released + [p])
  }

  /** handle_event_forward_entry_to_all_callback. */
  function Completed(c: Client, call: Call): Client
    requires call.param in c.infos
  {
    var p := call.param;
    c.(blockCalls := c.blockCalls + (if c.infos[p].hasBlock then [BlockCall(p, call.result == Succeeded)] else []),
       infos := c.infos - {p},
       released := c.released + [p])
  }

  /** The client's records against the interface's. */
  ghost predicate Books(c: Client) {
    && c.infos.Keys == c.efi.params.Keys
    && c.blocks.Keys == c.efi.log.accepted.Keys
    && (forall p :: p in c.efi.log.accepted ==> c.efi.log.accepted[p].hasCallback)
    && (forall p :: p in c.infos ==> p in c.blocks && c.infos[p].hasBlock == c.blocks[p])
    && NoRepeats(c.released)
    && (forall p :: p in c.released <==> p in c.efi.log.refused || p in c.efi.log.outcome)
    && (forall i, j :: 0 <= i < j < |c.blockCalls| ==> c.blockCalls[i].param != c.blockCalls[j].param)
    && (forall p: ParamId, b :: BlockCall(p, b) in c.blockCalls <==>
          p in c.efi.log.outcome && p in c.blocks && c.blocks[p] && b == (c.efi.log.outcome[p] == Succeeded))
  }

  ghost predicate ClientInv(c: Client) {
    Inv(c.efi) && Books(c)
  }

  /** `c` after the interface moved to `r`: the completion handler runs if it was called. */
  function Notified(c: Client, r: State): Client
    requires CallsOnlyLive(c, r)
  {
    if |r.calls| > |c.efi.calls| then Completed(c.(efi := r), r.calls[|c.efi.calls|]) else c.(efi := r)
  }

  /** A callback can only be for a record that is still live. */
  predicate CallsOnlyLive(c: Client, r: State) {
    |r.calls| > |c.efi.calls| ==> r.calls[|c.efi.calls|].param in c.infos
  }

  /** The completion handler never sees a released `callback_info`. */
  lemma HandlerSeesLiveRecord(c: Client, e: Event)
    requires ClientInv(c) && Enabled(c.efi, e)
    ensures CallsOnlyLive(c, Step(c.efi, e))
  {
    StepCalls(c.efi, e);
  }

  ghost function ClientStep(c: Client, ce: ClientEvent): Client
    requires ClientInv(c) && ClientEnabled(c, ce)
  {
    match ce
    case AllSwitches(knownType, op, hasBlock, sent) =>
      if !knownType || op.service == "" then c else Wrapper(c, op, hasBlock, sent)
    case Elsewhere(e) =>
      HandlerSeesLiveRecord(c, e);
      Notified(c, Step(c.efi, e))
  }

  /** How one event changes the requests the client knows: none ends, or exactly one does
      and is called back with its result. */
  ghost predicate EndsAtMostOne(s: State, r: State) {
    && s.calls <= r.calls
    && r.log.accepted == s.log.accepted && r.log.refused == s.log.refused
    && if |r.calls| == |s.calls| then r.params == s.params && r.log.outcome == s.log.outcome
       else
         && |r.calls| == |s.calls| + 1
         && var c := r.calls[|s.calls|];
            && c.param in s.params && r.params == s.params - {c.param}
            && r.log.outcome == s.log.outcome[c.param := c.result]
  }

  lemma RetireEndsOne(s: State, b: State, t: Txid, result: EfiResult)
    requires t in b.table && b.table[t].param in b.params && b.params[b.table[t].param].hasCallback
    requires b.params == s.params && b.calls == s.calls
    requires b.log.accepted == s.log.accepted && b.log.refused == s.log.refused && b.log.outcome == s.log.outcome
    ensures EndsAtMostOne(s, Retire(b, t, result))
  {
  }

  lemma DispatchEndsAtMostOne(s: State, p: ParamId, ds: seq<Dpid>, os: seq<SetUp>)
    requires |ds| == |os| && p in s.params && s.params[p].hasCallback
    ensures EndsAtMostOne(s, DispatchStep(s, p, ds, os))
  {
    var t := TxidOf(s.dispatched);
    var a := InsertTx(s, p, ds, os);
    SendAllSent(a, t, ds, os);
    var b := SendAll(a, t, ds, os);
    if ds == [] || b.table[t].result == Failed {
      RetireEndsOne(s, b, t, b.table[t].result);
    }
  }

  lemma StepEndsAtMostOne(s: State, e: Event)
    requires NoDangling(s) && AtRest(s) && Enabled(s, e) && !e.Start?
    requires forall p :: p in s.params ==> s.params[p].hasCallback
    ensures EndsAtMostOne(s, Step(s, e))
  {
    if e.Response? || e.Timeout? { SwitchEventClosed(s, e); }
    match e
    case ManagerReply(_, _, _) =>
    case ListReply(p, a) =>
      match a {
        case ListFailed => DispatchEndsAtMostOne(NoteFailedList(s, p), p, [], []);
        case ListOf(ds, os) => DispatchEndsAtMostOne(s, p, ds, os);
      }
    case Response(i, reply) =>
      var x := s.infos[i];
      if Waits(s, x) {
        RetireEndsOne(s, Answered(s, i, Accepts(reply)), x.txid, if Accepts(reply) then Succeeded else Failed);
      }
    case Timeout(i) =>
      var x := s.infos[i];
      if Waits(s, x) { RetireEndsOne(s, Expired(s, i), x.txid, Failed); }
  }

  lemma SentKeepsBooks(c: Client, op: Operation, hasBlock: bool)
    requires Accounting(c.efi) && Books(c)
    ensures Books(Wrapper(c, op, hasBlock, true))
  {
    var p := c.efi.nextParam;
    assert p !in c.released && p !in c.efi.log.outcome;
  }

  lemma RefusedKeepsBooks(c: Client, op: Operation, hasBlock: bool)
    requires Accounting(c.efi) && Books(c)
    ensures Books(Wrapper(c, op, hasBlock, false))
  {
    assert c.efi.nextParam !in c.released;
    AppendNoRepeats(c.released, c.efi.nextParam);
  }

  lemma NotifiedKeepsBooks(c: Client, r: State)
    requires Accounting(c.efi) && Books(c) && EndsAtMostOne(c.efi, r)
    ensures CallsOnlyLive(c, r) && Books(Notified(c, r))
  {
    if |r.calls| > |c.efi.calls| {
      var call := r.calls[|c.efi.calls|];
      var p := call.param;
      assert p !in c.released;
      AppendNoRepeats(c.released, p);
      var n := Notified(c, r);
      forall i | 0 <= i < |c.blockCalls| ensures c.blockCalls[i].param != p {
        assert BlockCall(c.blockCalls[i].param, c.blockCalls[i].ok) in c.blockCalls;
      }
      forall q: ParamId, b
        ensures BlockCall(q, b) in n.blockCalls <==>
          q in r.log.outcome && q in n.blocks && n.blocks[q] && b == (r.log.outcome[q] == Succeeded)
      {
        assert BlockCall(q, b) in n.blockCalls <==>
          BlockCall(q, b) in c.blockCalls || (c.infos[p].hasBlock
                && BlockCall(q, b) == BlockCall(p, call.result == Succeeded));
      }
    }
  }

  lemma ClientStepKeepsInv(c: Client, ce: ClientEvent)
    requires ClientInv(c) && ClientEnabled(c, ce)
    ensures ClientInv(ClientStep(c, ce))
  {
    match ce
    case AllSwitches(knownType, op, hasBlock, sent) =>
      StartKeepsInv(c.efi, Param(op, true), sent);
      if sent { SentKeepsBooks(c, op, hasBlock); } else { RefusedKeepsBooks(c, op, hasBlock); }
    case Elsewhere(e) =>
      StepKeepsInv(c.efi, e);
      StepEndsAtMostOne(c.efi, e);
      NotifiedKeepsBooks(c, Step(c.efi, e));
  }

  lemma StartsValid()
    ensures ClientInv(CLIENT_INIT)
  {
  }

  ghost predicate IsClientRun(cs: seq<Client>, es: seq<ClientEvent>) {
    && |cs| == |es| + 1
    && cs[0] == CLIENT_INIT
    && forall k :: 0 <= k < |es| ==>
         ClientInv(cs[k]) && ClientEnabled(cs[k], es[k]) && cs[k + 1] == ClientStep(cs[k], es[k])
  }

  lemma {:induction false} ClientRunKeepsInv(cs: seq<Client>, es: seq<ClientEvent>, k: nat)
    requires IsClientRun(cs, es) && k < |cs|
    ensures ClientInv(cs[k])
  {
    hide ClientInv, ClientEnabled, ClientStep;
    StartsValid();
    if k > 0 {
      ClientRunKeepsInv(cs, es, k - 1);
      ClientStepKeepsInv(cs[k - 1], es[k - 1]);
    }
  }

  /** Whatever the client or the environment may do next, the run goes on. */
  lemma ClientRunCanContinue(cs: seq<Client>, es: seq<ClientEvent>, ce: ClientEvent)
    requires IsClientRun(cs, es) && ClientEnabled(cs[|es|], ce)
    ensures ClientInv(cs[|es|])
    ensures IsClientRun(cs + [ClientStep(cs[|es|], ce)], es + [ce])
  {
    hide ClientInv, ClientEnabled, ClientStep;
    ClientRunKeepsInv(cs, es, |es|);
    var cs', es' := cs + [ClientStep(cs[|es|], ce)], es + [ce];
    forall k | 0 <= k < |es'|
      ensures ClientInv(cs'[k]) && ClientEnabled(cs'[k], es'[k]) && cs'[k + 1] == ClientStep(cs'[k], es'[k])
    {
      if k < |es| {
        assert cs'[k] == cs[k] && cs'[k + 1] == cs[k + 1] && es'[k] == es[k];
      }
    }
  }

  // --------------------------------------------------------- the run underneath

  /** The event of the interface that a client event causes, if any: a wrapper call with bad
      arguments does not reach the interface. */
  function Reaches(ce: ClientEvent): seq<Event> {
    match ce
    case AllSwitches(knownType, op, _, sent) =>
      if !knownType || op.service == "" then [] else [Start(Param(op, true), sent)]
    case Elsewhere(e) => [e]
  }

  ghost function EfiEvents(es: seq<ClientEvent>, n: nat): seq<Event>
    requires n <= |es|
  {
    if n == 0 then [] else EfiEvents(es, n - 1) + Reaches(es[n - 1])
  }

  ghost function EfiStates(cs: seq<Client>, es: seq<ClientEvent>, n: nat): seq<State>
    requires n <= |es| < |cs|
  {
    if n == 0 then [INIT]
    else if Reaches(es[n - 1]) == [] then EfiStates(cs, es, n - 1)
    else EfiStates(cs, es, n - 1) + [cs[n].efi]
  }

  /** A client's history, seen from the interface, is a run of the protocol. */
  lemma {:induction false} ClientRunIsRun(cs: seq<Client>, es: seq<ClientEvent>, n: nat)
    requires IsClientRun(cs, es) && n <= |es|
    ensures var ss, ee := EfiStates(cs, es, n), EfiEvents(es, n);
      IsRun(ss, ee) && ss[|ee|] == cs[n].efi
  {
    hide ClientInv, ClientEnabled, ClientStep, Reaches, Step, Enabled, NoDangling;
    if n == 0 {
      StartsFresh(cs, es);
    } else {
      ClientRunIsRun(cs, es, n - 1);
      RunContinues(cs, es, n - 1, EfiStates(cs, es, n - 1), EfiEvents(es, n - 1));
    }
  }

  lemma StartsFresh(cs: seq<Client>, es: seq<ClientEvent>)
    requires IsClientRun(cs, es)
    ensures cs[0].efi == INIT && cs[0].blocks == map[] && IsRun([INIT], [])
  {
  }

  lemma RunContinues(cs: seq<Client>, es: seq<ClientEvent>, n: nat, ss: seq<State>, ee: seq<Event>)
    requires IsClientRun(cs, es) && n < |es| && IsRun(ss, ee) && ss[|ee|] == cs[n].efi
    ensures var ss', ee' := (if Reaches(es[n]) == [] then ss else ss + [cs[n + 1].efi]), ee + Reaches(es[n]);
      IsRun(ss', ee') && ss'[|ee'|] == cs[n + 1].efi
  {
    hide ClientInv, ClientEnabled, ClientStep, Reaches, Step, Enabled, NoDangling, IsRun;
    StepReaches(cs[n], es[n], cs[n + 1]);
    if Reaches(es[n]) == [] {
      assert ee + [] == ee;
    } else {
      RunCanContinue(ss, ee, Reaches(es[n])[0]);
      RunLength(ss, ee);
    }
  }

  lemma RunLength(ss: seq<State>, ee: seq<Event>)
    requires IsRun(ss, ee)
    ensures |ss| == |ee| + 1
  {
  }

  lemma StepReaches(c: Client, ce: ClientEvent, r: Client)
    requires ClientInv(c) && ClientEnabled(c, ce) && r == ClientStep(c, ce)
    ensures if Reaches(ce) == [] then r == c
            else Reaches(ce) == [Reaches(ce)[0]] && Enabled(c.efi, Reaches(ce)[0])
                  && r.efi == Step(c.efi, Reaches(ce)[0])
  {
  }

  /** A wrapper call with a block became request `p`. */
  ghost predicate GaveBlock(cs: seq<Client>, es: seq<ClientEvent>, n: nat, p: ParamId)
    requires n <= |es| < |cs|
  {
    exists k :: 0 <= k < n && GivesBlock(cs[k], es[k], p)
  }

  ghost predicate GivesBlock(c: Client, ce: ClientEvent, p: ParamId) {
    ce.AllSwitches? && ce.knownType && ce.op.service != "" && ce.sent && ce.hasBlock && c.efi.nextParam == p
  }

  lemma StepBlocks(c: Client, ce: ClientEvent, p: ParamId)
    requires ClientInv(c) && ClientEnabled(c, ce)
    ensures var r := ClientStep(c, ce);
      (p in r.blocks && r.blocks[p]) <==> (p in c.blocks && c.blocks[p]) || GivesBlock(c, ce, p)
  {
    assert c.efi.nextParam !in c.blocks;
  }

  lemma {:induction false} BlocksFollowEvents(cs: seq<Client>, es: seq<ClientEvent>, n: nat, p: ParamId)
    requires IsClientRun(cs, es) && n <= |es|
    ensures p in cs[n].blocks && cs[n].blocks[p] <==> GaveBlock(cs, es, n, p)
  {
    hide ClientInv, ClientStep, ClientEnabled, GivesBlock;
    if n == 0 {
      StartsFresh(cs, es);
    } else {
      BlocksFollowEvents(cs, es, n - 1, p);
      StepBlocks(cs[n - 1], es[n - 1], p);
      if k :| 0 <= k < n && GivesBlock(cs[k], es[k], p) {
        assert k == n - 1 || GaveBlock(cs, es, n - 1, p);
      }
      if k :| 0 <= k < n - 1 && GivesBlock(cs[k], es[k], p) {
        assert GaveBlock(cs, es, n, p);
      }
      if GivesBlock(cs[n - 1], es[n - 1], p) { assert GaveBlock(cs, es, n, p); }
    }
  }

  // ------------------------------------------------------------------- theorems

  lemma BooksTell(c: Client, p: ParamId)
    requires Accounting(c.efi) && CallsInv(c.efi) && Books(c)
    ensures NoRepeats(c.released) && (p in c.infos <==> p in c.efi.params)
    ensures p in c.released <==> p in c.efi.log.refused || exists r :: Call(p, r) in c.efi.calls
    ensures !(p in c.efi.log.refused && exists r :: Call(p, r) in c.efi.calls)
    ensures p in c.blocks && c.blocks[p] ==> p in c.efi.log.accepted && c.efi.log.accepted[p].hasCallback
    ensures p in c.blocks && c.blocks[p] ==>
      forall ok :: BlockCall(p, ok) in c.blockCalls <==> FateOf(c.efi, p) == Reported(if ok then Succeeded else Failed)
  {
    if p in c.efi.log.outcome {
      assert Call(p, c.efi.log.outcome[p]) in c.efi.calls;
      assert c.efi.log.outcome[p] == Succeeded || c.efi.log.outcome[p] == Failed;
    }
  }

  /** Over any history of wrapper calls and protocol events: every `callback_info` is released
      at most once, by the wrapper exactly when the start was refused and otherwise by the one
      callback; and it is live exactly while its request is in flight. */
  lemma CallbackInfoTheorem(cs: seq<Client>, es: seq<ClientEvent>, p: ParamId)
    requires IsClientRun(cs, es)
    ensures var c, ee := cs[|es|], EfiEvents(es, |es|);
      && NoRepeats(c.released)
      && (p in c.infos <==> p in c.efi.params)
      && (p in c.released <==> Refused(ee, |ee|, p) || exists r :: Call(p, r) in c.efi.calls)
      && !(Refused(ee, |ee|, p) && exists r :: Call(p, r) in c.efi.calls)
  {
    hide Inv, Books, Refused;
    ClientRunKeepsInv(cs, es, |es|);
    ClientRunIsRun(cs, es, |es|);
    var ss, ee := EfiStates(cs, es, |es|), EfiEvents(es, |es|);
    RefusedFollowsEvents(ss, ee, |ee|, p);
    InvParts(cs[|es|].efi);
    BooksTell(cs[|es|], p);
  }

  lemma InvParts(s: State)
    requires Inv(s)
    ensures Accounting(s) && CallsInv(s)
  {
  }

  /** The block of a request is called with true exactly if the request earned success, and with
      false exactly if it earned failure. */
  lemma BlockTheorem(cs: seq<Client>, es: seq<ClientEvent>, p: ParamId)
    requires IsClientRun(cs, es) && GaveBlock(cs, es, |es|, p)
    ensures var ss, ee := EfiStates(cs, es, |es|), EfiEvents(es, |es|);
      && IsRun(ss, ee)
      && (BlockCall(p, true) in cs[|es|].blockCalls <==> EarnsSuccess(ss, ee, p))
      && (BlockCall(p, false) in cs[|es|].blockCalls <==> EarnsFailure(ss, ee, p))
  {
    hide Inv, Books, Accepted, EarnsSuccess, EarnsFailure, FateOf, GaveBlock;
    var c := cs[|es|];
    ClientRunKeepsInv(cs, es, |es|);
    ClientRunIsRun(cs, es, |es|);
    BlocksFollowEvents(cs, es, |es|, p);
    InvParts(c.efi);
    BooksTell(c, p);
    var ss, ee := EfiStates(cs, es, |es|), EfiEvents(es, |es|);
    AcceptedFollowsEvents(ss, ee, |ee|, p, c.efi.log.accepted[p]);
    OutcomeTheorem(ss, ee, p, c.efi.log.accepted[p]);
  }

  /** What the documentation of the wrappers says about true, that the manager and all switches
      agreed, holds of a block called with true if and only if the list reply had not failed. */
  lemma TrueIsKeptIff(cs: seq<Client>, es: seq<ClientEvent>, p: ParamId)
    requires IsClientRun(cs, es) && GaveBlock(cs, es, |es|, p) && BlockCall(p, true) in cs[|es|].blockCalls
    ensures var ss, ee := EfiStates(cs, es, |es|), EfiEvents(es, |es|);
      IsRun(ss, ee) && (EverySwitchAgreed(ss, ee, p) <==> !ListFailedFor(ee, |ee|, p))
  {
    hide Inv, Books, Accepted, EarnsSuccess, EarnsFailure, FateOf, GaveBlock, EverySwitchAgreed, ListFailedFor;
    var c := cs[|es|];
    ClientRunKeepsInv(cs, es, |es|);
    ClientRunIsRun(cs, es, |es|);
    BlocksFollowEvents(cs, es, |es|, p);
    InvParts(c.efi);
    BooksTell(c, p);
    var ss, ee := EfiStates(cs, es, |es|), EfiEvents(es, |es|);
    AcceptedFollowsEvents(ss, ee, |ee|, p, c.efi.log.accepted[p]);
    SuccessIsKeptIff(ss, ee, p, c.efi.log.accepted[p]);
  }
}
