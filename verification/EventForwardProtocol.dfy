/**
  The all-switches transaction of src/lib/event_forward_interface.c as a step
  system.  One request to add or delete an event-forward entry goes first to the
  switch manager, then asks for the list of switches, then fans out to every
  datapath id with a one-shot timer each, and gathers responses and timeouts until
  the requester can be told a result.

  Every handler of the source is one atomic step of `Step`.  `Enabled` states what
  the messenger and the timer library promise: a reply arrives at most once and only
  for a request that was sent, and a timer fires at most once.
*/
module EventForwardProtocol {

  type ParamId = nat   // identity of one allocated request parameter record
  type InfoId = nat    // identity of one allocated txinfo record
  type Txid = nat
  type Dpid = nat

  const TXID_MODULUS: nat := 0x1_0000_0000

  datatype EfiResult = Succeeded | Failed

  /** What the requester asked for: add or delete, event type, service name. */
  datatype Operation = Operation(add: bool, eventType: nat, service: string)

  datatype Param = Param(op: Operation, hasCallback: bool)

  datatype TxInfo = TxInfo(dpid: Dpid, txid: Txid)

  datatype Tx = Tx(waiting: set<Dpid>, result: EfiResult, param: ParamId)

  datatype Target = SwitchManager | SwitchList | Switch(dpid: Dpid)

  datatype Message = Message(param: ParamId, target: Target, op: Operation)

  datatype Call = Call(param: ParamId, result: EfiResult)

  datatype Cell = ParamCell(p: ParamId) | InfoCell(i: InfoId)

  /** What happened when the request for one list position was set up. */
  datatype SetUp = SendFailed | TimerFailed | Armed

  /** A management reply: failed at the management level, or carrying a result byte. */
  datatype Reply = Reply(managementFailed: bool, code: nat)

  datatype ListAnswer = ListFailed | ListOf(dpids: seq<Dpid>, setUps: seq<SetUp>)

  datatype Event =
    | Start(param: Param, sent: bool)
    | ManagerReply(p: ParamId, reply: Reply, listSent: bool)
    | ListReply(p: ParamId, answer: ListAnswer)
    | Response(i: InfoId, reply: Reply)
    | Timeout(i: InfoId)

  /** One switch event as the environment delivered it, effective or not. */
  datatype Verdict = Verdict(txid: Txid, dpid: Dpid, ok: bool)

  datatype Dispatch = Dispatch(param: ParamId, dpids: seq<Dpid>, setUps: seq<SetUp>)

  /** Record of what the environment did.  No step reads it. */
  datatype Log = Log(
    accepted: map<ParamId, Param>,
    refused: set<ParamId>,
    managerNo: set<ParamId>,
    listFailed: set<ParamId>,
    dispatches: map<Txid, Dispatch>,
    txOf: map<ParamId, Txid>,        // the transaction of a request that was dispatched
    verdicts: seq<Verdict>,
    outcome: map<ParamId, EfiResult>)

  datatype State = State(
    table: map<Txid, Tx>,
    dispatched: nat,                 // number of transaction ids handed out
    nextParam: ParamId,
    nextInfo: InfoId,
    params: map<ParamId, Param>,     // live parameter records
    infos: map<InfoId, TxInfo>,      // live txinfo records
    timers: set<InfoId>,             // armed timers, by their user data
    managerPending: set<ParamId>,    // requests sent and not yet answered
    listPending: set<ParamId>,
    switchPending: set<InfoId>,
    outbox: seq<Message>,
    calls: seq<Call>,                // user callbacks made
    freed: seq<Cell>,                // records released, in order
    log: Log)

  const INIT: State :=
    State(map[], 0, 0, 0, map[], map[], {}, {}, {}, {}, [], [], [],
          Log(map[], {}, {}, {}, map[], map[], [], map[]))

  /** Only a reply without management failure and with result byte 0 is a success;
      an unknown result byte counts as failure. */
  predicate Accepts(r: Reply) {
    !r.managementFailed && r.code == 0
  }

  function TxidOf(dispatched: nat): Txid {
    (dispatched + 1) % TXID_MODULUS
  }

  // ---------------------------------------------------------------- steps

  /** Report `r` to the requester if it gave a callback, and release the record. */
  function Finish(s: State, p: ParamId, r: EfiResult): State
    requires p in s.params
  {
    s.(params := s.params - {p},
       freed := s.freed + [ParamCell(p)],
       calls := s.calls + (if s.params[p].hasCallback then [Call(p, r)] else []),
       log := s.log.(outcome := s.log.outcome[p := r]))
  }

  function Retire(s: State, t: Txid, r: EfiResult): State
    requires t in s.table && s.table[t].param in s.params
  {
    Finish(s, s.table[t].param, r).(table := s.table - {t})
  }

  function StartStep(s: State, param: Param, sent: bool): State {
    var p := s.nextParam;
    var s1 := s.(nextParam := p + 1);
    if sent then
      s1.(params := s.params[p := param],
          managerPending := s.managerPending + {p},
          outbox := s.outbox + [Message(p, SwitchManager, param.op)],
          log := s.log.(accepted := s.log.accepted[p := param]))
    else
      s1.(freed := s.freed + [ParamCell(p)],
          log := s.log.(refused := s.log.refused + {p}))
  }

  function ManagerStep(s: State, p: ParamId, reply: Reply, listSent: bool): State
    requires p in s.params
  {
    var s1 := s.(managerPending := s.managerPending - {p});
    if Accepts(reply) && listSent then
      s1.(listPending := s.listPending + {p},
          outbox := s.outbox + [Message(p, SwitchList, s.params[p].op)])
    else
      Finish(s1.(log := s.log.(managerNo := s.log.managerNo + {p})), p, Failed)
  }

  /** The request to one switch has been sent, with a new txinfo. */
  function Ask(s: State, t: Txid, d: Dpid): State
    requires t in s.table && s.table[t].param in s.params
  {
    var p := s.table[t].param;
    s.(nextInfo := s.nextInfo + 1,
       infos := s.infos[s.nextInfo := TxInfo(d, t)],
       switchPending := s.switchPending + {s.nextInfo},
       outbox := s.outbox + [Message(p, Switch(d), s.params[p].op)])
  }

  /** One position of the dispatched list.  A dpid that is already waiting is skipped. */
  function SendOne(s: State, t: Txid, d: Dpid, o: SetUp): State
    requires t in s.table && s.table[t].param in s.params
  {
    var tx := s.table[t];
    var i := s.nextInfo;
    if d in tx.waiting then s
    else if o == SendFailed then
      s.(nextInfo := i + 1,
         table := s.table[t := tx.(result := Failed)],
         freed := s.freed + [InfoCell(i)])
    else if o == TimerFailed then
      Ask(s, t, d).(table := s.table[t := tx.(result := Failed)])
    else
      Ask(s, t, d).(table := s.table[t := tx.(waiting := tx.waiting + {d})],
                    timers := s.timers + {i})
  }

  function SendAll(s: State, t: Txid, ds: seq<Dpid>, os: seq<SetUp>): (r: State)
    requires |ds| == |os|
    requires t in s.table && s.table[t].param in s.params
    ensures t in r.table && r.table[t].param == s.table[t].param && r.params == s.params
  {
    if ds == [] then s
    else
      var n := |ds| - 1;
      SendOne(SendAll(s, t, ds[..n], os[..n]), t, ds[n], os[n])
  }

  function InsertTx(s: State, p: ParamId, ds: seq<Dpid>, os: seq<SetUp>): State {
    var t := TxidOf(s.dispatched);
    s.(listPending := s.listPending - {p},
       dispatched := s.dispatched + 1,
       table := s.table[t := Tx({}, Succeeded, p)],
       log := s.log.(dispatches := s.log.dispatches[t := Dispatch(p, ds, os)],
                     txOf := s.log.txOf[p := t]))
  }

  function DispatchStep(s: State, p: ParamId, ds: seq<Dpid>, os: seq<SetUp>): State
    requires |ds| == |os| && p in s.params
  {
    var t := TxidOf(s.dispatched);
    var s1 := SendAll(InsertTx(s, p, ds, os), t, ds, os);
    if ds == [] || s1.table[t].result == Failed then Retire(s1, t, s1.table[t].result) else s1
  }

  function NoteFailedList(s: State, p: ParamId): State {
    s.(log := s.log.(listFailed := s.log.listFailed + {p}))
  }

  /** A failed list reply is handed on as an empty list. */
  function ListStep(s: State, p: ParamId, a: ListAnswer): State
    requires p in s.params
    requires a.ListOf? ==> |a.dpids| == |a.setUps|
  {
    match a
    case ListFailed => DispatchStep(NoteFailedList(s, p), p, [], [])
    case ListOf(ds, os) => DispatchStep(s, p, ds, os)
  }

  predicate Waits(s: State, x: TxInfo) {
    x.txid in s.table && x.dpid in s.table[x.txid].waiting
  }

  /** A response cancels its timer and releases its txinfo before it looks at the table. */
  function Answered(s: State, i: InfoId, ok: bool): State
    requires i in s.infos
  {
    s.(timers := s.timers - {i},
       infos := s.infos - {i},
       switchPending := s.switchPending - {i},
       freed := s.freed + [InfoCell(i)],
       log := s.log.(verdicts := s.log.verdicts + [Verdict(s.infos[i].txid, s.infos[i].dpid, ok)]))
  }

  /** A timer that fires is gone; its txinfo stays for the response that may still come. */
  function Expired(s: State, i: InfoId): State
    requires i in s.infos
  {
    s.(timers := s.timers - {i},
       log := s.log.(verdicts := s.log.verdicts + [Verdict(s.infos[i].txid, s.infos[i].dpid, false)]))
  }

  /** check_tx_result_and_respond: a transaction that has failed is over. */
  function CheckResult(s: State, t: Txid): State
    requires t in s.table && s.table[t].param in s.params
  {
    if s.table[t].result == Failed then Retire(s, t, Failed) else s
  }

  /** The switch of `x` is no longer waited for; a failure marks the transaction. */
  function StruckOff(tx: Tx, d: Dpid, ok: bool): Tx {
    Tx(tx.waiting - {d}, if ok then tx.result else Failed, tx.param)
  }

  function ResponseStep(s: State, i: InfoId, reply: Reply): State
    requires i in s.infos
    requires forall t :: t in s.table ==> s.table[t].param in s.params
  {
    var x := s.infos[i];
    var s1 := Answered(s, i, Accepts(reply));
    if !Waits(s, x) then s1
    else
      var tx := StruckOff(s.table[x.txid], x.dpid, Accepts(reply));
      var s2 := CheckResult(s1.(table := s.table[x.txid := tx]), x.txid);
      if x.txid in s2.table && tx.waiting == {} then Retire(s2, x.txid, tx.result) else s2
  }

  /** The result is checked even if the switch is not waiting any more. */
  function TimeoutStep(s: State, i: InfoId): State
    requires i in s.infos
    requires forall t :: t in s.table ==> s.table[t].param in s.params
  {
    var x := s.infos[i];
    var s1 := Expired(s, i);
    if x.txid !in s.table then s1
    else
      var tx := if Waits(s, x) then StruckOff(s.table[x.txid], x.dpid, false) else s.table[x.txid];
      CheckResult(s1.(table := s.table[x.txid := tx]), x.txid)
  }

  /** What the environment may do next. */
  predicate Enabled(s: State, e: Event) {
    match e
    case Start(_, _) => true
    case ManagerReply(p, _, _) => p in s.managerPending
    case ListReply(p, a) =>
      && p in s.listPending
      && s.dispatched < TXID_MODULUS
      && (a.ListOf? ==> |a.dpids| == |a.setUps|)
    case Response(i, _) => i in s.switchPending
    case Timeout(i) => i in s.timers
  }

  /** Every record a handler is about to read is live. */
  predicate NoDangling(s: State) {
    && s.managerPending <= s.params.Keys
    && s.listPending <= s.params.Keys
    && s.switchPending <= s.infos.Keys
    && s.timers <= s.infos.Keys
    && forall t :: t in s.table ==> s.table[t].param in s.params
  }

  function Step(s: State, e: Event): State
    requires NoDangling(s) && Enabled(s, e)
  {
    match e
    case Start(param, sent) => StartStep(s, param, sent)
    case ManagerReply(p, reply, listSent) => ManagerStep(s, p, reply, listSent)
    case ListReply(p, a) => ListStep(s, p, a)
    case Response(i, reply) => ResponseStep(s, i, reply)
    case Timeout(i) => TimeoutStep(s, i)
  }
}
