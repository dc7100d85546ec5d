/**
  The handlers of src/lib/event_forward_interface.c as methods on the module's state,
  each proved to perform exactly its step of the protocol.
*/
module EventForwardInterface {
  import opened EventForwardProtocol
  import opened EventForwardInvariant
  import opened EventForwardSteps

  class Interface {
    var txTable: map<Txid, Tx>          // efi_tx_table
    var lastTxid: Txid                  // the static counter of get_txid
    var params: map<ParamId, Param>
    var infos: map<InfoId, TxInfo>
    var timers: set<InfoId>
    var managerPending: set<ParamId>
    var listPending: set<ParamId>
    var switchPending: set<InfoId>
    var nextParam: ParamId
    var nextInfo: InfoId
    var outbox: seq<Message>
    var calls: seq<Call>
    ghost var dispatched: nat
    ghost var freed: seq<Cell>
    ghost var log: Log

    ghost function Abs(): State
      reads this
    {
      State(txTable, dispatched, nextParam, nextInfo, params, infos, timers,
            managerPending, listPending, switchPending, outbox, calls, freed, log)
    }

    /** The counter of get_txid wraps at 32 bits. */
    ghost predicate Counting()
      reads this
    {
      lastTxid == dispatched % TXID_MODULUS
    }

    ghost predicate Valid()
      reads this
    {
      Inv(Abs()) && Counting()
    }

    constructor ()
      ensures Valid() && Abs() == INIT
    {
      txTable, lastTxid, dispatched := map[], 0, 0;
      params, infos, nextParam, nextInfo := map[], map[], 0, 0;
      timers, managerPending, listPending, switchPending := {}, {}, {}, {};
      outbox, calls, freed := [], [], [];
      log := INIT.log;
    }

    // ------------------------------------------------------------- helpers

    /** Call back if there is a callback, then release the request record. */
    method FinishRequest(p: ParamId, r: EfiResult)
      requires p in params
      modifies `params, `calls, `freed, `log
      ensures Abs() == Finish(old(Abs()), p, r)
    {
      if params[p].hasCallback {
        calls := calls + [Call(p, r)];
      }
      log := log.(outcome := log.outcome[p := r]);
      params := params - {p};
      freed := freed + [ParamCell(p)];
    }

    /** Report, then drop the transaction and its request record. */
    method EndTx(t: Txid)
      requires t in txTable && txTable[t].param in params
      modifies `txTable, `params, `calls, `freed, `log
      ensures Abs() == Retire(old(Abs()), t, old(txTable)[t].result)
    {
      var tx := txTable[t];
      FinishRequest(tx.param, tx.result);
      txTable := txTable - {t};
    }

    method CheckTxResultAndRespond(t: Txid) returns (ended: bool)
      requires t in txTable && txTable[t].param in params
      modifies `txTable, `params, `calls, `freed, `log
      ensures ended <==> old(txTable)[t].result == Failed
      ensures Abs() == if ended then Retire(old(Abs()), t, Failed) else old(Abs())
    {
      ended := txTable[t].result == Failed;
      if ended {
        EndTx(t);
      }
    }

    method GetTxid() returns (t: Txid)
      requires Counting()
      modifies `lastTxid, `dispatched
      ensures t == TxidOf(old(dispatched)) && Counting() && dispatched == old(dispatched) + 1
    {
      lastTxid := (lastTxid + 1) % TXID_MODULUS;
      dispatched := dispatched + 1;
      t := lastTxid;
    }

    // ------------------------------------------------------------ handlers

    /** add_/delete_event_forward_entry_to_all_switches; `sent` is what the messenger says. */
    method StartRequest(param: Param, sent: bool) returns (p: ParamId)
      modifies `params, `nextParam, `managerPending, `outbox, `freed, `log
      ensures Abs() == StartStep(old(Abs()), param, sent) && p == old(nextParam)
    {
      p := nextParam;
      nextParam := nextParam + 1;
      if sent {
        params := params[p := param];
        managerPending := managerPending + {p};
        outbox := outbox + [Message(p, SwitchManager, param.op)];
        log := log.(accepted := log.accepted[p := param]);
      } else {
        freed := freed + [ParamCell(p)];
        log := log.(refused := log.refused + {p});
      }
    }

    /** _get_switch_list_after_swm_succ, on the reply of the switch manager. */
    method GetSwitchListAfterManager(p: ParamId, reply: Reply, listSent: bool)
      requires p in params
      modifies `managerPending, `listPending, `params, `outbox, `calls, `freed, `log
      ensures Abs() == ManagerStep(old(Abs()), p, reply, listSent)
    {
      managerPending := managerPending - {p};
      var success := Accepts(reply) && listSent;
      if success {
        listPending := listPending + {p};
        outbox := outbox + [Message(p, SwitchList, params[p].op)];
      } else {
        log := log.(managerNo := log.managerNo + {p});
        FinishRequest(p, Failed);
      }
    }

    /** The send failed: the txinfo is released and the dpid no longer waited for. */
    method AbandonSwitch(t: Txid, d: Dpid)
      requires t in txTable && txTable[t].param in params && d !in txTable[t].waiting
      modifies `txTable, `nextInfo, `freed
      ensures Abs() == SendOne(old(Abs()), t, d, SendFailed)
    {
      var tx := txTable[t];
      var i := nextInfo;
      nextInfo := nextInfo + 1;
      assert tx.waiting + {d} - {d} == tx.waiting;
      txTable := txTable[t := Tx(tx.waiting + {d} - {d}, Failed, tx.param)];
      freed := freed + [InfoCell(i)];
    }

    /** The request is on its way, with its txinfo. */
    method AskSwitch(t: Txid, d: Dpid) returns (i: InfoId)
      requires t in txTable && txTable[t].param in params
      modifies `infos, `nextInfo, `switchPending, `outbox
      ensures Abs() == Ask(old(Abs()), t, d) && i == old(nextInfo)
    {
      var p := txTable[t].param;
      i := nextInfo;
      nextInfo := nextInfo + 1;
      infos := infos[i := TxInfo(d, t)];
      switchPending := switchPending + {i};
      outbox := outbox + [Message(p, Switch(d), params[p].op)];
    }

    /** The send worked: arm the timer, or give up waiting for this dpid. */
    method AwaitSwitch(t: Txid, d: Dpid, armed: bool)
      requires t in txTable && txTable[t].param in params && d !in txTable[t].waiting
      modifies `txTable, `infos, `nextInfo, `timers, `switchPending, `outbox
      ensures Abs() == SendOne(old(Abs()), t, d, if armed then Armed else TimerFailed)
    {
      hide Ask;
      var tx := txTable[t];
      var i := AskSwitch(t, d);
      if armed {
        timers := timers + {i};
        txTable := txTable[t := tx.(waiting := tx.waiting + {d})];
      } else {
        assert tx.waiting + {d} - {d} == tx.waiting;
        txTable := txTable[t := Tx(tx.waiting + {d} - {d}, Failed, tx.param)];
      }
    }

    /** The body of the dispatch loop. */
    method SetUpSwitch(t: Txid, d: Dpid, o: SetUp)
      requires t in txTable && txTable[t].param in params
      modifies `txTable, `infos, `nextInfo, `timers, `switchPending, `outbox, `freed
      ensures Abs() == SendOne(old(Abs()), t, d, o)
    {
      if d in txTable[t].waiting {
        return;
      }
      if o == SendFailed {
        AbandonSwitch(t, d);
      } else {
        AwaitSwitch(t, d, o == Armed);
      }
    }

    /** The dispatch loop of _dispatch_to_all_switch. */
    method SetUpSwitches(t: Txid, dpids: seq<Dpid>, setUps: seq<SetUp>)
      requires t in txTable && txTable[t].param in params && |dpids| == |setUps|
      modifies `txTable, `infos, `nextInfo, `timers, `switchPending, `outbox, `freed
      ensures Abs() == SendAll(old(Abs()), t, dpids, setUps)
    {
      var k := 0;
      while k < |dpids|
        invariant 0 <= k <= |dpids|
        invariant Abs() == SendAll(old(Abs()), t, dpids[..k], setUps[..k])
      {
        assert dpids[..k + 1][..k] == dpids[..k] && setUps[..k + 1][..k] == setUps[..k];
        SetUpSwitch(t, dpids[k], setUps[k]);
        k := k + 1;
      }
      assert dpids[..k] == dpids && setUps[..k] == setUps;
    }

    /** _insert_tx. */
    method NewTx(p: ParamId, ghost dpids: seq<Dpid>, ghost setUps: seq<SetUp>) returns (t: Txid)
      requires Counting() && TxidOf(dispatched) !in txTable
      modifies `listPending, `txTable, `lastTxid, `dispatched, `log
      ensures Counting() && t == TxidOf(old(dispatched))
      ensures Abs() == InsertTx(old(Abs()), p, dpids, setUps)
    {
      listPending := listPending - {p};
      t := GetTxid();
      assert t !in txTable;  // dupe_tx == NULL
      txTable := txTable[t := Tx({}, Succeeded, p)];
      log := log.(dispatches := log.dispatches[t := Dispatch(p, dpids, setUps)],
                  txOf := log.txOf[p := t]);
    }

    /** _dispatch_to_all_switch; `setUps[k]` is what send and timer set-up say at position k. */
    method DispatchToAllSwitches(p: ParamId, dpids: seq<Dpid>, setUps: seq<SetUp>)
      requires Counting() && TxidOf(dispatched) !in txTable && p in params && |dpids| == |setUps|
      modifies this
      ensures Counting() && Abs() == DispatchStep(old(Abs()), p, dpids, setUps)
    {
      var t := NewTx(p, dpids, setUps);
      SetUpSwitches(t, dpids, setUps);
      if |dpids| == 0 || txTable[t].result == Failed {
        EndTx(t);
      }
    }

    /** handle_get_switch_list_reply: a failed reply is passed on as no switches. */
    method HandleSwitchListReply(p: ParamId, answer: ListAnswer)
      requires Counting() && TxidOf(dispatched) !in txTable
      requires p in params && (answer.ListOf? ==> |answer.dpids| == |answer.setUps|)
      modifies this
      ensures Counting() && Abs() == ListStep(old(Abs()), p, answer)
    {
      match answer
      case ListFailed =>
        log := log.(listFailed := log.listFailed + {p});
        DispatchToAllSwitches(p, [], []);
      case ListOf(dpids, setUps) => DispatchToAllSwitches(p, dpids, setUps);
    }

    /** Transactions own a live request record. */
    ghost predicate RecordsLive()
      reads this
    {
      forall t :: t in txTable ==> txTable[t].param in params
    }

    /** The answer is in: cancel the timer and release the txinfo record. */
    method CancelTimer(i: InfoId, ghost ok: bool)
      requires i in infos
      modifies `infos, `timers, `switchPending, `freed, `log
      ensures Abs() == Answered(old(Abs()), i, ok)
    {
      ghost var x := infos[i];
      switchPending := switchPending - {i};
      timers := timers - {i};
      infos := infos - {i};
      freed := freed + [InfoCell(i)];
      log := log.(verdicts := log.verdicts + [Verdict(x.txid, x.dpid, ok)]);
    }

    /** _switch_response_handler. */
    method SwitchResponseHandler(i: InfoId, reply: Reply)
      requires i in infos && RecordsLive()
      modifies `txTable, `params, `infos, `timers, `switchPending, `calls, `freed, `log
      ensures Abs() == ResponseStep(old(Abs()), i, reply)
    {
      var x := infos[i];
      CancelTimer(i, Accepts(reply));
      if x.txid !in txTable {
        return;
      }
      var tx := txTable[x.txid];
      if x.dpid !in tx.waiting {
        return;
      }
      var result := if Accepts(reply) then tx.result else Failed;
      txTable := txTable[x.txid := Tx(tx.waiting - {x.dpid}, result, tx.param)];
      var ended := CheckTxResultAndRespond(x.txid);
      if !ended && txTable[x.txid].waiting == {} {
        EndTx(x.txid);
      }
    }

    /** _switch_response_timeout.  It checks the result even when the switch is not waiting
        any more. */
    method SwitchResponseTimeout(i: InfoId)
      requires i in infos && RecordsLive()
      modifies `txTable, `params, `timers, `calls, `freed, `log
      ensures Abs() == TimeoutStep(old(Abs()), i)
    {
      var x := infos[i];
      timers := timers - {i};
      log := log.(verdicts := log.verdicts + [Verdict(x.txid, x.dpid, false)]);
      if x.txid !in txTable {
        return;
      }
      var tx := txTable[x.txid];
      if x.dpid in tx.waiting {
        txTable := txTable[x.txid := Tx(tx.waiting - {x.dpid}, Failed, tx.param)];
      } else {
        assert txTable == txTable[x.txid := tx];
      }
      var ended := CheckTxResultAndRespond(x.txid);
    }

    ghost predicate Ready(e: Event)
      reads this
    {
      && NoDangling(Abs()) && Counting()
      && Enabled(Abs(), e)
      && (e.ListReply? ==> TxidOf(dispatched) !in txTable)
    }

    method Handle(e: Event)
      requires Ready(e)
      modifies this
      ensures Counting() && Abs() == Step(old(Abs()), e)
    {
      match e
      case Start(param, sent) => var _ := StartRequest(param, sent);
      case ManagerReply(p, reply, listSent) => GetSwitchListAfterManager(p, reply, listSent);
      case ListReply(p, answer) => HandleSwitchListReply(p, answer);
      case Response(i, reply) => SwitchResponseHandler(i, reply);
      case Timeout(i) => SwitchResponseTimeout(i);
    }

    /** The event loop: whatever the environment may do, the handler it triggers performs
        its step of the protocol and leaves the invariant intact. */
    method Deliver(e: Event)
      requires Valid() && Enabled(Abs(), e)
      modifies this
      ensures Valid() && Abs() == Step(old(Abs()), e)
    {
      StepKeepsInv(Abs(), e);
      if e.ListReply? { NewTxid(dispatched); }
      Handle(e);
    }
  }
}
