/**
  Preservation of the protocol invariant by each kind of event.
*/
module EventForwardSteps {
  import opened EventForwardProtocol
  import opened EventForwardInvariant

  lemma AppendNoRepeats<T>(xs: seq<T>, x: T)
    requires NoRepeats(xs) && x !in xs
    ensures NoRepeats(xs + [x])
  {
  }

  // ------------------------------------------------------- unaffected parts

  /** Nothing about the transactions changed. */
  lemma TableFrame(s: State, r: State)
    requires TableInv(s)
    requires r.table == s.table && r.dispatched == s.dispatched
    requires r.timers == s.timers && r.infos == s.infos
    ensures TableInv(r)
  {
    assert forall d, t :: TimerFor(s, d, t) ==> TimerFor(r, d, t);
  }

  /** Same requests, same owners; only txinfo records, timers or waiting sets changed. */
  lemma OwnershipFrame(s: State, r: State)
    requires Ownership(s) && r.params == s.params
    requires r.managerPending == s.managerPending && r.listPending == s.listPending
    requires r.table.Keys == s.table.Keys && forall t :: t in s.table ==> r.table[t].param == s.table[t].param
    requires r.switchPending <= r.infos.Keys && r.timers <= r.infos.Keys
    ensures Ownership(r)
  {
    forall q | OwnedByTx(s, q) ensures OwnedByTx(r, q) {
      var u :| u in s.table && s.table[u].param == q;
      assert u in r.table && r.table[u].param == q;
    }
  }

  /** Results may have been added, but none for a request that was dispatched. */
  lemma DecisionsFrame(s: State, r: State)
    requires Decisions(s)
    requires r.table == s.table && r.dispatched == s.dispatched
    requires r.log.dispatches == s.log.dispatches && r.log.verdicts == s.log.verdicts
    requires forall t :: t in s.log.dispatches && s.log.dispatches[t].param in s.log.outcome ==>
               s.log.dispatches[t].param in r.log.outcome
               && r.log.outcome[s.log.dispatches[t].param] == s.log.outcome[s.log.dispatches[t].param]
    ensures Decisions(r)
  {
    forall t | t in s.log.dispatches ensures DecidedBy(r, t) {
      assert DecidedBy(s, t);
    }
  }

  // ---------------------------------------------------------------- Start

  lemma StartKeepsOwnership(s: State, param: Param, sent: bool)
    requires Ownership(s) && Memory(s)
    ensures Ownership(StartStep(s, param, sent))
  {
    var r := StartStep(s, param, sent);
    assert forall q :: OwnedByTx(s, q) ==> OwnedByTx(r, q);
  }

  lemma StartKeepsMemory(s: State, param: Param, sent: bool)
    requires Memory(s)
    ensures Memory(StartStep(s, param, sent))
  {
    if !sent { AppendNoRepeats(s.freed, ParamCell(s.nextParam)); }
  }

  lemma StartKeepsAccounting(s: State, param: Param, sent: bool)
    requires Accounting(s)
    ensures Accounting(StartStep(s, param, sent))
  {
  }

  lemma StartKeepsDispatching(s: State, param: Param, sent: bool)
    requires Accounting(s) && Dispatching(s)
    ensures Dispatching(StartStep(s, param, sent))
  {
  }

  lemma StartKeepsInv(s: State, param: Param, sent: bool)
    requires Inv(s)
    ensures Inv(StartStep(s, param, sent))
  {
    var r := StartStep(s, param, sent);
    assert TableInv(r) by { TableFrame(s, r); }
    assert Ownership(r) by { StartKeepsOwnership(s, param, sent); }
    assert Memory(r) by { StartKeepsMemory(s, param, sent); }
    assert Accounting(r) by { StartKeepsAccounting(s, param, sent); }
    assert Dispatching(r) by { StartKeepsDispatching(s, param, sent); }
    assert Decisions(r) by { DecisionsFrame(s, r); }
    assert CallsInv(r);
  }

  // ---------------------------------------------------------------- Finish

  lemma FinishKeepsMemory(s: State, p: ParamId, r: EfiResult)
    requires Memory(s) && p in s.params
    ensures Memory(Finish(s, p, r))
  {
    AppendNoRepeats(s.freed, ParamCell(p));
  }

  lemma FinishKeepsCalls(s: State, p: ParamId, r: EfiResult)
    requires CallsInv(s) && p in s.params && p !in s.log.outcome
    requires p in s.log.accepted && s.log.accepted[p] == s.params[p]
    ensures CallsInv(Finish(s, p, r))
  {
    var f := Finish(s, p, r);
    forall q: ParamId, b
      ensures Call(q, b) in f.calls <==>
          q in f.log.outcome && f.log.outcome[q] == b
          && q in f.log.accepted && f.log.accepted[q].hasCallback
    {
      assert Call(q, b) in f.calls <==> Call(q, b) in s.calls || (s.params[p].hasCallback && Call(q, b) == Call(p, r));
    }
    forall i, j | 0 <= i < j < |f.calls|
      ensures f.calls[i].param != f.calls[j].param
    {
      if j == |s.calls| {
        var c := f.calls[i];
        assert c == s.calls[i];
        assert Call(c.param, c.result) in s.calls;
      }
    }
  }

  // ---------------------------------------------------------- ManagerReply

  lemma ManagerKeepsOwnership(s: State, p: ParamId, reply: Reply, listSent: bool)
    requires Ownership(s) && p in s.managerPending
    ensures Ownership(ManagerStep(s, p, reply, listSent))
  {
    var r := ManagerStep(s, p, reply, listSent);
    assert forall q :: OwnedByTx(s, q) ==> OwnedByTx(r, q);
  }

  lemma ManagerKeepsAccounting(s: State, p: ParamId, reply: Reply, listSent: bool)
    requires Accounting(s) && p in s.managerPending && p in s.params
    ensures Accounting(ManagerStep(s, p, reply, listSent))
  {
  }

  lemma ManagerKeepsDispatching(s: State, p: ParamId, reply: Reply, listSent: bool)
    requires Accounting(s) && Dispatching(s) && Ownership(s) && p in s.managerPending
    ensures Dispatching(ManagerStep(s, p, reply, listSent))
  {
  }

  lemma ManagerKeepsRecords(s: State, p: ParamId, reply: Reply, listSent: bool)
    requires Memory(s) && CallsInv(s) && Accounting(s) && p in s.params
    ensures Memory(ManagerStep(s, p, reply, listSent)) && CallsInv(ManagerStep(s, p, reply, listSent))
  {
    if !(Accepts(reply) && listSent) {
      var s1 := s.(managerPending := s.managerPending - {p},
                   log := s.log.(managerNo := s.log.managerNo + {p}));
      FinishKeepsMemory(s1, p, Failed);
      FinishKeepsCalls(s1, p, Failed);
    }
  }

  lemma ManagerKeepsInv(s: State, p: ParamId, reply: Reply, listSent: bool)
    requires Inv(s) && p in s.managerPending
    ensures Inv(ManagerStep(s, p, reply, listSent))
  {
    var r := ManagerStep(s, p, reply, listSent);
    assert TableInv(r) by { TableFrame(s, r); }
    assert Ownership(r) by { ManagerKeepsOwnership(s, p, reply, listSent); }
    assert Accounting(r) by { ManagerKeepsAccounting(s, p, reply, listSent); }
    assert Dispatching(r) by { ManagerKeepsDispatching(s, p, reply, listSent); }
    assert Decisions(r) by { DecisionsFrame(s, r); }
    ManagerKeepsRecords(s, p, reply, listSent);
  }

  // ------------------------------------------------- Response and Timeout

  /** An event for another transaction, for a stranger, or not the first of its switch. */
  lemma VerdictElsewhere(vs: seq<Verdict>, v: Verdict, t: Txid, ds: seq<Dpid>)
    requires v.txid != t || v.dpid !in ds || First(vs, t, v.dpid) != Silent
    ensures forall d :: d in ds ==> First(vs + [v], t, d) == First(vs, t, d)
    ensures AllAnsweredOk(vs + [v], t, ds) <==> AllAnsweredOk(vs, t, ds)
    ensures SomeFailed(vs + [v], t, ds) <==> SomeFailed(vs, t, ds)
  {
    forall d | d in ds ensures First(vs + [v], t, d) == First(vs, t, d) { FirstAppend(vs, v, t, d); }
  }

  /** A decided transaction stays decided the same way whatever arrives later. */
  lemma DecisionIsFinal(vs: seq<Verdict>, v: Verdict, t: Txid, ds: seq<Dpid>)
    ensures AllAnsweredOk(vs, t, ds) ==> AllAnsweredOk(vs + [v], t, ds) && !SomeFailed(vs + [v], t, ds)
    ensures SomeFailed(vs, t, ds) ==> SomeFailed(vs + [v], t, ds) && !AllAnsweredOk(vs + [v], t, ds)
  {
    forall d ensures First(vs, t, d) != Silent ==> First(vs + [v], t, d) == First(vs, t, d) {
      FirstAppend(vs, v, t, d);
    }
  }

  ghost function Heard(s: State, x: TxInfo, ok: bool): seq<Verdict> {
    s.log.verdicts + [Verdict(x.txid, x.dpid, ok)]
  }

  lemma HeardElsewhere(s: State, r: State, x: TxInfo, ok: bool, t: Txid)
    requires t in s.log.dispatches && DecidedBy(s, t)
    requires t != x.txid || !Waits(s, x)
    requires r.log.dispatches == s.log.dispatches && r.log.verdicts == Heard(s, x, ok)
    requires t in s.table <==> t in r.table
    requires t in s.table ==> r.table[t] == s.table[t]
    requires s.log.dispatches[t].param in s.log.outcome ==>
               && s.log.dispatches[t].param in r.log.outcome
               && r.log.outcome[s.log.dispatches[t].param] == s.log.outcome[s.log.dispatches[t].param]
    ensures DecidedBy(r, t)
  {
    var dispatch := s.log.dispatches[t];
    var vs := s.log.verdicts;
    var v := Verdict(x.txid, x.dpid, ok);
    if t in s.table {
      VerdictElsewhere(vs, v, t, dispatch.dpids);
    } else {
      DecisionIsFinal(vs, v, t, dispatch.dpids);
    }
  }

  /** The event that decides: a first failure, or the last missing success. */
  lemma HeardDecides(s: State, r: State, x: TxInfo, ok: bool)
    requires x.txid in s.log.dispatches && DecidedBy(s, x.txid) && Waits(s, x)
    requires ok ==> s.table[x.txid].waiting == {x.dpid}
    requires r.log.dispatches == s.log.dispatches && r.log.verdicts == Heard(s, x, ok)
    requires x.txid !in r.table
    requires s.table[x.txid].param in r.log.outcome
    requires r.log.outcome[s.table[x.txid].param] == if ok then Succeeded else Failed
    ensures DecidedBy(r, x.txid)
  {
    var t := x.txid;
    var dispatch := s.log.dispatches[t];
    var vs := s.log.verdicts;
    var v := Verdict(t, x.dpid, ok);
    forall d | d in dispatch.dpids
      ensures First(vs + [v], t, d) == if d == x.dpid then AsAnswer(ok) else First(vs, t, d)
    {
      FirstAppend(vs, v, t, d);
    }
    if ok {
      forall d | d in dispatch.dpids ensures First(vs + [v], t, d) == Good {
        assert d == x.dpid || First(vs, t, d) == Good;
      }
    } else {
      assert x.dpid in dispatch.dpids && First(vs + [v], t, x.dpid) == Bad;
    }
  }

  /** A success that is not the last one keeps the transaction open. */
  lemma HeardKeepsOpen(s: State, r: State, x: TxInfo)
    requires x.txid in s.log.dispatches && DecidedBy(s, x.txid) && Waits(s, x)
    requires r.log.dispatches == s.log.dispatches && r.log.verdicts == Heard(s, x, true)
    requires x.txid in r.table
    requires r.table[x.txid] == s.table[x.txid].(waiting := s.table[x.txid].waiting - {x.dpid})
    ensures DecidedBy(r, x.txid)
  {
    var t := x.txid;
    var dispatch := s.log.dispatches[t];
    var vs := s.log.verdicts;
    var v := Verdict(t, x.dpid, true);
    forall d | d in dispatch.dpids
      ensures First(vs + [v], t, d) == if d == x.dpid then Good else First(vs, t, d)
    {
      FirstAppend(vs, v, t, d);
    }
  }

  lemma RetireKeepsOwnership(s: State, t: Txid, r: EfiResult)
    requires Ownership(s) && t in s.table
    ensures Ownership(Retire(s, t, r))
  {
    var f := Retire(s, t, r);
    forall q | q in f.params
      ensures q in f.managerPending || q in f.listPending || OwnedByTx(f, q)
    {
      if OwnedByTx(s, q) {
        var u :| u in s.table && s.table[u].param == q;
        assert u in f.table;
      }
    }
  }

  lemma RetireKeepsAccounting(s: State, t: Txid, r: EfiResult)
    requires Accounting(s) && t in s.table && s.table[t].param in s.params
    ensures Accounting(Retire(s, t, r))
  {
  }

  lemma RetireKeepsDispatching(s: State, t: Txid, r: EfiResult)
    requires Accounting(s) && Dispatching(s) && t in s.table && s.table[t].param in s.params
    requires t in s.log.dispatches && s.log.dispatches[t].param == s.table[t].param
    ensures Dispatching(Retire(s, t, r))
  {
  }

  lemma RetireKeepsRecords(s: State, t: Txid, r: EfiResult)
    requires Memory(s) && CallsInv(s) && Accounting(s) && NoDangling(s) && t in s.table
    ensures Memory(Retire(s, t, r)) && CallsInv(Retire(s, t, r))
  {
    FinishKeepsMemory(s, s.table[t].param, r);
    FinishKeepsCalls(s, s.table[t].param, r);
  }

  lemma RetireKeepsTable(s: State, t: Txid, r: EfiResult)
    requires s.dispatched <= TXID_MODULUS
    requires NoDangling(s) && t in s.table
    requires forall u :: u in s.table && u != t ==>
               Used(s.dispatched, u) && s.table[u].result == Succeeded && s.table[u].waiting != {}
    requires forall u, d :: u in s.table && u != t && d in s.table[u].waiting ==> TimerFor(s, d, u)
    ensures TableInv(Retire(s, t, r))
  {
    var f := Retire(s, t, r);
    assert forall d, u :: TimerFor(s, d, u) ==> TimerFor(f, d, u);
  }

  // ----------------------------------------- the two switch events in closed form

  /** What a response does if no transaction in the table has failed. */
  ghost function ResponseAtRest(s: State, i: InfoId, reply: Reply): State
    requires i in s.infos && forall t :: t in s.table ==> s.table[t].param in s.params
  {
    var x := s.infos[i];
    var s1 := Answered(s, i, Accepts(reply));
    if !Waits(s, x) then s1
    else
      var left := s.table[x.txid].waiting - {x.dpid};
      if !Accepts(reply) then Retire(s1, x.txid, Failed)
      else if left == {} then Retire(s1, x.txid, Succeeded)
      else s1.(table := s.table[x.txid := s.table[x.txid].(waiting := left)])
  }

  /** What a timeout does if no transaction in the table has failed. */
  ghost function TimeoutAtRest(s: State, i: InfoId): State
    requires i in s.infos && forall t :: t in s.table ==> s.table[t].param in s.params
  {
    if Waits(s, s.infos[i]) then Retire(Expired(s, i), s.infos[i].txid, Failed) else Expired(s, i)
  }

  lemma ResponseClosed(s: State, i: InfoId, reply: Reply)
    requires NoDangling(s) && AtRest(s) && i in s.infos
    ensures ResponseStep(s, i, reply) == ResponseAtRest(s, i, reply)
  {
    var x := s.infos[i];
    if Waits(s, x) {
      var tx := StruckOff(s.table[x.txid], x.dpid, Accepts(reply));
      assert s.table[x.txid := tx] - {x.txid} == s.table - {x.txid};
    }
  }

  /** The result check after a timeout retires the transaction of a waiting switch and, because
      transactions at rest have not failed, no other. */
  lemma TimeoutClosed(s: State, i: InfoId)
    requires NoDangling(s) && AtRest(s) && i in s.infos
    ensures TimeoutStep(s, i) == TimeoutAtRest(s, i)
  {
    var x := s.infos[i];
    if x.txid in s.table {
      var tx := if Waits(s, x) then StruckOff(s.table[x.txid], x.dpid, false) else s.table[x.txid];
      assert s.table[x.txid := tx] - {x.txid} == s.table - {x.txid};
      assert !Waits(s, x) ==> s.table[x.txid := tx] == s.table;
    }
  }

  // --------------------------------------------------------------- Response

  lemma AnsweredKeepsRecords(s: State, i: InfoId, ok: bool)
    requires Memory(s) && Ownership(s) && Accounting(s) && Dispatching(s) && CallsInv(s) && i in s.infos
    ensures var r := Answered(s, i, ok);
      Memory(r) && Ownership(r) && Accounting(r) && Dispatching(r) && CallsInv(r)
  {
    var r := Answered(s, i, ok);
    AppendNoRepeats(s.freed, InfoCell(i));
    OwnershipFrame(s, r);
  }

  lemma AnsweredKeepsTimers(s: State, i: InfoId, ok: bool, d: Dpid, t: Txid)
    requires i in s.infos && TimerFor(s, d, t) && s.infos[i] != TxInfo(d, t)
    ensures TimerFor(Answered(s, i, ok), d, t)
  {
    var j :| j in s.timers && j in s.infos && s.infos[j] == TxInfo(d, t);
    assert j in Answered(s, i, ok).timers;
  }

  lemma ResponseKeepsTable(s: State, i: InfoId, reply: Reply)
    requires TableInv(s) && NoDangling(s) && i in s.infos
    ensures TableInv(ResponseAtRest(s, i, reply))
  {
    var x := s.infos[i];
    var s1 := Answered(s, i, Accepts(reply));
    forall u, d | u in s.table && d in s.table[u].waiting && TxInfo(d, u) != x
      ensures TimerFor(s1, d, u)
    {
      AnsweredKeepsTimers(s, i, Accepts(reply), d, u);
    }
    if Waits(s, x) {
      var r := ResponseAtRest(s, i, reply);
      if x.txid in r.table {
        assert forall d, u :: TimerFor(s1, d, u) ==> TimerFor(r, d, u);
      } else {
        RetireKeepsTable(s1, x.txid, if Accepts(reply) then Succeeded else Failed);
      }
    }
  }

  /** Requests of transactions in the table are live, on record, and have no result yet. */
  ghost predicate Unreported(s: State) {
    forall t :: t in s.table ==>
      && s.table[t].param in s.params
      && s.table[t].param !in s.log.outcome
      && t in s.log.dispatches && s.log.dispatches[t].param == s.table[t].param
  }

  lemma AllUnreported(s: State)
    requires Decisions(s) && NoDangling(s) && Accounting(s)
    ensures Unreported(s)
  {
    assert forall t :: t in s.table ==> DecidedBy(s, t);
  }

  lemma ResponseKeepsDecisions(s: State, i: InfoId, reply: Reply)
    requires Decisions(s) && Unreported(s) && i in s.infos && Used(s.dispatched, s.infos[i].txid)
    ensures Decisions(ResponseAtRest(s, i, reply))
  {
    var x := s.infos[i];
    var r := ResponseAtRest(s, i, reply);
    forall t | t in r.log.dispatches ensures DecidedBy(r, t) {
      if t != x.txid || !Waits(s, x) {
        HeardElsewhere(s, r, x, Accepts(reply), t);
      } else if x.txid in r.table {
        HeardKeepsOpen(s, r, x);
      } else {
        HeardDecides(s, r, x, Accepts(reply));
      }
    }
  }

  lemma ResponseKeepsRecords(s: State, i: InfoId, reply: Reply)
    requires Memory(s) && Ownership(s) && Accounting(s) && Dispatching(s) && CallsInv(s) && i in s.infos
    requires Unreported(s)
    ensures var r := ResponseAtRest(s, i, reply);
      Memory(r) && Ownership(r) && Accounting(r) && Dispatching(r) && CallsInv(r)
  {
    var x := s.infos[i];
    var s1 := Answered(s, i, Accepts(reply));
    AnsweredKeepsRecords(s, i, Accepts(reply));
    if Waits(s, x) {
      var left := s.table[x.txid].waiting - {x.dpid};
      if Accepts(reply) && left != {} {
        ShrinkKeepsOwnership(s1, x.txid, left);
      } else {
        RetireKeepsOthers(s1, x.txid, if Accepts(reply) then Succeeded else Failed);
      }
    }
  }

  lemma ResponseKeepsInv(s: State, i: InfoId, reply: Reply)
    requires Inv(s) && i in s.switchPending
    ensures Inv(ResponseAtRest(s, i, reply))
  {
    var r := ResponseAtRest(s, i, reply);
    assert TableInv(r) by { ResponseKeepsTable(s, i, reply); }
    AllUnreported(s);
    assert Decisions(r) by { ResponseKeepsDecisions(s, i, reply); }
    ResponseKeepsRecords(s, i, reply);
  }

  lemma ShrinkKeepsOwnership(s: State, t: Txid, w: set<Dpid>)
    requires Ownership(s) && t in s.table
    ensures Ownership(s.(table := s.table[t := s.table[t].(waiting := w)]))
  {
    OwnershipFrame(s, s.(table := s.table[t := s.table[t].(waiting := w)]));
  }

  lemma RetireKeepsOthers(s: State, t: Txid, r: EfiResult)
    requires Memory(s) && Ownership(s) && Accounting(s) && Dispatching(s) && CallsInv(s) && t in s.table
    requires t in s.log.dispatches && s.log.dispatches[t].param == s.table[t].param
    ensures var f := Retire(s, t, r);
      Memory(f) && Ownership(f) && Accounting(f) && Dispatching(f) && CallsInv(f)
  {
    RetireKeepsOwnership(s, t, r);
    RetireKeepsAccounting(s, t, r);
    RetireKeepsDispatching(s, t, r);
    RetireKeepsRecords(s, t, r);
  }

  // ---------------------------------------------------------------- Timeout

  lemma ExpiredKeepsRecords(s: State, i: InfoId)
    requires Memory(s) && Ownership(s) && Accounting(s) && Dispatching(s) && CallsInv(s) && i in s.infos
    ensures var r := Expired(s, i);
      Memory(r) && Ownership(r) && Accounting(r) && Dispatching(r) && CallsInv(r)
  {
    OwnershipFrame(s, Expired(s, i));
  }

  lemma TimeoutKeepsTable(s: State, i: InfoId)
    requires TableInv(s) && NoDangling(s) && i in s.infos
    ensures TableInv(TimeoutAtRest(s, i))
  {
    var x := s.infos[i];
    var s1 := Expired(s, i);
    forall u, d | u in s.table && d in s.table[u].waiting && TxInfo(d, u) != x
      ensures TimerFor(s1, d, u)
    {
      var j :| j in s.timers && j in s.infos && s.infos[j] == TxInfo(d, u);
      assert j in s1.timers;
    }
    if Waits(s, x) {
      RetireKeepsTable(s1, x.txid, Failed);
    }
  }

  lemma TimeoutKeepsDecisions(s: State, i: InfoId)
    requires Decisions(s) && Unreported(s) && i in s.infos && Used(s.dispatched, s.infos[i].txid)
    ensures Decisions(TimeoutAtRest(s, i))
  {
    var x := s.infos[i];
    var r := TimeoutAtRest(s, i);
    forall t | t in r.log.dispatches ensures DecidedBy(r, t) {
      if t != x.txid || !Waits(s, x) {
        HeardElsewhere(s, r, x, false, t);
      } else {
        HeardDecides(s, r, x, false);
      }
    }
  }

  lemma TimeoutKeepsInv(s: State, i: InfoId)
    requires Inv(s) && i in s.timers
    ensures Inv(TimeoutAtRest(s, i))
  {
    var x := s.infos[i];
    var r := TimeoutAtRest(s, i);
    assert TableInv(r) by { TimeoutKeepsTable(s, i); }
    AllUnreported(s);
    assert Decisions(r) by { TimeoutKeepsDecisions(s, i); }
    ExpiredKeepsRecords(s, i);
    assert Ownership(r) && Memory(r) && Accounting(r) && Dispatching(r) && CallsInv(r) by {
      if Waits(s, x) {
        RetireKeepsOthers(Expired(s, i), x.txid, Failed);
      }
    }
  }

  // ---------------------------------------------------------------- dispatch

  /** Some position of the list set up a timer for `d`. */
  ghost predicate ArmedIn(ds: seq<Dpid>, os: seq<SetUp>, d: Dpid)
    requires |ds| == |os|
  {
    exists k :: 0 <= k < |ds| && ds[k] == d && os[k] == Armed
  }

  /** What the fan-out loop has done after the positions `ds`, in closed form: the waiting
      set, the result so far, and which records, timers and requests are new. */
  ghost predicate Sent(s: State, r: State, t: Txid, ds: seq<Dpid>, os: seq<SetUp>)
    requires |ds| == |os| && t in s.table
  {
    && r == s.(table := r.table, nextInfo := r.nextInfo, infos := r.infos, timers := r.timers,
               switchPending := r.switchPending, outbox := r.outbox, freed := r.freed)
    && t in r.table
    && r.table == s.table[t := r.table[t]]
    && r.table[t].param == s.table[t].param
    && (r.table[t].result == Succeeded <==> AllSetUp(ds, os))
    && (forall d :: d in r.table[t].waiting <==> ArmedIn(ds, os, d))
  }

  lemma {:induction false} SendAllSent(s: State, t: Txid, ds: seq<Dpid>, os: seq<SetUp>)
    requires |ds| == |os| && t in s.table && s.table[t].param in s.params
    requires s.table[t].waiting == {} && s.table[t].result == Succeeded
    ensures Sent(s, SendAll(s, t, ds, os), t, ds, os)
  {
    if ds != [] {
      var n := |ds| - 1;
      SendAllSent(s, t, ds[..n], os[..n]);
      SendOneSent(s, SendAll(s, t, ds[..n], os[..n]), t, ds, os);
    }
  }

  /** The condition of `AllSetUp` at one position. */
  ghost predicate SetUpAt(ds: seq<Dpid>, os: seq<SetUp>, k: nat)
    requires k < |ds| == |os|
  {
    ds[k] !in ds[..k] ==> os[k] == Armed
  }

  lemma SetUpByPosition(ds: seq<Dpid>, os: seq<SetUp>)
    requires |ds| == |os|
    ensures AllSetUp(ds, os) <==> forall k :: 0 <= k < |ds| ==> SetUpAt(ds, os, k)
  {
    if AllSetUp(ds, os) {
      forall k | 0 <= k < |ds| ensures SetUpAt(ds, os, k) {}
    }
    if forall k :: 0 <= k < |ds| ==> SetUpAt(ds, os, k) {
      forall k | 0 <= k < |ds| && ds[k] !in ds[..k] ensures os[k] == Armed { assert SetUpAt(ds, os, k); }
    }
  }

  lemma SetUpAtPrefix(ds: seq<Dpid>, os: seq<SetUp>, n: nat, k: nat)
    requires k < n <= |ds| == |os|
    ensures SetUpAt(ds[..n], os[..n], k) == SetUpAt(ds, os, k)
  {
    assert ds[..n][..k] == ds[..k];
  }

  lemma SetUpOneMore(ds: seq<Dpid>, os: seq<SetUp>)
    requires |ds| == |os| > 0
    ensures var n := |ds| - 1;
      AllSetUp(ds, os) <==> AllSetUp(ds[..n], os[..n]) && (ds[n] in ds[..n] || os[n] == Armed)
  {
    hide AllSetUp, SetUpAt;
    var n := |ds| - 1;
    SetUpByPosition(ds, os);
    SetUpByPosition(ds[..n], os[..n]);
    forall k | 0 <= k < n ensures SetUpAt(ds[..n], os[..n], k) == SetUpAt(ds, os, k) { SetUpAtPrefix(ds, os, n, k); }
    assert SetUpAt(ds, os, n) <==> (ds[n] in ds[..n] || os[n] == Armed) by { SetUpAtMeans(ds, os, n); }
  }

  lemma SetUpAtMeans(ds: seq<Dpid>, os: seq<SetUp>, k: nat)
    requires k < |ds| == |os|
    ensures SetUpAt(ds, os, k) <==> (ds[k] in ds[..k] || os[k] == Armed)
  {
  }

  lemma ArmedOneMore(ds: seq<Dpid>, os: seq<SetUp>, d: Dpid)
    requires |ds| == |os| > 0
    ensures var n := |ds| - 1;
      ArmedIn(ds, os, d) <==> ArmedIn(ds[..n], os[..n], d) || (ds[n] == d && os[n] == Armed)
  {
    var n := |ds| - 1;
    if k :| 0 <= k < n && ds[..n][k] == d && os[..n][k] == Armed {
      assert ds[k] == d && os[k] == Armed;
    }
    if k :| 0 <= k < |ds| && ds[k] == d && os[k] == Armed {
      assert k < n ==> ds[..n][k] == d && os[..n][k] == Armed;
    }
  }

  lemma ArmedIsListed(ds: seq<Dpid>, os: seq<SetUp>, d: Dpid)
    requires |ds| == |os| && ArmedIn(ds, os, d)
    ensures d in ds
  {
  }

  lemma {:induction false} SetUpMeansArmed(ds: seq<Dpid>, os: seq<SetUp>, d: Dpid)
    requires |ds| == |os| && AllSetUp(ds, os) && d in ds
    ensures ArmedIn(ds, os, d)
  {
    hide AllSetUp, ArmedIn;
    var n := |ds| - 1;
    SetUpOneMore(ds, os);
    ArmedOneMore(ds, os, d);
    if d in ds[..n] {
      SetUpMeansArmed(ds[..n], os[..n], d);
    } else {
      assert ds[n] == d;
    }
  }

  lemma SendOneSent(s: State, m: State, t: Txid, ds: seq<Dpid>, os: seq<SetUp>)
    requires |ds| == |os| > 0 && t in s.table && s.table[t].param in s.params
    requires Sent(s, m, t, ds[..|ds| - 1], os[..|ds| - 1])
    ensures Sent(s, SendOne(m, t, ds[|ds| - 1], os[|ds| - 1]), t, ds, os)
  {
    hide AllSetUp, ArmedIn;
    var n := |ds| - 1;
    var before, luck := ds[..n], os[..n];
    SetUpOneMore(ds, os);
    forall d ensures ArmedIn(ds, os, d) <==> ArmedIn(before, luck, d) || (ds[n] == d && os[n] == Armed) {
      ArmedOneMore(ds, os, d);
    }
    if ds[n] in m.table[t].waiting {
      ArmedIsListed(before, luck, ds[n]);
    } else {
      assert !(ds[n] in before && AllSetUp(before, luck)) by { NotArmedMeans(before, luck, ds[n]); }
    }
  }

  lemma NotArmedMeans(ds: seq<Dpid>, os: seq<SetUp>, d: Dpid)
    requires |ds| == |os| && !ArmedIn(ds, os, d)
    ensures !(d in ds && AllSetUp(ds, os))
  {
    if d in ds && AllSetUp(ds, os) { SetUpMeansArmed(ds, os, d); }
  }

  /** Every waiting switch of the transaction being filled has its timer already. */
  ghost predicate TimersSet(s: State, t: Txid) {
    t in s.table ==> forall d :: d in s.table[t].waiting ==> TimerFor(s, d, t)
  }

  ghost predicate KeepsTimers(s: State, r: State) {
    forall d, t :: TimerFor(s, d, t) ==> TimerFor(r, d, t)
  }

  lemma SendOneKeepsMemory(s: State, t: Txid, d: Dpid, o: SetUp)
    requires Memory(s) && t in s.table && s.table[t].param in s.params && Used(s.dispatched, t)
    ensures Memory(SendOne(s, t, d, o))
  {
    if d !in s.table[t].waiting && o == SendFailed {
      AppendNoRepeats(s.freed, InfoCell(s.nextInfo));
    }
  }

  lemma SendOneKeepsTimers(s: State, t: Txid, d: Dpid, o: SetUp)
    requires Memory(s) && t in s.table && s.table[t].param in s.params
    requires TimersSet(s, t)
    ensures KeepsTimers(s, SendOne(s, t, d, o)) && TimersSet(SendOne(s, t, d, o), t)
  {
    var r := SendOne(s, t, d, o);
    forall e, u | TimerFor(s, e, u) ensures TimerFor(r, e, u) {
      var i :| i in s.timers && i in s.infos && s.infos[i] == TxInfo(e, u);
      assert i in r.timers && i in r.infos && r.infos[i] == TxInfo(e, u);
    }
    if d !in s.table[t].waiting && o == Armed {
      assert s.nextInfo in r.timers && r.infos[s.nextInfo] == TxInfo(d, t);
      assert TimerFor(r, d, t);
    }
  }

  lemma SendOneKeepsOwnership(s: State, t: Txid, d: Dpid, o: SetUp)
    requires Ownership(s) && t in s.table
    ensures Ownership(SendOne(s, t, d, o))
  {
    OwnershipFrame(s, SendOne(s, t, d, o));
  }

  lemma {:induction false} SendAllKeeps(s: State, t: Txid, ds: seq<Dpid>, os: seq<SetUp>)
    requires |ds| == |os| && t in s.table
    requires Memory(s) && Ownership(s) && Used(s.dispatched, t)
    ensures var r := SendAll(s, t, ds, os);
      r.dispatched == s.dispatched && Memory(r) && Ownership(r)
  {
    if ds != [] {
      var n := |ds| - 1;
      SendAllKeeps(s, t, ds[..n], os[..n]);
      var m := SendAll(s, t, ds[..n], os[..n]);
      SendOneKeepsMemory(m, t, ds[n], os[n]);
      SendOneKeepsOwnership(m, t, ds[n], os[n]);
    }
  }

  lemma {:induction false} SendAllKeepsTimers(s: State, t: Txid, ds: seq<Dpid>, os: seq<SetUp>)
    requires |ds| == |os| && t in s.table
    requires Memory(s) && Ownership(s) && Used(s.dispatched, t) && TimersSet(s, t)
    ensures var r := SendAll(s, t, ds, os);
      KeepsTimers(s, r) && TimersSet(r, t)
  {
    if ds != [] {
      var n := |ds| - 1;
      SendAllKeeps(s, t, ds[..n], os[..n]);
      SendAllKeepsTimers(s, t, ds[..n], os[..n]);
      SendOneKeepsTimers(SendAll(s, t, ds[..n], os[..n]), t, ds[n], os[n]);
    }
  }

  lemma InsertKeepsOwnership(s: State, p: ParamId, ds: seq<Dpid>, os: seq<SetUp>)
    requires Ownership(s) && p in s.listPending && TxidOf(s.dispatched) !in s.table
    ensures Ownership(InsertTx(s, p, ds, os))
  {
    var t := TxidOf(s.dispatched);
    var r := InsertTx(s, p, ds, os);
    assert t in r.table && r.table[t].param == p;
    forall q | OwnedByTx(s, q) ensures OwnedByTx(r, q) {
      var u :| u in s.table && s.table[u].param == q;
      assert u in r.table && r.table[u].param == q;
    }
  }

  lemma InsertKeepsRecords(s: State, p: ParamId, ds: seq<Dpid>, os: seq<SetUp>)
    requires Memory(s) && Accounting(s) && CallsInv(s)
    requires s.dispatched < TXID_MODULUS
    ensures var r := InsertTx(s, p, ds, os);
      Memory(r) && Accounting(r) && CallsInv(r)
  {
    NewTxid(s.dispatched);
  }

  lemma InsertKeepsDispatching(s: State, p: ParamId, ds: seq<Dpid>, os: seq<SetUp>)
    requires Accounting(s) && Dispatching(s) && p in s.listPending && p in s.params
    requires p !in s.managerPending && TxidOf(s.dispatched) !in s.log.dispatches
    ensures Dispatching(InsertTx(s, p, ds, os))
  {
    hide TxidOf, Accounting, Dispatching;
    var r := InsertTx(s, p, ds, os);
    OneMoreDispatch(s, r, p, TxidOf(s.dispatched), Dispatch(p, ds, os));
  }

  lemma OneMoreDispatch(s: State, r: State, p: ParamId, t: Txid, dispatch: Dispatch)
    requires Accounting(s) && Dispatching(s) && p in s.params && p in s.listPending && p !in s.managerPending
    requires t !in s.log.dispatches && dispatch.param == p
    requires r.managerPending == s.managerPending && r.listPending == s.listPending - {p}
    requires r.log == s.log.(dispatches := s.log.dispatches[t := dispatch], txOf := s.log.txOf[p := t])
    ensures Dispatching(r)
  {
    var l := s.log;
    assert p !in l.txOf && p in l.accepted && p !in l.managerNo;
    forall u | u in l.dispatches ensures l.dispatches[u].param != p {
      assert l.dispatches[u].param in l.txOf;
    }
  }

  /** A whole dispatch in closed form, as far as tables and results go. */
  ghost predicate Dispatched(s: State, r: State, p: ParamId, ds: seq<Dpid>, os: seq<SetUp>)
    requires |ds| == |os|
  {
    var t := TxidOf(s.dispatched);
    var open := ds != [] && AllSetUp(ds, os);
    && r.dispatched == s.dispatched + 1
    && r.log.verdicts == s.log.verdicts
    && r.log.dispatches == s.log.dispatches[t := Dispatch(p, ds, os)]
    && (forall u :: u != t ==> (u in r.table <==> u in s.table))
    && (forall u :: u != t && u in s.table ==> r.table[u] == s.table[u])
    && (t in r.table <==> open)
    && (if open then
          && r.log.outcome == s.log.outcome
          && r.table[t].param == p && r.table[t].result == Succeeded
          && (forall d :: d in r.table[t].waiting <==> d in ds)
        else
          r.log.outcome == s.log.outcome[p := if AllSetUp(ds, os) then Succeeded else Failed])
  }

  lemma DispatchStepDispatched(s: State, p: ParamId, ds: seq<Dpid>, os: seq<SetUp>)
    requires |ds| == |os| && p in s.params && TxidOf(s.dispatched) !in s.table
    ensures Dispatched(s, DispatchStep(s, p, ds, os), p, ds, os)
  {
    var t := TxidOf(s.dispatched);
    var a := InsertTx(s, p, ds, os);
    SendAllSent(a, t, ds, os);
    var b := SendAll(a, t, ds, os);
    if AllSetUp(ds, os) {
      forall d ensures d in b.table[t].waiting <==> d in ds {
        if d in ds { SetUpMeansArmed(ds, os, d); }
      }
    }
  }

  lemma DispatchedKeepsDecisions(s: State, r: State, p: ParamId, ds: seq<Dpid>, os: seq<SetUp>)
    requires Decisions(s) && s.dispatched < TXID_MODULUS && |ds| == |os| && p !in s.log.outcome
    requires Dispatched(s, r, p, ds, os)
    ensures Decisions(r)
  {
    var t := TxidOf(s.dispatched);
    NewTxid(s.dispatched);
    forall d ensures First(r.log.verdicts, t, d) == Silent { FirstOfUnused(r.log.verdicts, t, d); }
    forall u | u in r.log.dispatches ensures DecidedBy(r, u) {
      if u != t { assert DecidedBy(s, u); }
    }
  }

  lemma DispatchedKeepsTable(s: State, r: State, p: ParamId, ds: seq<Dpid>, os: seq<SetUp>)
    requires TableInv(s) && s.dispatched < TXID_MODULUS && |ds| == |os|
    requires Dispatched(s, r, p, ds, os)
    requires KeepsTimers(s, r) && TimersSet(r, TxidOf(s.dispatched))
    ensures TableInv(r)
  {
    NewTxid(s.dispatched);
    if TxidOf(s.dispatched) in r.table {
      assert ds[0] in r.table[TxidOf(s.dispatched)].waiting;
    }
  }

  lemma DispatchKeepsTimers(s: State, p: ParamId, ds: seq<Dpid>, os: seq<SetUp>)
    requires Memory(s) && Ownership(s) && |ds| == |os| && p in s.listPending
    requires s.dispatched < TXID_MODULUS && TxidOf(s.dispatched) !in s.table
    ensures var r := DispatchStep(s, p, ds, os);
      KeepsTimers(s, r) && TimersSet(r, TxidOf(s.dispatched))
  {
    var t := TxidOf(s.dispatched);
    NewTxid(s.dispatched);
    var a := InsertTx(s, p, ds, os);
    assert KeepsTimers(s, a);
    InsertKeepsOwnership(s, p, ds, os);
    assert Memory(a);
    SendAllKeepsTimers(a, t, ds, os);
  }

  lemma DispatchKeepsRecords(s: State, p: ParamId, ds: seq<Dpid>, os: seq<SetUp>)
    requires Memory(s) && Ownership(s) && Accounting(s) && Dispatching(s) && CallsInv(s)
    requires s.dispatched < TXID_MODULUS && |ds| == |os| && p in s.listPending
    requires TxidOf(s.dispatched) !in s.table && TxidOf(s.dispatched) !in s.log.dispatches
    ensures var r := DispatchStep(s, p, ds, os);
      Memory(r) && Ownership(r) && Accounting(r) && Dispatching(r) && CallsInv(r)
  {
    var t := TxidOf(s.dispatched);
    NewTxid(s.dispatched);
    var a := InsertTx(s, p, ds, os);
    InsertKeepsOwnership(s, p, ds, os);
    InsertKeepsRecords(s, p, ds, os);
    InsertKeepsDispatching(s, p, ds, os);
    SendAllSent(a, t, ds, os);
    SendAllKeeps(a, t, ds, os);
    var b := SendAll(a, t, ds, os);
    if ds == [] || b.table[t].result == Failed {
      RetireKeepsOthers(b, t, b.table[t].result);
    }
  }

  lemma DispatchKeepsInv(s: State, p: ParamId, ds: seq<Dpid>, os: seq<SetUp>)
    requires Inv(s) && s.dispatched < TXID_MODULUS && |ds| == |os| && p in s.listPending
    ensures Inv(DispatchStep(s, p, ds, os))
  {
    var r := DispatchStep(s, p, ds, os);
    NewTxid(s.dispatched);
    DispatchKeepsRecords(s, p, ds, os);
    DispatchKeepsTimers(s, p, ds, os);
    DispatchStepDispatched(s, p, ds, os);
    assert TableInv(r) by { DispatchedKeepsTable(s, r, p, ds, os); }
    assert Decisions(r) by { DispatchedKeepsDecisions(s, r, p, ds, os); }
  }

  // -------------------------------------------------------------- every step

  /** The note about a failed list reply is read by nobody. */
  lemma NoteKeepsInv(s: State, p: ParamId)
    requires Inv(s)
    ensures Inv(NoteFailedList(s, p))
  {
    var r := NoteFailedList(s, p);
    TableFrame(s, r);
    OwnershipFrame(s, r);
    DecisionsFrame(s, r);
  }

  lemma StepKeepsInv(s: State, e: Event)
    requires Inv(s) && Enabled(s, e)
    ensures Inv(Step(s, e))
  {
    match e
    case Start(param, sent) => StartKeepsInv(s, param, sent);
    case ManagerReply(p, reply, listSent) => ManagerKeepsInv(s, p, reply, listSent);
    case ListReply(p, a) =>
      match a {
        case ListFailed =>
          NoteKeepsInv(s, p);
          DispatchKeepsInv(NoteFailedList(s, p), p, [], []);
        case ListOf(ds, os) => DispatchKeepsInv(s, p, ds, os);
      }
    case Response(i, reply) =>
      ResponseClosed(s, i, reply);
      ResponseKeepsInv(s, i, reply);
    case Timeout(i) =>
      TimeoutClosed(s, i);
      TimeoutKeepsInv(s, i);
  }
}
