/**
  The record that the steps keep, against the events of the run: whatever the theorems read
  from the record could be read off the events instead.
*/
module EventForwardHistory {
  import opened EventForwardProtocol
  import opened EventForwardInvariant
  import opened EventForwardSteps
  import opened EventForwardRuns

  // --------------------------------------------------- what happened in a run so far
  //
  // All of these look at the first `n` events only.

  ghost function Starts(es: seq<Event>, n: nat): nat
    requires n <= |es|
  {
    if n == 0 then 0 else Starts(es, n - 1) + if es[n - 1].Start? then 1 else 0
  }

  ghost function Lists(es: seq<Event>, n: nat): nat
    requires n <= |es|
  {
    if n == 0 then 0 else Lists(es, n - 1) + if es[n - 1].ListReply? then 1 else 0
  }

  /** Request `p` is the one of the `p`-th start.  It asked for `param`, and was sent. */
  ghost predicate Accepted(es: seq<Event>, n: nat, p: ParamId, param: Param)
    requires n <= |es|
  {
    exists k :: 0 <= k < n && es[k] == Start(param, true) && Starts(es, k) == p
  }

  ghost predicate Refused(es: seq<Event>, n: nat, p: ParamId)
    requires n <= |es|
  {
    exists k :: 0 <= k < n && es[k].Start? && !es[k].sent && Starts(es, k) == p
  }

  predicate ManagerAgrees(e: Event)
    requires e.ManagerReply?
  {
    !e.reply.managementFailed && e.reply.code == 0 && e.listSent
  }

  /** The switch manager accepted and the switch list was asked for, or one of these failed. */
  ghost predicate ManagerSaid(es: seq<Event>, n: nat, p: ParamId, yes: bool)
    requires n <= |es|
  {
    exists k :: 0 <= k < n && es[k].ManagerReply? && es[k].p == p && ManagerAgrees(es[k]) == yes
  }

  function DpidsOf(a: ListAnswer): seq<Dpid> {
    if a.ListOf? then a.dpids else []
  }

  function SetUpsOf(a: ListAnswer): seq<SetUp> {
    if a.ListOf? then a.setUps else []
  }

  function DispatchOf(e: Event): Dispatch
    requires e.ListReply?
  {
    Dispatch(e.p, DpidsOf(e.answer), SetUpsOf(e.answer))
  }

  /** The `k`-th event is the list reply for `p`, and opens transaction `t`. */
  ghost predicate ListCame(es: seq<Event>, k: nat, p: ParamId, t: Txid) {
    k < |es| && es[k].ListReply? && es[k].p == p && TxidOf(Lists(es, k)) == t
  }

  ghost predicate ListFailedFor(es: seq<Event>, n: nat, p: ParamId)
    requires n <= |es|
  {
    exists k :: 0 <= k < n && es[k] == ListReply(p, ListFailed)
  }

  /** The switch event that `e` is in state `s`, if it is one: its txinfo says whose it is. */
  ghost function VerdictOf(s: State, e: Event): seq<Verdict>
    requires e.Response? || e.Timeout? ==> e.i in s.infos
  {
    match e
    case Response(i, reply) =>
      [Verdict(s.infos[i].txid, s.infos[i].dpid, !reply.managementFailed && reply.code == 0)]
    case Timeout(i) => [Verdict(s.infos[i].txid, s.infos[i].dpid, false)]
    case _ => []
  }

  /** All switch events of a run, in order. */
  ghost function Verdicts(ss: seq<State>, es: seq<Event>, n: nat): seq<Verdict>
    requires IsRun(ss, es) && n <= |es|
  {
    if n == 0 then [] else Verdicts(ss, es, n - 1) + VerdictOf(ss[n - 1], es[n - 1])
  }

  // -------------------------------------------------------------- what a step records

  ghost function AcceptedBy(s: State, e: Event): map<ParamId, Param> {
    if e.Start? && e.sent then s.log.accepted[s.nextParam := e.param] else s.log.accepted
  }

  ghost function RefusedBy(s: State, e: Event): set<ParamId> {
    if e.Start? && !e.sent then s.log.refused + {s.nextParam} else s.log.refused
  }

  ghost function ManagerNoBy(s: State, e: Event): set<ParamId> {
    if e.ManagerReply? && !ManagerAgrees(e) then s.log.managerNo + {e.p} else s.log.managerNo
  }

  ghost function ListFailedBy(s: State, e: Event): set<ParamId> {
    if e.ListReply? && e.answer.ListFailed? then s.log.listFailed + {e.p} else s.log.listFailed
  }

  ghost function DispatchesBy(s: State, e: Event): map<Txid, Dispatch> {
    if e.ListReply? then s.log.dispatches[TxidOf(s.dispatched) := DispatchOf(e)] else s.log.dispatches
  }

  ghost function TxOfBy(s: State, e: Event): map<ParamId, Txid> {
    if e.ListReply? then s.log.txOf[e.p := TxidOf(s.dispatched)] else s.log.txOf
  }

  ghost function ListPendingBy(s: State, e: Event): set<ParamId> {
    if e.ListReply? then s.listPending - {e.p}
    else if e.ManagerReply? && ManagerAgrees(e) then s.listPending + {e.p}
    else s.listPending
  }

  ghost predicate Recorded(s: State, e: Event, r: State)
    requires e.Response? || e.Timeout? ==> e.i in s.infos
  {
    && r.nextParam == s.nextParam + (if e.Start? then 1 else 0)
    && r.dispatched == s.dispatched + (if e.ListReply? then 1 else 0)
    && r.listPending == ListPendingBy(s, e)
    && r.log == s.log.(accepted := AcceptedBy(s, e), refused := RefusedBy(s, e), managerNo := ManagerNoBy(s, e),
                       listFailed := ListFailedBy(s, e), dispatches := DispatchesBy(s, e), txOf := TxOfBy(s, e),
                       verdicts := s.log.verdicts + VerdictOf(s, e), outcome := r.log.outcome)
  }

  lemma DispatchRecorded(s: State, p: ParamId, ds: seq<Dpid>, os: seq<SetUp>)
    requires |ds| == |os| && p in s.params
    ensures var r := DispatchStep(s, p, ds, os);
      var t := TxidOf(s.dispatched);
      && r.nextParam == s.nextParam && r.dispatched == s.dispatched + 1 && r.listPending == s.listPending - {p}
      && r.log == s.log.(dispatches := s.log.dispatches[t := Dispatch(p, ds, os)], txOf := s.log.txOf[p := t],
                         outcome := r.log.outcome)
  {
    SendAllSent(InsertTx(s, p, ds, os), TxidOf(s.dispatched), ds, os);
  }

  lemma ListRecorded(s: State, e: Event)
    requires NoDangling(s) && Enabled(s, e) && e.ListReply?
    ensures Recorded(s, e, Step(s, e))
  {
    match e.answer
    case ListFailed => DispatchRecorded(NoteFailedList(s, e.p), e.p, [], []);
    case ListOf(ds, os) => DispatchRecorded(s, e.p, ds, os);
  }

  lemma SwitchEventRecorded(s: State, e: Event)
    requires NoDangling(s) && AtRest(s) && Enabled(s, e) && (e.Response? || e.Timeout?)
    ensures Recorded(s, e, Step(s, e))
  {
    SwitchEventClosed(s, e);
  }

  lemma StepRecorded(s: State, e: Event)
    requires NoDangling(s) && AtRest(s) && Enabled(s, e)
    ensures Recorded(s, e, Step(s, e))
  {
    if e.ListReply? {
      ListRecorded(s, e);
    } else if e.Response? || e.Timeout? {
      SwitchEventRecorded(s, e);
    }
  }

  lemma RunRecorded(ss: seq<State>, es: seq<Event>, n: nat)
    requires IsRun(ss, es) && n < |es|
    ensures Recorded(ss[n], es[n], ss[n + 1])
  {
    RunKeepsInv(ss, es, n);
    StepRecorded(ss[n], es[n]);
  }

  // ---------------------------------------------------------- the record follows the run

  lemma {:induction false} CountersFollow(ss: seq<State>, es: seq<Event>, n: nat)
    requires IsRun(ss, es) && n <= |es|
    ensures ss[n].nextParam == Starts(es, n) && ss[n].dispatched == Lists(es, n)
  {
    if n > 0 {
      CountersFollow(ss, es, n - 1);
      RunRecorded(ss, es, n - 1);
    }
  }

  lemma AcceptedNext(es: seq<Event>, n: nat, p: ParamId, param: Param)
    requires n < |es|
    ensures Accepted(es, n + 1, p, param) <==>
            Accepted(es, n, p, param) || (es[n] == Start(param, true) && Starts(es, n) == p)
  {
    if k :| 0 <= k < n + 1 && es[k] == Start(param, true) && Starts(es, k) == p {
      assert k == n || Accepted(es, n, p, param);
    }
    if k :| 0 <= k < n && es[k] == Start(param, true) && Starts(es, k) == p {
      assert Accepted(es, n + 1, p, param);
    }
  }

  lemma RefusedNext(es: seq<Event>, n: nat, p: ParamId)
    requires n < |es|
    ensures Refused(es, n + 1, p) <==> Refused(es, n, p) || (es[n].Start? && !es[n].sent && Starts(es, n) == p)
  {
    if k :| 0 <= k < n + 1 && es[k].Start? && !es[k].sent && Starts(es, k) == p {
      assert k == n || Refused(es, n, p);
    }
    if k :| 0 <= k < n && es[k].Start? && !es[k].sent && Starts(es, k) == p {
      assert Refused(es, n + 1, p);
    }
  }

  /** Requests are accepted exactly as the starts say. */
  lemma {:induction false} AcceptedFollowsEvents(ss: seq<State>, es: seq<Event>, n: nat, p: ParamId, param: Param)
    requires IsRun(ss, es) && n <= |es|
    ensures p in ss[n].log.accepted && ss[n].log.accepted[p] == param <==> Accepted(es, n, p, param)
  {
    if n > 0 {
      AcceptedFollowsEvents(ss, es, n - 1, p, param);
      assert Accounting(ss[n - 1]) by { RunKeepsInv(ss, es, n - 1); }
      CountersFollow(ss, es, n - 1);
      RunRecorded(ss, es, n - 1);
      AcceptedNext(es, n - 1, p, param);
    }
  }

  lemma {:induction false} RefusedFollowsEvents(ss: seq<State>, es: seq<Event>, n: nat, p: ParamId)
    requires IsRun(ss, es) && n <= |es|
    ensures p in ss[n].log.refused <==> Refused(es, n, p)
  {
    if n > 0 {
      RefusedFollowsEvents(ss, es, n - 1, p);
      CountersFollow(ss, es, n - 1);
      RunRecorded(ss, es, n - 1);
      RefusedNext(es, n - 1, p);
    }
  }

  lemma ManagerSaidNext(es: seq<Event>, n: nat, p: ParamId, yes: bool)
    requires n < |es|
    ensures ManagerSaid(es, n + 1, p, yes) <==>
            ManagerSaid(es, n, p, yes) || (es[n].ManagerReply? && es[n].p == p && ManagerAgrees(es[n]) == yes)
  {
    if k :| 0 <= k < n + 1 && es[k].ManagerReply? && es[k].p == p && ManagerAgrees(es[k]) == yes {
      assert k == n || ManagerSaid(es, n, p, yes);
    }
    if k :| 0 <= k < n && es[k].ManagerReply? && es[k].p == p && ManagerAgrees(es[k]) == yes {
      assert ManagerSaid(es, n + 1, p, yes);
    }
  }

  /** The manager stage failed for a request exactly if a manager reply says so, and a request
      whose list was asked for got a good one. */
  lemma {:induction false} ManagerFollowsEvents(ss: seq<State>, es: seq<Event>, n: nat, p: ParamId)
    requires IsRun(ss, es) && n <= |es|
    ensures p in ss[n].log.managerNo <==> ManagerSaid(es, n, p, false)
    ensures p in ss[n].listPending || p in ss[n].log.txOf ==> ManagerSaid(es, n, p, true)
  {
    if n > 0 {
      ManagerFollowsEvents(ss, es, n - 1, p);
      RunRecorded(ss, es, n - 1);
      ManagerSaidNext(es, n - 1, p, false);
      ManagerSaidNext(es, n - 1, p, true);
    }
  }

  lemma ListFailedNext(es: seq<Event>, n: nat, p: ParamId)
    requires n < |es|
    ensures ListFailedFor(es, n + 1, p) <==> ListFailedFor(es, n, p) || es[n] == ListReply(p, ListFailed)
  {
    if k :| 0 <= k < n + 1 && es[k] == ListReply(p, ListFailed) {
      assert k == n || ListFailedFor(es, n, p);
    }
    if k :| 0 <= k < n && es[k] == ListReply(p, ListFailed) {
      assert ListFailedFor(es, n + 1, p);
    }
  }

  lemma {:induction false} ListFailuresFollowEvents(ss: seq<State>, es: seq<Event>, n: nat, p: ParamId)
    requires IsRun(ss, es) && n <= |es|
    ensures p in ss[n].log.listFailed <==> ListFailedFor(es, n, p)
  {
    if n > 0 {
      ListFailuresFollowEvents(ss, es, n - 1, p);
      RunRecorded(ss, es, n - 1);
      ListFailedNext(es, n - 1, p);
    }
  }

  /** Transaction `t` was opened for `p` by the `k`-th event, as the record says. */
  ghost predicate OpenedBy(l: Log, es: seq<Event>, k: nat, p: ParamId, t: Txid) {
    && ListCame(es, k, p, t)
    && p in l.txOf && l.txOf[p] == t && t in l.dispatches && l.dispatches[t] == DispatchOf(es[k])
  }

  ghost predicate DispatchesFollow(l: Log, es: seq<Event>, n: nat)
    requires n <= |es|
  {
    && (forall k, p, t :: 0 <= k < n && ListCame(es, k, p, t) ==> OpenedBy(l, es, k, p, t))
    && (forall p :: p in l.txOf ==> exists k :: 0 <= k < n && ListCame(es, k, p, l.txOf[p]))
  }

  lemma DispatchesFollowOnce(s: State, e: Event, r: State, es: seq<Event>, n: nat)
    requires n < |es| && e == es[n] && (e.Response? || e.Timeout? ==> e.i in s.infos)
    requires Recorded(s, e, r) && DispatchesFollow(s.log, es, n) && s.dispatched == Lists(es, n)
    requires e.ListReply? ==> e.p !in s.log.txOf && TxidOf(s.dispatched) !in s.log.dispatches
    ensures DispatchesFollow(r.log, es, n + 1)
  {
    if e.ListReply? { assert ListCame(es, n, e.p, TxidOf(s.dispatched)); }
    forall p | p in r.log.txOf ensures exists k :: 0 <= k < n + 1 && ListCame(es, k, p, r.log.txOf[p]) {
      if e.ListReply? && p == e.p {
        assert ListCame(es, n, p, r.log.txOf[p]);
      } else {
        var k :| 0 <= k < n && ListCame(es, k, p, s.log.txOf[p]);
        assert ListCame(es, k, p, r.log.txOf[p]);
      }
    }
    forall k, p, t | 0 <= k < n + 1 && ListCame(es, k, p, t) ensures OpenedBy(r.log, es, k, p, t) {
      if k < n { assert OpenedBy(s.log, es, k, p, t); }
    }
  }

  /** Transactions are opened exactly by the list replies, each for its own request. */
  lemma {:induction false} DispatchesFollowEvents(ss: seq<State>, es: seq<Event>, n: nat)
    requires IsRun(ss, es) && n <= |es|
    ensures DispatchesFollow(ss[n].log, es, n)
  {
    if n > 0 {
      DispatchesFollowEvents(ss, es, n - 1);
      RunKeepsInv(ss, es, n - 1);
      CountersFollow(ss, es, n - 1);
      RunRecorded(ss, es, n - 1);
      if es[n - 1].ListReply? { NewTxid(ss[n - 1].dispatched); }
      DispatchesFollowOnce(ss[n - 1], es[n - 1], ss[n], es, n - 1);
    }
  }

  /** The answers on record are the responses and timeouts of the run, in order. */
  lemma {:induction false} VerdictsFollowEvents(ss: seq<State>, es: seq<Event>, n: nat)
    requires IsRun(ss, es) && n <= |es|
    ensures ss[n].log.verdicts == Verdicts(ss, es, n)
  {
    if n > 0 {
      VerdictsFollowEvents(ss, es, n - 1);
      RunRecorded(ss, es, n - 1);
    }
  }

  // ------------------------------------------------------ whose event a switch event is

  /** `x` was made for a position of the list whose request could be sent; its timer is armed
      only if it could be set. */
  ghost predicate MadeFor(ds: seq<Dpid>, os: seq<SetUp>, t: Txid, x: TxInfo, timer: bool)
    requires |ds| == |os|
  {
    exists j :: 0 <= j < |ds| && x == TxInfo(ds[j], t) && os[j] != SendFailed && (timer ==> os[j] == Armed)
  }

  lemma MadeForPrefix(ds: seq<Dpid>, os: seq<SetUp>, n: nat, t: Txid, x: TxInfo, timer: bool)
    requires n <= |ds| == |os| && MadeFor(ds[..n], os[..n], t, x, timer)
    ensures MadeFor(ds, os, t, x, timer)
  {
    var j :| 0 <= j < n && x == TxInfo(ds[..n][j], t) && os[..n][j] != SendFailed && (timer ==> os[..n][j] == Armed);
    assert x == TxInfo(ds[j], t) && os[j] != SendFailed && (timer ==> os[j] == Armed);
  }

  /** Txinfo `i` was there before, the same, and its timer is no news. */
  ghost predicate Lasting(s: State, r: State, i: InfoId)
    requires i in r.infos
  {
    i in s.infos && r.infos[i] == s.infos[i] && (i in r.timers ==> i in s.timers)
  }

  /** From `s` to `r`, txinfo `i` is an old one with its old timer, or one of the list. */
  ghost predicate OldOrMade(s: State, r: State, i: InfoId, ds: seq<Dpid>, os: seq<SetUp>, t: Txid)
    requires |ds| == |os| && i in r.infos
  {
    Lasting(s, r, i) || MadeFor(ds, os, t, r.infos[i], i in r.timers)
  }

  ghost predicate InfosBelow(s: State) {
    && (forall i :: i in s.infos ==> i < s.nextInfo)
    && s.timers <= s.infos.Keys
  }

  lemma SendOneMakes(s: State, t: Txid, d: Dpid, o: SetUp, i: InfoId)
    requires t in s.table && s.table[t].param in s.params && InfosBelow(s) && i in SendOne(s, t, d, o).infos
    ensures var r := SendOne(s, t, d, o);
      || Lasting(s, r, i)
      || (r.infos[i] == TxInfo(d, t) && o != SendFailed && (i in r.timers ==> o == Armed))
  {
  }

  lemma SendOneBelow(s: State, t: Txid, d: Dpid, o: SetUp)
    requires t in s.table && s.table[t].param in s.params && InfosBelow(s)
    ensures InfosBelow(SendOne(s, t, d, o))
  {
  }

  lemma {:induction false} SendAllMakes(s: State, t: Txid, ds: seq<Dpid>, os: seq<SetUp>)
    requires |ds| == |os| && t in s.table && s.table[t].param in s.params && InfosBelow(s)
    ensures var r := SendAll(s, t, ds, os);
      InfosBelow(r) && forall i :: i in r.infos ==> OldOrMade(s, r, i, ds, os, t)
  {
    hide SendOne, MadeFor, InfosBelow;
    if ds != [] {
      var n := |ds| - 1;
      var m, r := SendAll(s, t, ds[..n], os[..n]), SendAll(s, t, ds, os);
      SendAllMakes(s, t, ds[..n], os[..n]);
      SendOneBelow(m, t, ds[n], os[n]);
      forall i | i in r.infos ensures OldOrMade(s, r, i, ds, os, t) {
        SendOneMakes(m, t, ds[n], os[n], i);
        MadeOneMore(s, m, r, i, ds, os, t);
      }
    }
  }

  lemma MadeOneMore(s: State, m: State, r: State, i: InfoId, ds: seq<Dpid>, os: seq<SetUp>, t: Txid)
    requires |ds| == |os| > 0 && i in r.infos
    requires i in m.infos ==> OldOrMade(s, m, i, ds[..|ds| - 1], os[..|ds| - 1], t)
    requires var n := |ds| - 1;
      || Lasting(m, r, i)
      || (r.infos[i] == TxInfo(ds[n], t) && os[n] != SendFailed && (i in r.timers ==> os[n] == Armed))
    ensures OldOrMade(s, r, i, ds, os, t)
  {
    var n := |ds| - 1;
    if Lasting(m, r, i) {
      if MadeFor(ds[..n], os[..n], t, m.infos[i], i in m.timers) {
        MadeForPrefix(ds, os, n, t, m.infos[i], i in m.timers);
        assert MadeFor(ds, os, t, r.infos[i], i in r.timers);
      }
    } else {
      assert MadeFor(ds, os, t, r.infos[i], i in r.timers);
    }
  }

  lemma DispatchMakes(s: State, p: ParamId, ds: seq<Dpid>, os: seq<SetUp>, i: InfoId)
    requires |ds| == |os| && p in s.params && InfosBelow(s) && i in DispatchStep(s, p, ds, os).infos
    ensures OldOrMade(s, DispatchStep(s, p, ds, os), i, ds, os, TxidOf(s.dispatched))
  {
    hide MadeFor;
    SendAllMakes(InsertTx(s, p, ds, os), TxidOf(s.dispatched), ds, os);
  }

  /** Txinfo `x` stems from a position of the list that the `k`-th event brought. */
  ghost predicate StemsFrom(es: seq<Event>, k: nat, x: TxInfo, timer: bool) {
    && k < |es| && es[k].ListReply? && |DpidsOf(es[k].answer)| == |SetUpsOf(es[k].answer)|
    && MadeFor(DpidsOf(es[k].answer), SetUpsOf(es[k].answer), TxidOf(Lists(es, k)), x, timer)
  }

  lemma StepMakes(s: State, e: Event, i: InfoId)
    requires NoDangling(s) && AtRest(s) && InfosBelow(s) && Enabled(s, e) && i in Step(s, e).infos
    ensures Lasting(s, Step(s, e), i)
         || (&& e.ListReply? && |DpidsOf(e.answer)| == |SetUpsOf(e.answer)|
             && MadeFor(DpidsOf(e.answer), SetUpsOf(e.answer), TxidOf(s.dispatched),
                        Step(s, e).infos[i], i in Step(s, e).timers))
  {
    hide MadeFor, DispatchStep;
    if e.ListReply? {
      match e.answer
      case ListFailed => DispatchMakes(NoteFailedList(s, e.p), e.p, [], [], i);
      case ListOf(ds, os) => DispatchMakes(s, e.p, ds, os, i);
    } else if e.Response? || e.Timeout? {
      SwitchEventClosed(s, e);
    }
  }

  lemma InvBelow(s: State)
    requires Inv(s)
    ensures NoDangling(s) && AtRest(s) && InfosBelow(s)
  {
  }

  /** Over every run, a txinfo names a switch and a transaction of a list reply of that run, at a
      position whose request was sent; and if its timer is armed, one whose timer could be set.  So
      the events say whose response or timeout an event is. */
  lemma {:induction false} InfosFollowEvents(ss: seq<State>, es: seq<Event>, n: nat, i: InfoId)
    requires IsRun(ss, es) && n <= |es| && i in ss[n].infos
    ensures exists k :: 0 <= k < n && StemsFrom(es, k, ss[n].infos[i], i in ss[n].timers)
  {
    hide Inv, NoDangling, AtRest, InfosBelow, Enabled, Step, MadeFor;
    if n > 0 {
      var s, e, r := ss[n - 1], es[n - 1], ss[n];
      RunKeepsInv(ss, es, n - 1);
      InvBelow(s);
      CountersFollow(ss, es, n - 1);
      StepMakes(s, e, i);
      if Lasting(s, r, i) {
        InfosFollowEvents(ss, es, n - 1, i);
        var k :| 0 <= k < n - 1 && StemsFrom(es, k, s.infos[i], i in s.timers);
        StillStems(es, k, s.infos[i], i in s.timers, i in r.timers);
      } else {
        assert StemsFrom(es, n - 1, r.infos[i], i in r.timers);
      }
    }
  }

  lemma StillStems(es: seq<Event>, k: nat, x: TxInfo, timer: bool, timer': bool)
    requires StemsFrom(es, k, x, timer) && (timer' ==> timer)
    ensures StemsFrom(es, k, x, timer')
  {
  }
}
