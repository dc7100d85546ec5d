/**
  The promises of the all-switches interface, over every run: any number of requests,
  and any interleaving of replies, list answers, switch responses and timeouts.
*/
module EventForwardRuns {
  import opened EventForwardProtocol
  import opened EventForwardInvariant
  import opened EventForwardSteps

  /** `ss` are the states of a run of the events `es` from start-up. */
  ghost predicate IsRun(ss: seq<State>, es: seq<Event>) {
    && |ss| == |es| + 1
    && ss[0] == INIT
    && forall k :: 0 <= k < |es| ==>
         NoDangling(ss[k]) && Enabled(ss[k], es[k]) && ss[k + 1] == Step(ss[k], es[k])
  }

  lemma {:induction false} RunKeepsInv(ss: seq<State>, es: seq<Event>, k: nat)
    requires IsRun(ss, es) && k < |ss|
    ensures Inv(ss[k])
  {
    if k > 0 {
      RunKeepsInv(ss, es, k - 1);
      StepKeepsInv(ss[k - 1], es[k - 1]);
    }
  }

  /** A run never gets into a state from which an enabled event would touch a released
      record, so it can always be continued. */
  lemma RunCanContinue(ss: seq<State>, es: seq<Event>, e: Event)
    requires IsRun(ss, es) && Enabled(ss[|es|], e)
    ensures NoDangling(ss[|es|])
    ensures IsRun(ss + [Step(ss[|es|], e)], es + [e])
  {
    RunKeepsInv(ss, es, |es|);
    var ss' := ss + [Step(ss[|es|], e)];
    var es' := es + [e];
    forall k | 0 <= k < |es'|
      ensures NoDangling(ss'[k]) && Enabled(ss'[k], es'[k]) && ss'[k + 1] == Step(ss'[k], es'[k])
    {
      if k < |es| {
        assert ss'[k] == ss[k] && ss'[k + 1] == ss[k + 1] && es'[k] == es[k];
      }
    }
  }

  /** What a run may meet is not narrowed: any start; for every request sent and not answered, any
      answer; for every list reply, any switches with any luck; for every armed timer, its end. */
  lemma EnvironmentIsFree(s: State)
    ensures forall param, sent :: Enabled(s, Start(param, sent))
    ensures forall p, reply, listSent :: p in s.managerPending ==> Enabled(s, ManagerReply(p, reply, listSent))
    ensures forall p :: p in s.listPending && s.dispatched < TXID_MODULUS ==> Enabled(s, ListReply(p, ListFailed))
    ensures forall p, ds, os :: p in s.listPending && s.dispatched < TXID_MODULUS && |ds| == |os| ==>
              Enabled(s, ListReply(p, ListOf(ds, os)))
    ensures forall i, reply :: i in s.switchPending ==> Enabled(s, Response(i, reply))
    ensures forall i :: i in s.timers ==> Enabled(s, Timeout(i))
  {
  }

  /** A switch event between steps, in closed form. */
  lemma SwitchEventClosed(s: State, e: Event)
    requires NoDangling(s) && AtRest(s) && Enabled(s, e) && (e.Response? || e.Timeout?)
    ensures Step(s, e) == if e.Response? then ResponseAtRest(s, e.i, e.reply) else TimeoutAtRest(s, e.i)
  {
    match e
    case Response(i, reply) => ResponseClosed(s, i, reply);
    case Timeout(i) => TimeoutClosed(s, i);
  }

  // ------------------------------------------------------------ callbacks

  /** `r` calls back exactly the request it retires, if that gave a callback. */
  ghost predicate CallsRetired(s: State, r: State) {
    && s.calls <= r.calls && |r.calls| <= |s.calls| + 1
    && forall p :: (|r.calls| == |s.calls| + 1 && r.calls[|s.calls|].param == p) <==>
                   (p in s.params && p !in r.params && s.params[p].hasCallback)
  }

  lemma RetireCalls(s: State, b: State, t: Txid, result: EfiResult)
    requires t in b.table && b.table[t].param in b.params
    requires b.params == s.params && b.calls == s.calls
    ensures CallsRetired(s, Retire(b, t, result))
  {
  }

  lemma DispatchCalls(s: State, p: ParamId, ds: seq<Dpid>, os: seq<SetUp>)
    requires |ds| == |os| && p in s.params
    ensures CallsRetired(s, DispatchStep(s, p, ds, os))
  {
    var t := TxidOf(s.dispatched);
    var a := InsertTx(s, p, ds, os);
    var b := SendAll(a, t, ds, os);
    SendAllSent(a, t, ds, os);
    if ds == [] || b.table[t].result == Failed {
      RetireCalls(s, b, t, b.table[t].result);
    }
  }

  lemma SwitchEventCalls(s: State, e: Event)
    requires NoDangling(s) && AtRest(s) && Enabled(s, e) && (e.Response? || e.Timeout?)
    ensures CallsRetired(s, Step(s, e))
  {
    SwitchEventClosed(s, e);
    var x := s.infos[e.i];
    if Waits(s, x) {
      if e.Timeout? {
        RetireCalls(s, Expired(s, e.i), x.txid, Failed);
      } else {
        RetireCalls(s, Answered(s, e.i, Accepts(e.reply)), x.txid, if Accepts(e.reply) then Succeeded else Failed);
      }
    }
  }

  /** Every step calls back exactly the request it retires. */
  lemma StepCalls(s: State, e: Event)
    requires NoDangling(s) && AtRest(s) && Enabled(s, e) && s.nextParam !in s.params
    ensures CallsRetired(s, Step(s, e))
  {
    match e
    case Start(_, _) =>
    case ManagerReply(_, _, _) =>
    case ListReply(p, a) =>
      match a {
        case ListFailed => DispatchCalls(NoteFailedList(s, p), p, [], []);
        case ListOf(ds, os) => DispatchCalls(s, p, ds, os);
      }
    case _ => SwitchEventCalls(s, e);
  }

  lemma RunCalls(ss: seq<State>, es: seq<Event>, k: nat)
    requires IsRun(ss, es) && k < |es|
    ensures CallsRetired(ss[k], ss[k + 1])
  {
    RunKeepsInv(ss, es, k);
    StepCalls(ss[k], es[k]);
  }

  // ---------------------------------------------------- stale and foreign events

  /** In every run, a response or timeout whose transaction is gone or whose switch is no longer
      waiting changes no transaction and calls nobody, although a timeout still checks the
      result of its transaction: between steps no transaction in the table has failed. */
  lemma StaleEventIsHarmless(ss: seq<State>, es: seq<Event>, k: nat)
    requires IsRun(ss, es) && k < |es| && (es[k].Response? || es[k].Timeout?)
    requires !Waits(ss[k], ss[k].infos[es[k].i])
    ensures var s, r := ss[k], ss[k + 1];
      && r.table == s.table && r.params == s.params && r.calls == s.calls && r.outbox == s.outbox
      && r.log.outcome == s.log.outcome
  {
    RunKeepsInv(ss, es, k);
    SwitchEventClosed(ss[k], es[k]);
  }

  /** From `s` to `r`, transaction `t` is untouched: its entry, its request record, its txinfo
      records and timers; and its requester is not called. */
  ghost predicate Untouched(s: State, r: State, t: Txid)
    requires t in s.table && s.table[t].param in s.params
  {
    var p := s.table[t].param;
    && t in r.table && r.table[t] == s.table[t]
    && p in r.params && r.params[p] == s.params[p]
    && (forall j :: |s.calls| <= j < |r.calls| ==> r.calls[j].param != p)
    && (forall i :: i in s.infos && s.infos[i].txid == t ==>
          i in r.infos && r.infos[i] == s.infos[i] && (i in s.timers <==> i in r.timers))
  }

  lemma ResponseIsIsolated(s: State, i: InfoId, reply: Reply, t: Txid)
    requires Ownership(s) && i in s.infos && t in s.table && t != s.infos[i].txid
    ensures Untouched(s, ResponseAtRest(s, i, reply), t)
  {
  }

  lemma TimeoutIsIsolated(s: State, i: InfoId, t: Txid)
    requires Ownership(s) && i in s.infos && t in s.table && t != s.infos[i].txid
    ensures Untouched(s, TimeoutAtRest(s, i), t)
  {
  }

  /** In every run, an event of one transaction leaves every other untouched. */
  lemma EventsAreIsolated(ss: seq<State>, es: seq<Event>, k: nat, t: Txid)
    requires IsRun(ss, es) && k < |es| && (es[k].Response? || es[k].Timeout?)
    requires t in ss[k].table && t != ss[k].infos[es[k].i].txid
    ensures Untouched(ss[k], ss[k + 1], t)
  {
    RunKeepsInv(ss, es, k);
    SwitchEventClosed(ss[k], es[k]);
    hide Untouched, ResponseAtRest, TimeoutAtRest;
    match es[k]
    case Response(i, reply) => ResponseIsIsolated(ss[k], i, reply, t);
    case Timeout(i) => TimeoutIsIsolated(ss[k], i, t);
  }

  // --------------------------------------------------------------- progress

  ghost function Pick(m: map<Txid, Tx>): (t: Txid)
    requires m.Keys != {}
    ensures t in m
  {
    var t :| t in m.Keys; t
  }

  ghost function TotalWaiting(m: map<Txid, Tx>): nat
    decreases m.Keys
  {
    if m.Keys == {} then 0
    else |m[Pick(m)].waiting| + TotalWaiting(m - {Pick(m)})
  }

  lemma {:induction false} TotalSplit(m: map<Txid, Tx>, t: Txid)
    requires t in m
    ensures TotalWaiting(m) == |m[t].waiting| + TotalWaiting(m - {t})
    decreases m.Keys
  {
    var u := Pick(m);
    if u != t {
      var mu, mt := m - {u}, m - {t};
      TotalSplit(mu, t);
      TotalSplit(mt, u);
      assert mu - {t} == mt - {u};
    }
  }

  lemma Shrinks(m: map<Txid, Tx>, m': map<Txid, Tx>, t: Txid, d: Dpid)
    requires t in m && d in m[t].waiting
    requires m' == m - {t} || m' == m[t := m[t].(waiting := m[t].waiting - {d})]
    ensures TotalWaiting(m') < TotalWaiting(m)
  {
    TotalSplit(m, t);
    assert m[t].waiting == (m[t].waiting - {d}) + {d};
    if t in m' {
      TotalSplit(m', t);
      assert m' - {t} == m - {t};
    }
  }

  /** Every event of a waiting switch brings the table closer to empty. */
  lemma EffectiveEventsMakeProgress(s: State, e: Event)
    requires NoDangling(s) && AtRest(s) && Enabled(s, e) && (e.Response? || e.Timeout?)
    requires Waits(s, s.infos[e.i])
    ensures TotalWaiting(Step(s, e).table) < TotalWaiting(s.table)
  {
    SwitchEventClosed(s, e);
    Shrinks(s.table, Step(s, e).table, s.infos[e.i].txid, s.infos[e.i].dpid);
  }

  /** No transaction can be stuck: a timer is armed whose firing ends it. */
  lemma NeverStuck(s: State, t: Txid)
    requires Inv(s) && t in s.table
    ensures exists i :: Enabled(s, Timeout(i)) && t !in Step(s, Timeout(i)).table
  {
    var d :| d in s.table[t].waiting;
    assert TimerFor(s, d, t);
    var i :| i in s.timers && i in s.infos && s.infos[i] == TxInfo(d, t);
    SwitchEventClosed(s, Timeout(i));
    assert Enabled(s, Timeout(i)) && t !in Step(s, Timeout(i)).table;
  }

  lemma TableNeedsTimers(s: State)
    requires TableInv(s)
    ensures s.table.Keys != {} ==> s.timers != {}
  {
    if s.table.Keys != {} {
      var t :| t in s.table;
      var d :| d in s.table[t].waiting;
      assert TimerFor(s, d, t);
    }
  }

  // --------------------------------------------------------------- ownership

  datatype Owner = ManagerRequest | ListRequest | Transaction(t: Txid)

  ghost function Owners(s: State, p: ParamId): set<Owner> {
    (if p in s.managerPending then {ManagerRequest} else {})
    + (if p in s.listPending then {ListRequest} else {})
    + (set t | t in s.table && s.table[t].param == p :: Transaction(t))
  }

  lemma OneOwner(s: State, p: ParamId)
    requires Ownership(s)
    ensures p in s.params ==> exists o :: Owners(s, p) == {o}
    ensures p !in s.params ==> Owners(s, p) == {}
  {
    if p in s.managerPending {
      assert Owners(s, p) == {ManagerRequest};
    } else if p in s.listPending {
      assert Owners(s, p) == {ListRequest};
    } else if p in s.params {
      assert OwnedByTx(s, p);
      var t :| t in s.table && s.table[t].param == p;
      assert Owners(s, p) == {Transaction(t)};
    }
  }

  /** A live request record has exactly one owner and a released one has none; nothing is
      released twice, and no timer or pending reply refers to a released txinfo. */
  lemma OwnershipTheorem(ss: seq<State>, es: seq<Event>, p: ParamId)
    requires IsRun(ss, es)
    ensures var s := ss[|es|];
      && (p in s.params ==> exists o :: Owners(s, p) == {o})
      && (p !in s.params ==> Owners(s, p) == {})
      && NoRepeats(s.freed)
      && (ParamCell(p) in s.freed ==> p !in s.params)
      && s.timers <= s.infos.Keys && s.switchPending == s.infos.Keys
      && (forall i: InfoId :: InfoCell(i) in s.freed ==> i !in s.timers && i !in s.switchPending)
  {
    RunKeepsInv(ss, es, |es|);
    OneOwner(ss[|es|], p);
  }

  /** Every record ever allocated is live or has been released: none drops out of the books. */
  ghost predicate Conserved(s: State) {
    && (forall p: ParamId :: p < s.nextParam ==> p in s.params || ParamCell(p) in s.freed)
    && (forall i: InfoId :: i < s.nextInfo ==> i in s.infos || InfoCell(i) in s.freed)
  }

  lemma {:induction false} SendAllConserves(s: State, t: Txid, ds: seq<Dpid>, os: seq<SetUp>)
    requires |ds| == |os| && t in s.table && s.table[t].param in s.params && Conserved(s)
    ensures Conserved(SendAll(s, t, ds, os))
  {
    if ds != [] {
      var n := |ds| - 1;
      SendAllConserves(s, t, ds[..n], os[..n]);
    }
  }

  lemma DispatchConserves(s: State, p: ParamId, ds: seq<Dpid>, os: seq<SetUp>)
    requires |ds| == |os| && p in s.params && Conserved(s)
    ensures Conserved(DispatchStep(s, p, ds, os))
  {
    SendAllConserves(InsertTx(s, p, ds, os), TxidOf(s.dispatched), ds, os);
  }

  lemma StepConserves(s: State, e: Event)
    requires NoDangling(s) && AtRest(s) && Enabled(s, e) && Conserved(s)
    ensures Conserved(Step(s, e))
  {
    if e.Response? || e.Timeout? { SwitchEventClosed(s, e); }
    if e.ListReply? {
      match e.answer
      case ListFailed => DispatchConserves(NoteFailedList(s, e.p), e.p, [], []);
      case ListOf(ds, os) => DispatchConserves(s, e.p, ds, os);
    }
  }

  lemma {:induction false} NothingIsLost(ss: seq<State>, es: seq<Event>, k: nat)
    requires IsRun(ss, es) && k < |ss|
    ensures Conserved(ss[k])
  {
    if k > 0 {
      NothingIsLost(ss, es, k - 1);
      RunKeepsInv(ss, es, k - 1);
      StepConserves(ss[k - 1], es[k - 1]);
    }
  }

  // ---------------------------------------------------------------- messages

  /** Whatever is sent on behalf of a request carries the operation that was asked for. */
  ghost predicate Faithful(s: State) {
    forall m :: m in s.outbox ==> m.param in s.log.accepted && m.op == s.log.accepted[m.param].op
  }

  lemma {:induction false} SendAllFaithful(s: State, t: Txid, ds: seq<Dpid>, os: seq<SetUp>)
    requires |ds| == |os| && t in s.table && s.table[t].param in s.params && Faithful(s)
    requires s.table[t].param in s.log.accepted
    requires s.params[s.table[t].param] == s.log.accepted[s.table[t].param]
    ensures Faithful(SendAll(s, t, ds, os)) && SendAll(s, t, ds, os).log == s.log
  {
    if ds != [] {
      var n := |ds| - 1;
      SendAllFaithful(s, t, ds[..n], os[..n]);
    }
  }

  lemma DispatchFaithful(s: State, p: ParamId, ds: seq<Dpid>, os: seq<SetUp>)
    requires |ds| == |os| && p in s.params && p in s.log.accepted && s.params[p] == s.log.accepted[p]
    requires Faithful(s)
    ensures Faithful(DispatchStep(s, p, ds, os))
  {
    var a := InsertTx(s, p, ds, os);
    assert Faithful(a);
    SendAllFaithful(a, TxidOf(s.dispatched), ds, os);
  }

  lemma StepFaithful(s: State, e: Event)
    requires NoDangling(s) && AtRest(s) && Accounting(s) && Enabled(s, e) && Faithful(s)
    ensures Faithful(Step(s, e))
  {
    if e.Response? || e.Timeout? { SwitchEventClosed(s, e); }
    if e.ListReply? {
      if e.answer.ListOf? {
        DispatchFaithful(s, e.p, e.answer.dpids, e.answer.setUps);
      } else {
        DispatchFaithful(NoteFailedList(s, e.p), e.p, [], []);
      }
    }
  }

  lemma {:induction false} MessagesAreFaithful(ss: seq<State>, es: seq<Event>, k: nat)
    requires IsRun(ss, es) && k < |ss|
    ensures Faithful(ss[k])
  {
    if k > 0 {
      MessagesAreFaithful(ss, es, k - 1);
      RunKeepsInv(ss, es, k - 1);
      StepFaithful(ss[k - 1], es[k - 1]);
    }
  }
}
