/**
  Which switches the dispatch loop asks, and how often: a repeated datapath id is skipped only
  while it is waiting, so one whose timer could not be set is asked again at its next occurrence.
*/
module EventForwardFanOut {
  import opened EventForwardProtocol
  import opened EventForwardInvariant
  import opened EventForwardSteps
  import opened EventForwardRuns
  import opened EventForwardHistory

  ghost predicate ArmedBefore(ds: seq<Dpid>, os: seq<SetUp>, n: nat, d: Dpid)
    requires n <= |ds| == |os|
  {
    exists k :: 0 <= k < n && ds[k] == d && os[k] == Armed
  }

  /** The switches that are sent a request by the first `n` positions, in order. */
  ghost function Requested(ds: seq<Dpid>, os: seq<SetUp>, n: nat): seq<Dpid>
    requires n <= |ds| == |os|
  {
    if n == 0 then []
    else if os[n - 1] == SendFailed || ArmedBefore(ds, os, n - 1, ds[n - 1]) then Requested(ds, os, n - 1)
    else Requested(ds, os, n - 1) + [ds[n - 1]]
  }

  ghost function ToEach(p: ParamId, op: Operation, ds: seq<Dpid>): seq<Message> {
    seq(|ds|, k requires 0 <= k < |ds| => Message(p, Switch(ds[k]), op))
  }

  lemma ArmedInPrefix(ds: seq<Dpid>, os: seq<SetUp>, n: nat, d: Dpid)
    requires n <= |ds| == |os|
    ensures ArmedIn(ds[..n], os[..n], d) <==> ArmedBefore(ds, os, n, d)
  {
    if k :| 0 <= k < n && ds[..n][k] == d && os[..n][k] == Armed {
      assert ds[k] == d && os[k] == Armed;
    }
    if k :| 0 <= k < n && ds[k] == d && os[k] == Armed {
      assert ds[..n][k] == d && os[..n][k] == Armed;
    }
  }

  lemma WaitsIfArmed(s: State, t: Txid, ds: seq<Dpid>, os: seq<SetUp>, n: nat, d: Dpid)
    requires n <= |ds| == |os| && t in s.table && s.table[t].param in s.params
    requires s.table[t].waiting == {} && s.table[t].result == Succeeded
    ensures d in SendAll(s, t, ds[..n], os[..n]).table[t].waiting <==> ArmedBefore(ds, os, n, d)
  {
    hide ArmedIn, ArmedBefore, SendAll;
    SendAllSent(s, t, ds[..n], os[..n]);
    ArmedInPrefix(ds, os, n, d);
  }

  lemma SendOneOutbox(s: State, t: Txid, d: Dpid, o: SetUp)
    requires t in s.table && s.table[t].param in s.params
    ensures var p := s.table[t].param;
      SendOne(s, t, d, o).outbox == s.outbox +
        if o == SendFailed || d in s.table[t].waiting then [] else [Message(p, Switch(d), s.params[p].op)]
  {
  }

  lemma ToOneMore(p: ParamId, op: Operation, ds: seq<Dpid>, d: Dpid)
    ensures ToEach(p, op, ds + [d]) == ToEach(p, op, ds) + [Message(p, Switch(d), op)]
  {
  }

  /** For every list and every luck with sends and timers, the requests sent. */
  lemma {:induction false} FanOut(s: State, t: Txid, ds: seq<Dpid>, os: seq<SetUp>, n: nat)
    requires n <= |ds| == |os| && t in s.table && s.table[t].param in s.params
    requires s.table[t].waiting == {} && s.table[t].result == Succeeded
    ensures var p := s.table[t].param;
      SendAll(s, t, ds[..n], os[..n]).outbox == s.outbox + ToEach(p, s.params[p].op, Requested(ds, os, n))
  {
    hide ArmedBefore, SendOne, ToEach;
    var p, op := s.table[t].param, s.params[s.table[t].param].op;
    if n == 0 {
      ToNone(p, op);
    } else {
      var d, o := ds[n - 1], os[n - 1];
      var before, m := Requested(ds, os, n - 1), SendAll(s, t, ds[..n - 1], os[..n - 1]);
      FanOut(s, t, ds, os, n - 1);
      WaitsIfArmed(s, t, ds, os, n - 1, d);
      assert ds[..n][..n - 1] == ds[..n - 1] && os[..n][..n - 1] == os[..n - 1];
      SendOneOutbox(m, t, d, o);
      ToOneMore(p, op, before, d);
    }
  }

  lemma ToNone(p: ParamId, op: Operation)
    ensures ToEach(p, op, []) == []
  {
  }

  lemma DispatchOutbox(s: State, p: ParamId, ds: seq<Dpid>, os: seq<SetUp>)
    requires |ds| == |os| && p in s.params
    ensures DispatchStep(s, p, ds, os).outbox == s.outbox + ToEach(p, s.params[p].op, Requested(ds, os, |ds|))
  {
    FanOut(InsertTx(s, p, ds, os), TxidOf(s.dispatched), ds, os, |ds|);
    assert ds[..|ds|] == ds && os[..|ds|] == os;
  }

  /** In every run a list reply sends exactly these requests, with the requester's operation. */
  lemma RunFanOut(ss: seq<State>, es: seq<Event>, k: nat, p: ParamId, ds: seq<Dpid>, os: seq<SetUp>)
    requires IsRun(ss, es) && k < |es| && es[k] == ListReply(p, ListOf(ds, os))
    ensures |ds| == |os| && p in ss[k].params
    ensures ss[k + 1].outbox == ss[k].outbox + ToEach(p, ss[k].params[p].op, Requested(ds, os, |ds|))
  {
    assert Enabled(ss[k], es[k]) && NoDangling(ss[k]);
    DispatchOutbox(ss[k], p, ds, os);
  }

  predicate WellSized(e: Event) {
    e.ListReply? ==> |DpidsOf(e.answer)| == |SetUpsOf(e.answer)|
  }

  /** The messages that an event sends; `id` is the next request, and the request of a reply asked
      for `op`. */
  ghost function SentBy(id: ParamId, e: Event, op: Operation): seq<Message>
    requires WellSized(e)
  {
    match e
    case Start(param, sent) => if sent then [Message(id, SwitchManager, param.op)] else []
    case ManagerReply(p, reply, listSent) =>
      if !reply.managementFailed && reply.code == 0 && listSent then [Message(p, SwitchList, op)] else []
    case ListReply(p, a) => ToEach(p, op, Requested(DpidsOf(a), SetUpsOf(a), |DpidsOf(a)|))
    case _ => []
  }

  /** The request that a reply is about. */
  predicate About(e: Event, p: ParamId) {
    (e.ManagerReply? || e.ListReply?) && e.p == p
  }

  lemma StepSends(s: State, e: Event, op: Operation)
    requires NoDangling(s) && AtRest(s) && Enabled(s, e)
    requires forall p :: About(e, p) ==> p in s.params && s.params[p].op == op
    ensures WellSized(e) && Step(s, e).outbox == s.outbox + SentBy(s.nextParam, e, op)
  {
    hide ToEach, Requested;
    match e {
      case Start(_, _) =>
      case ManagerReply(p, _, _) => assert About(e, p);
      case ListReply(p, a) =>
        assert About(e, p);
        ListOutbox(s, p, a);
      case _ => SwitchEventClosed(s, e);
    }
  }

  /** Over every run, from its events: a start sends its request to the switch manager exactly if
      it was accepted, a manager reply asks for the switch list exactly if the manager agreed, a
      list reply asks the switches of its list, and responses and timeouts send nothing. */
  lemma MessagesOfRun(ss: seq<State>, es: seq<Event>, k: nat, param: Param)
    requires IsRun(ss, es) && k < |es|
    requires forall p :: About(es[k], p) ==> Accepted(es, k, p, param)
    ensures WellSized(es[k]) && ss[k + 1].outbox == ss[k].outbox + SentBy(Starts(es, k), es[k], param.op)
  {
    hide Inv, Step, SentBy, Accepted;
    var s, e := ss[k], es[k];
    RunKeepsInv(ss, es, k);
    CountersFollow(ss, es, k);
    forall p | About(e, p) ensures p in s.params && s.params[p].op == param.op {
      AcceptedFollowsEvents(ss, es, k, p, param);
      LiveIsAccepted(s, p);
    }
    RestsWell(s);
    StepSends(s, e, param.op);
  }

  lemma LiveIsAccepted(s: State, p: ParamId)
    requires Inv(s)
    ensures p in s.params ==> p in s.log.accepted && s.log.accepted[p] == s.params[p]
  {
  }

  lemma RestsWell(s: State)
    requires Inv(s)
    ensures NoDangling(s) && AtRest(s)
  {
  }

  lemma ListOutbox(s: State, p: ParamId, a: ListAnswer)
    requires p in s.params && |DpidsOf(a)| == |SetUpsOf(a)|
    requires a.ListOf? ==> |a.dpids| == |a.setUps|
    ensures ListStep(s, p, a).outbox
         == s.outbox + ToEach(p, s.params[p].op, Requested(DpidsOf(a), SetUpsOf(a), |DpidsOf(a)|))
  {
    match a
    case ListFailed => DispatchOutbox(NoteFailedList(s, p), p, [], []);
    case ListOf(ds, os) => DispatchOutbox(s, p, ds, os);
  }

  // ------------------------------------------------------------------- how often

  /** The positions at which `d` was asked and its timer could not be set. */
  ghost function Untimed(ds: seq<Dpid>, os: seq<SetUp>, n: nat, d: Dpid): set<nat>
    requires n <= |ds| == |os|
  {
    set k | 0 <= k < n && ds[k] == d && os[k] == TimerFailed && !ArmedBefore(ds, os, k, d)
  }

  lemma ArmedNext(ds: seq<Dpid>, os: seq<SetUp>, n: nat, d: Dpid)
    requires n < |ds| == |os|
    ensures ArmedBefore(ds, os, n + 1, d) <==> ArmedBefore(ds, os, n, d) || (ds[n] == d && os[n] == Armed)
  {
    if k :| 0 <= k < n + 1 && ds[k] == d && os[k] == Armed {
      assert k == n || ArmedBefore(ds, os, n, d);
    }
    if k :| 0 <= k < n && ds[k] == d && os[k] == Armed {
      assert ArmedBefore(ds, os, n + 1, d);
    }
  }

  lemma UntimedNext(ds: seq<Dpid>, os: seq<SetUp>, n: nat, d: Dpid)
    requires n < |ds| == |os|
    ensures |Untimed(ds, os, n + 1, d)| == |Untimed(ds, os, n, d)|
              + if ds[n] == d && os[n] == TimerFailed && !ArmedBefore(ds, os, n, d) then 1 else 0
  {
    hide ArmedBefore;
    var before, after := Untimed(ds, os, n, d), Untimed(ds, os, n + 1, d);
    assert after == if n in after then before + {n} else before;
  }

  /** A switch is asked once for every time its timer could not be set before it could, and
      once more if it ever could. */
  lemma {:induction false} RequestCount(ds: seq<Dpid>, os: seq<SetUp>, n: nat, d: Dpid)
    requires n <= |ds| == |os|
    ensures multiset(Requested(ds, os, n))[d] == |Untimed(ds, os, n, d)| + if ArmedBefore(ds, os, n, d) then 1 else 0
  {
    if n > 0 {
      hide ArmedBefore, Untimed;
      RequestCount(ds, os, n - 1, d);
      ArmedNext(ds, os, n - 1, d);
      UntimedNext(ds, os, n - 1, d);
    }
  }

  /** A request to `d` whose timer could not be set is followed by another one that could be
      sent. */
  ghost predicate AskedAgain(ds: seq<Dpid>, os: seq<SetUp>, d: Dpid)
    requires |ds| == |os|
  {
    exists j, k :: 0 <= j < k < |ds| && j in Untimed(ds, os, |ds|, d) && ds[k] == d && os[k] != SendFailed
  }

  lemma TwoElements(xs: set<nat>, j: nat, k: nat)
    requires j in xs && k in xs && j != k
    ensures |xs| >= 2
  {
    assert {j, k} <= xs;
    assert xs == {j, k} + (xs - {j, k});
    assert |{j, k}| == 2;
  }

  lemma PickTwo(xs: set<nat>) returns (j: nat, k: nat)
    requires |xs| >= 2
    ensures j in xs && k in xs && j < k
  {
    var a :| a in xs;
    assert xs != {a} by { assert |{a}| == 1; }
    assert xs - {a} != {};
    var b :| b in xs - {a};
    j, k := if a < b then a else b, if a < b then b else a;
  }

  lemma AgainMeansTwice(ds: seq<Dpid>, os: seq<SetUp>, d: Dpid)
    requires |ds| == |os| && AskedAgain(ds, os, d)
    ensures |Untimed(ds, os, |ds|, d)| >= if ArmedBefore(ds, os, |ds|, d) then 1 else 2
  {
    var xs := Untimed(ds, os, |ds|, d);
    var j, k :| 0 <= j < k < |ds| && j in xs && ds[k] == d && os[k] != SendFailed;
    if ArmedBefore(ds, os, |ds|, d) {
      assert xs == {j} + (xs - {j});
    } else {
      assert os[k] != Armed && !ArmedBefore(ds, os, k, d);
      TwoElements(xs, j, k);
    }
  }

  lemma TwiceMeansAgain(ds: seq<Dpid>, os: seq<SetUp>, d: Dpid)
    requires |ds| == |os| && |Untimed(ds, os, |ds|, d)| >= if ArmedBefore(ds, os, |ds|, d) then 1 else 2
    ensures AskedAgain(ds, os, d)
  {
    var xs := Untimed(ds, os, |ds|, d);
    if ArmedBefore(ds, os, |ds|, d) {
      var j :| j in xs;
      var k :| 0 <= k < |ds| && ds[k] == d && os[k] == Armed;
      assert k > j by { assert !ArmedBefore(ds, os, j, d); }
    } else {
      var j, k := PickTwo(xs);
    }
  }

  /** No switch is asked twice if and only if no request without a timer is followed by a further
      occurrence of the switch that could be sent. */
  lemma AskedOnceIff(ds: seq<Dpid>, os: seq<SetUp>, d: Dpid)
    requires |ds| == |os|
    ensures multiset(Requested(ds, os, |ds|))[d] <= 1 <==> !AskedAgain(ds, os, d)
  {
    hide AskedAgain, Untimed, ArmedBefore, Requested;
    RequestCount(ds, os, |ds|, d);
    if AskedAgain(ds, os, d) {
      AgainMeansTwice(ds, os, d);
    }
    if multiset(Requested(ds, os, |ds|))[d] > 1 {
      TwiceMeansAgain(ds, os, d);
    }
  }

  /** A switch is asked at all if and only if some occurrence of it could be sent. */
  lemma AskedIff(ds: seq<Dpid>, os: seq<SetUp>, d: Dpid)
    requires |ds| == |os|
    ensures d in Requested(ds, os, |ds|) <==> exists k :: 0 <= k < |ds| && ds[k] == d && os[k] != SendFailed
  {
    RequestCount(ds, os, |ds|, d);
    var xs := Untimed(ds, os, |ds|, d);
    if d in Requested(ds, os, |ds|) && !ArmedBefore(ds, os, |ds|, d) {
      assert xs != {};
      var k :| k in xs;
      assert ds[k] == d && os[k] != SendFailed;
    }
    if k :| 0 <= k < |ds| && ds[k] == d && os[k] != SendFailed {
      if !ArmedBefore(ds, os, |ds|, d) {
        assert os[k] != Armed && !ArmedBefore(ds, os, k, d);
        assert k in xs;
      }
    }
  }

  /** The input that shows it: the same switch twice, with no timer for the first request. */
  lemma AskedTwice(s: State, t: Txid, d: Dpid)
    requires t in s.table && s.table[t].param in s.params
    requires s.table[t].waiting == {} && s.table[t].result == Succeeded
    ensures var p := s.table[t].param;
      var m := Message(p, Switch(d), s.params[p].op);
      SendAll(s, t, [d, d], [TimerFailed, Armed]).outbox == s.outbox + [m, m]
  {
    hide SendAll, SendOne;
    var ds, os := [d, d], [TimerFailed, Armed];
    FanOut(s, t, ds, os, 2);
    assert ds[..2] == ds && os[..2] == os;
    RequestedTwice(ds, os, d);
  }

  lemma RequestedTwice(ds: seq<Dpid>, os: seq<SetUp>, d: Dpid)
    requires ds == [d, d] && os == [TimerFailed, Armed]
    ensures Requested(ds, os, 2) == [d, d]
  {
    assert Requested(ds, os, 1) == [d];
  }

  // --------------------------------------------------------- when everything works

  /** The list without repetitions, in order of first occurrence. */
  ghost function Distinct(ds: seq<Dpid>, n: nat): seq<Dpid>
    requires n <= |ds|
  {
    if n == 0 then []
    else if ds[n - 1] in ds[..n - 1] then Distinct(ds, n - 1)
    else Distinct(ds, n - 1) + [ds[n - 1]]
  }

  lemma {:induction false} DistinctIsDistinct(ds: seq<Dpid>, n: nat)
    requires n <= |ds|
    ensures NoRepeats(Distinct(ds, n))
    ensures forall d :: d in Distinct(ds, n) <==> d in ds[..n]
  {
    if n > 0 {
      DistinctIsDistinct(ds, n - 1);
      assert ds[..n] == ds[..n - 1] + [ds[n - 1]];
    }
  }

  /** If every first occurrence is set up, each distinct switch gets exactly one request, however
      often the list repeats it. */
  lemma {:induction false} FanOutOnce(ds: seq<Dpid>, os: seq<SetUp>, n: nat)
    requires n <= |ds| == |os| && AllSetUp(ds, os)
    ensures Requested(ds, os, n) == Distinct(ds, n)
  {
    if n > 0 {
      FanOutOnce(ds, os, n - 1);
      var d := ds[n - 1];
      if d in ds[..n - 1] {
        var k := FirstPosition(ds, n - 1, d);
        assert os[k] == Armed;
        assert ArmedBefore(ds, os, n - 1, d);
      } else {
        assert os[n - 1] == Armed;
      }
    }
  }

  lemma {:induction false} FirstPosition(ds: seq<Dpid>, n: nat, d: Dpid) returns (k: nat)
    requires n <= |ds| && d in ds[..n]
    ensures k < n && ds[k] == d && d !in ds[..k]
  {
    if d in ds[..n - 1] {
      k := FirstPosition(ds, n - 1, d);
    } else {
      k := n - 1;
      assert ds[..n] == ds[..n - 1] + [ds[n - 1]];
    }
  }
}
