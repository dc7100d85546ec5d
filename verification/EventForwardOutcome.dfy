/**
  What a requester is told, from the events of the run: which starts, manager replies, list
  replies, responses and timeouts there were.  Whose response or timeout an event is, says the
  txinfo it carries; `InfosFollowEvents` ties that to the list replies.
*/
module EventForwardOutcome {
  import opened EventForwardProtocol
  import opened EventForwardInvariant
  import opened EventForwardSteps
  import opened EventForwardRuns
  import opened EventForwardHistory

  datatype Fate = NotAccepted | InFlight | Reported(result: EfiResult)

  ghost function FateOf(s: State, p: ParamId): Fate {
    if p in s.params then InFlight
    else if p in s.log.outcome then Reported(s.log.outcome[p])
    else NotAccepted
  }

  // ------------------------------------------------------------- what is earned

  /** Send and timer set-up worked for every distinct switch of the list that the `k`-th event
      handed on. */
  ghost predicate Asked(ss: seq<State>, es: seq<Event>, k: nat)
    requires IsRun(ss, es) && k < |es| && es[k].ListReply?
  {
    AllSetUp(DpidsOf(es[k].answer), SetUpsOf(es[k].answer))
  }

  /** The first event of every switch of that list was a successful response. */
  ghost predicate AllAgreed(ss: seq<State>, es: seq<Event>, k: nat)
    requires IsRun(ss, es) && k < |es| && es[k].ListReply?
  {
    AllAnsweredOk(Verdicts(ss, es, |es|), TxidOf(Lists(es, k)), DpidsOf(es[k].answer))
  }

  /** The first event of some switch of that list was a failed response or a timeout. */
  ghost predicate SomeRefused(ss: seq<State>, es: seq<Event>, k: nat)
    requires IsRun(ss, es) && k < |es| && es[k].ListReply?
  {
    SomeFailed(Verdicts(ss, es, |es|), TxidOf(Lists(es, k)), DpidsOf(es[k].answer))
  }

  ghost predicate EarnsSuccess(ss: seq<State>, es: seq<Event>, p: ParamId)
    requires IsRun(ss, es)
  {
    exists k :: 0 <= k < |es| && es[k].ListReply? && es[k].p == p && Asked(ss, es, k) && AllAgreed(ss, es, k)
  }

  ghost predicate EarnsFailure(ss: seq<State>, es: seq<Event>, p: ParamId)
    requires IsRun(ss, es)
  {
    || ManagerSaid(es, |es|, p, false)
    || exists k :: 0 <= k < |es| && es[k].ListReply? && es[k].p == p && (!Asked(ss, es, k) || SomeRefused(ss, es, k))
  }

  // ----------------------------------------------------- the same from the record

  ghost predicate LoggedSuccess(l: Log, p: ParamId) {
    && p in l.txOf && l.txOf[p] in l.dispatches
    && var t := l.txOf[p];
       var dispatch := l.dispatches[t];
       && |dispatch.dpids| == |dispatch.setUps|
       && AllSetUp(dispatch.dpids, dispatch.setUps)
       && AllAnsweredOk(l.verdicts, t, dispatch.dpids)
  }

  ghost predicate LoggedFailure(l: Log, p: ParamId) {
    || p in l.managerNo
    || (&& p in l.txOf && l.txOf[p] in l.dispatches
        && var t := l.txOf[p];
           var dispatch := l.dispatches[t];
           && |dispatch.dpids| == |dispatch.setUps|
           && (!AllSetUp(dispatch.dpids, dispatch.setUps) || SomeFailed(l.verdicts, t, dispatch.dpids)))
  }

  lemma InvDecides(s: State, p: ParamId)
    requires Inv(s) && p in s.log.accepted
    ensures FateOf(s, p) == Reported(Succeeded) <==> LoggedSuccess(s.log, p)
    ensures FateOf(s, p) == Reported(Failed) <==> LoggedFailure(s.log, p)
    ensures FateOf(s, p) != NotAccepted
  {
    if p in s.log.txOf {
      var t := s.log.txOf[p];
      assert DecidedBy(s, t);
      if t in s.table {
        var d :| d in s.table[t].waiting;
        assert First(s.log.verdicts, t, d) == Silent;
      }
    }
  }

  /** The list reply of a request, as the record has it. */
  lemma ReplyOnRecord(ss: seq<State>, es: seq<Event>, k: nat, p: ParamId)
    requires IsRun(ss, es) && k < |es| && es[k].ListReply? && es[k].p == p
    ensures var l, t := ss[|es|].log, TxidOf(Lists(es, k));
      && OpenedBy(l, es, k, p, t)
      && |l.dispatches[t].dpids| == |l.dispatches[t].setUps| && l.verdicts == Verdicts(ss, es, |es|)
  {
    DispatchesFollowEvents(ss, es, |es|);
    VerdictsFollowEvents(ss, es, |es|);
    assert ListCame(es, k, p, TxidOf(Lists(es, k)));
  }

  /** The list is asked for once per request, so there is one list reply. */
  lemma ReplyIsUnique(ss: seq<State>, es: seq<Event>, j: nat, k: nat)
    requires IsRun(ss, es) && j < |es| && k < |es| && es[j].ListReply? && es[k].ListReply? && es[j].p == es[k].p
    ensures j == k
  {
    if j < k {
      ReplyIsFirst(ss, es, j, k);
    } else if k < j {
      ReplyIsFirst(ss, es, k, j);
    }
  }

  lemma ReplyIsFirst(ss: seq<State>, es: seq<Event>, j: nat, k: nat)
    requires IsRun(ss, es) && j < k < |es| && es[j].ListReply? && es[k].ListReply?
    ensures es[j].p != es[k].p
  {
    RunKeepsInv(ss, es, k);
    DispatchesFollowEvents(ss, es, k);
    assert ListCame(es, j, es[j].p, TxidOf(Lists(es, j)));
    assert OpenedBy(ss[k].log, es, j, es[j].p, TxidOf(Lists(es, j)));
    assert Enabled(ss[k], es[k]);
  }

  /** The list reply of a request that was dispatched. */
  lemma ReplyOfRecord(ss: seq<State>, es: seq<Event>, p: ParamId) returns (k: nat)
    requires IsRun(ss, es) && p in ss[|es|].log.txOf
    ensures k < |es| && es[k].ListReply? && es[k].p == p
    ensures OpenedBy(ss[|es|].log, es, k, p, ss[|es|].log.txOf[p])
  {
    DispatchesFollowEvents(ss, es, |es|);
    k :| 0 <= k < |es| && ListCame(es, k, p, ss[|es|].log.txOf[p]);
  }

  lemma SuccessFollowsEvents(ss: seq<State>, es: seq<Event>, p: ParamId)
    requires IsRun(ss, es)
    ensures LoggedSuccess(ss[|es|].log, p) <==> EarnsSuccess(ss, es, p)
  {
    if LoggedSuccess(ss[|es|].log, p) {
      var k := ReplyOfRecord(ss, es, p);
      ReplyOnRecord(ss, es, k, p);
      assert Asked(ss, es, k) && AllAgreed(ss, es, k);
    }
    if EarnsSuccess(ss, es, p) {
      var k :| 0 <= k < |es| && es[k].ListReply? && es[k].p == p && Asked(ss, es, k) && AllAgreed(ss, es, k);
      ReplyOnRecord(ss, es, k, p);
    }
  }

  lemma FailureFollowsEvents(ss: seq<State>, es: seq<Event>, p: ParamId)
    requires IsRun(ss, es)
    ensures LoggedFailure(ss[|es|].log, p) <==> EarnsFailure(ss, es, p)
  {
    var l := ss[|es|].log;
    ManagerFollowsEvents(ss, es, |es|, p);
    if LoggedFailure(l, p) && p !in l.managerNo {
      var k := ReplyOfRecord(ss, es, p);
      ReplyOnRecord(ss, es, k, p);
      assert !Asked(ss, es, k) || SomeRefused(ss, es, k);
    }
    if EarnsFailure(ss, es, p) && p !in l.managerNo {
      var k :| 0 <= k < |es| && es[k].ListReply? && es[k].p == p && (!Asked(ss, es, k) || SomeRefused(ss, es, k));
      ReplyOnRecord(ss, es, k, p);
    }
  }

  // ------------------------------------------------------------------- theorems

  /** The result of every request is decided by what the environment did, not by the order
      in which switches were heard, and it is reported as soon as it is decided. */
  lemma OutcomeTheorem(ss: seq<State>, es: seq<Event>, p: ParamId, param: Param)
    requires IsRun(ss, es) && Accepted(es, |es|, p, param)
    ensures var s := ss[|es|];
      && FateOf(s, p) != NotAccepted
      && (FateOf(s, p) == Reported(Succeeded) <==> EarnsSuccess(ss, es, p))
      && (FateOf(s, p) == Reported(Failed) <==> EarnsFailure(ss, es, p))
      && (Call(p, Succeeded) in s.calls <==> param.hasCallback && EarnsSuccess(ss, es, p))
      && (Call(p, Failed) in s.calls <==> param.hasCallback && EarnsFailure(ss, es, p))
  {
    RunKeepsInv(ss, es, |es|);
    AcceptedFollowsEvents(ss, es, |es|, p, param);
    InvDecides(ss[|es|], p);
    SuccessFollowsEvents(ss, es, p);
    FailureFollowsEvents(ss, es, p);
    CallsTellFate(ss[|es|], p);
  }

  /** The calls made for a request are its fate, told once. */
  lemma CallsTellFate(s: State, p: ParamId)
    requires Accounting(s) && CallsInv(s) && p in s.log.accepted
    ensures forall r :: Call(p, r) in s.calls <==> s.log.accepted[p].hasCallback && FateOf(s, p) == Reported(r)
  {
  }

  /** At most one callback per request over a whole run; none for a refused start; and a
      request that gave a callback has had it exactly if it is no longer in flight. */
  lemma CallbackAtMostOnce(ss: seq<State>, es: seq<Event>, p: ParamId)
    requires IsRun(ss, es)
    ensures var s := ss[|es|];
      && (forall i, j :: 0 <= i < |s.calls| && 0 <= j < |s.calls| && s.calls[i].param == s.calls[j].param == p ==>
            i == j)
      && (Refused(es, |es|, p) ==> forall i :: 0 <= i < |s.calls| ==> s.calls[i].param != p)
      && forall param :: Accepted(es, |es|, p, param) ==>
           ((exists r :: Call(p, r) in s.calls) <==> p !in s.params && param.hasCallback)
  {
    RunKeepsInv(ss, es, |es|);
    RefusedFollowsEvents(ss, es, |es|, p);
    var s := ss[|es|];
    forall i | 0 <= i < |s.calls| && s.calls[i].param == p ensures p in s.log.outcome {
      assert Call(p, s.calls[i].result) in s.calls;
    }
    forall param | Accepted(es, |es|, p, param)
      ensures (exists r :: Call(p, r) in s.calls) <==> p !in s.params && param.hasCallback
    {
      AcceptedFollowsEvents(ss, es, |es|, p, param);
      CallsTellFate(s, p);
      if p !in s.params && param.hasCallback { assert Call(p, s.log.outcome[p]) in s.calls; }
    }
  }

  /** Once every timer has fired or been cancelled and the manager has answered, every
      accepted request has been reported; what is still held is exactly one txinfo for each
      switch that was asked and has not answered. */
  lemma QuietMeansReported(ss: seq<State>, es: seq<Event>)
    requires IsRun(ss, es)
    requires ss[|es|].timers == {} && ss[|es|].managerPending == {} && ss[|es|].listPending == {}
    ensures ss[|es|].params == map[] && ss[|es|].table == map[]
    ensures ss[|es|].infos.Keys == ss[|es|].switchPending
    ensures forall p, param :: Accepted(es, |es|, p, param) ==> FateOf(ss[|es|], p).Reported?
  {
    RunKeepsInv(ss, es, |es|);
    var s := ss[|es|];
    TableNeedsTimers(s);
    assert s.params.Keys == {};
    forall p, param | Accepted(es, |es|, p, param) ensures FateOf(s, p).Reported? {
      AcceptedFollowsEvents(ss, es, |es|, p, param);
    }
  }

  /** The `k`-th event of one run and the `k'`-th of another are list replies that name the same
      switches, were set up with the same luck, and got the same first answers. */
  ghost predicate SameAnswers(ss: seq<State>, es: seq<Event>, k: nat, ss': seq<State>, es': seq<Event>, k': nat)
    requires IsRun(ss, es) && IsRun(ss', es') && k < |es| && k' < |es'| && es[k].ListReply? && es'[k'].ListReply?
  {
    && (forall d :: d in DpidsOf(es[k].answer) <==> d in DpidsOf(es'[k'].answer))
    && (Asked(ss, es, k) <==> Asked(ss', es', k'))
    && forall d :: d in DpidsOf(es[k].answer) ==>
         First(Verdicts(ss, es, |es|), TxidOf(Lists(es, k)), d)
         == First(Verdicts(ss', es', |es'|), TxidOf(Lists(es', k')), d)
  }

  lemma SameEarnings(ss: seq<State>, es: seq<Event>, k: nat, ss': seq<State>, es': seq<Event>, k': nat)
    requires IsRun(ss, es) && IsRun(ss', es') && k < |es| && k' < |es'| && es[k].ListReply? && es'[k'].ListReply?
    requires SameAnswers(ss, es, k, ss', es', k')
    ensures AllAgreed(ss, es, k) <==> AllAgreed(ss', es', k')
    ensures SomeRefused(ss, es, k) <==> SomeRefused(ss', es', k')
  {
    var vs, vs' := Verdicts(ss, es, |es|), Verdicts(ss', es', |es'|);
    var t, t' := TxidOf(Lists(es, k)), TxidOf(Lists(es', k'));
    if d :| d in DpidsOf(es[k].answer) && First(vs, t, d) == Bad {
      assert d in DpidsOf(es'[k'].answer) && First(vs', t', d) == Bad;
    }
    if d :| d in DpidsOf(es'[k'].answer) && First(vs', t', d) == Bad {
      assert d in DpidsOf(es[k].answer) && First(vs, t, d) == Bad;
    }
  }

  /** For a request whose list came, its list reply alone decides what it earns. */
  lemma EarnedByList(ss: seq<State>, es: seq<Event>, k: nat, p: ParamId)
    requires IsRun(ss, es) && k < |es| && es[k].ListReply? && es[k].p == p
    ensures EarnsSuccess(ss, es, p) <==> Asked(ss, es, k) && AllAgreed(ss, es, k)
    ensures EarnsFailure(ss, es, p) <==> !Asked(ss, es, k) || SomeRefused(ss, es, k)
  {
    forall j | 0 <= j < |es| && es[j].ListReply? && es[j].p == p ensures j == k { ReplyIsUnique(ss, es, j, k); }
    ReplyOnRecord(ss, es, k, p);
    ManagerFollowsEvents(ss, es, |es|, p);
    assert p !in ss[|es|].log.managerNo by { RunKeepsInv(ss, es, |es|); }
  }

  lemma FateIsEarned(f: Fate, success: bool, failure: bool, g: Fate)
    requires f != NotAccepted && g != NotAccepted
    requires (f == Reported(Succeeded) <==> success) && (g == Reported(Succeeded) <==> success)
    requires (f == Reported(Failed) <==> failure) && (g == Reported(Failed) <==> failure)
    ensures f == g
  {
    assert f.Reported? ==> f.result == Succeeded || f.result == Failed;
    assert g.Reported? ==> g.result == Succeeded || g.result == Failed;
  }

  /** Two runs in which the same switches gave the same first answers report the same
      result, whatever the order and whatever else happened in them. */
  lemma OrderDoesNotMatter(ss: seq<State>, es: seq<Event>, k: nat, p: ParamId, param: Param,
                           ss': seq<State>, es': seq<Event>, k': nat, p': ParamId, param': Param)
    requires IsRun(ss, es) && k < |es| && es[k].ListReply? && es[k].p == p && Accepted(es, |es|, p, param)
    requires IsRun(ss', es') && k' < |es'| && es'[k'].ListReply? && es'[k'].p == p' && Accepted(es', |es'|, p', param')
    requires SameAnswers(ss, es, k, ss', es', k')
    ensures FateOf(ss[|es|], p) == FateOf(ss'[|es'|], p')
  {
    hide SameAnswers, Asked, AllAgreed, SomeRefused, EarnsSuccess, EarnsFailure, FateOf;
    OutcomeTheorem(ss, es, p, param);
    OutcomeTheorem(ss', es', p', param');
    EarnedByList(ss, es, k, p);
    EarnedByList(ss', es', k', p');
    SameEarnings(ss, es, k, ss', es', k');
    assert Asked(ss, es, k) <==> Asked(ss', es', k') by { SameAsked(ss, es, k, ss', es', k'); }
    FateIsEarned(FateOf(ss[|es|], p), EarnsSuccess(ss, es, p), EarnsFailure(ss, es, p), FateOf(ss'[|es'|], p'));
  }

  lemma SameAsked(ss: seq<State>, es: seq<Event>, k: nat, ss': seq<State>, es': seq<Event>, k': nat)
    requires IsRun(ss, es) && IsRun(ss', es') && k < |es| && k' < |es'| && es[k].ListReply? && es'[k'].ListReply?
    requires SameAnswers(ss, es, k, ss', es', k')
    ensures Asked(ss, es, k) <==> Asked(ss', es', k')
  {
  }

  // ------------------------------------------------------ which answers count as success

  /** The response of a waiting switch: any failure, at the management level or by its result
      byte, ends the request as FAILED; otherwise it ends as SUCCEEDED if it was the last one
      waited for, and goes on if not. */
  lemma ResponseDecides(s: State, i: InfoId, reply: Reply)
    requires Inv(s) && i in s.switchPending && Waits(s, s.infos[i])
    ensures var x, r := s.infos[i], Step(s, Response(i, reply));
      var p := s.table[x.txid].param;
      FateOf(r, p) ==
        if reply.managementFailed || reply.code != 0 then Reported(Failed)
        else if s.table[x.txid].waiting == {x.dpid} then Reported(Succeeded)
        else InFlight
  {
    hide Inv, FateOf, ResponseStep, ResponseAtRest;
    ReadyForResponse(s, i);
    ResponseClosed(s, i, reply);
    ResponseFate(s, i, reply);
  }

  lemma ReadyForResponse(s: State, i: InfoId)
    requires Inv(s) && i in s.switchPending
    ensures NoDangling(s) && AtRest(s) && i in s.infos
  {
  }

  lemma ResponseFate(s: State, i: InfoId, reply: Reply)
    requires NoDangling(s) && i in s.infos && Waits(s, s.infos[i])
    ensures var x, r := s.infos[i], ResponseAtRest(s, i, reply);
      var p := s.table[x.txid].param;
      FateOf(r, p) ==
        if reply.managementFailed || reply.code != 0 then Reported(Failed)
        else if s.table[x.txid].waiting == {x.dpid} then Reported(Succeeded)
        else InFlight
  {
    var x := s.infos[i];
    assert s.table[x.txid].waiting - {x.dpid} == {} <==> s.table[x.txid].waiting == {x.dpid};
  }

  /** The reply of the switch manager: any failure, or a list request that cannot be sent, ends
      the request as FAILED; otherwise the switch list is asked for. */
  lemma ManagerDecides(s: State, p: ParamId, reply: Reply, listSent: bool)
    requires Inv(s) && p in s.managerPending
    ensures var r := Step(s, ManagerReply(p, reply, listSent));
      if reply.managementFailed || reply.code != 0 || !listSent then
        FateOf(r, p) == Reported(Failed) && p !in r.listPending && r.outbox == s.outbox
      else
        && FateOf(r, p) == InFlight && p in r.listPending
        && r.outbox == s.outbox + [Message(p, SwitchList, s.params[p].op)]
  {
  }

  // ------------------------------------------------------ what success is said to mean

  /** What the wrapper's documentation says a successful result means: the switch manager agreed,
      a list of switches was received, and every switch of it agreed. */
  ghost predicate EverySwitchAgreed(ss: seq<State>, es: seq<Event>, p: ParamId)
    requires IsRun(ss, es)
  {
    && ManagerSaid(es, |es|, p, true)
    && exists k :: 0 <= k < |es| && es[k].ListReply? && es[k].p == p && es[k].answer.ListOf? && AllAgreed(ss, es, k)
  }

  /** A list reply that failed is reported as a success at once, with nothing sent to anyone. */
  lemma FailedListIsSuccess(s: State, p: ParamId)
    requires Inv(s) && p in s.listPending && s.dispatched < TXID_MODULUS
    ensures var r := Step(s, ListReply(p, ListFailed));
      && FateOf(r, p) == Reported(Succeeded) && r.outbox == s.outbox
      && r.calls == s.calls + if s.params[p].hasCallback then [Call(p, Succeeded)] else []
  {
  }

  /** A whole run of that kind: one request, accepted by the manager, whose list reply fails. */
  lemma FailedListRun(param: Param)
    requires param.hasCallback
    ensures var es := [Start(param, true), ManagerReply(0, Reply(false, 0), true), ListReply(0, ListFailed)];
      exists ss: seq<State> :: IsRun(ss, es) && ss[3].calls == [Call(0, Succeeded)] && !EverySwitchAgreed(ss, es, 0)
  {
    hide Step, Inv, NoDangling;
    var e1, e2, e3 := Start(param, true), ManagerReply(0, Reply(false, 0), true), ListReply(0, ListFailed);
    StartsFirst(param);
    var s1 := Step(INIT, e1);
    assert IsRun([INIT], []) && [INIT] + [s1] == [INIT, s1] && [] + [e1] == [e1];
    RunCanContinue([INIT], [], e1);
    var s2 := Step(s1, e2);
    RunCanContinue([INIT, s1], [e1], e2);
    assert [INIT, s1] + [s2] == [INIT, s1, s2] && [e1] + [e2] == [e1, e2];
    RunKeepsInv([INIT, s1, s2], [e1, e2], 2);
    var s3 := Step(s2, e3);
    RunCanContinue([INIT, s1, s2], [e1, e2], e3);
    var ss, es := [INIT, s1, s2, s3], [e1, e2, e3];
    assert [INIT, s1, s2] + [s3] == ss && [e1, e2] + [e3] == es;
    FailedListIsSuccess(s2, 0);
    assert [] + [Call(0, Succeeded)] == [Call(0, Succeeded)];
    assert !EverySwitchAgreed(ss, es, 0);
  }

  lemma StartsFirst(param: Param)
    requires param.hasCallback
    ensures NoDangling(INIT) && Inv(INIT) && IsRun([INIT], [])
    ensures var s1 := Step(INIT, Start(param, true));
      && NoDangling(s1) && Enabled(s1, ManagerReply(0, Reply(false, 0), true))
      && var s2 := Step(s1, ManagerReply(0, Reply(false, 0), true));
         && NoDangling(s2) && Enabled(s2, ListReply(0, ListFailed)) && s2.calls == []
         && 0 in s2.params && s2.params[0] == param && s2.dispatched == 0
  {
  }

  /** A request that was reported as a success kept its documented promise, that the manager and
      every switch of the list received had agreed, if and only if its list reply had not failed. */
  lemma SuccessIsKeptIff(ss: seq<State>, es: seq<Event>, p: ParamId, param: Param)
    requires IsRun(ss, es) && Accepted(es, |es|, p, param) && FateOf(ss[|es|], p) == Reported(Succeeded)
    ensures EverySwitchAgreed(ss, es, p) <==> !ListFailedFor(es, |es|, p)
  {
    OutcomeTheorem(ss, es, p, param);
    var k :| 0 <= k < |es| && es[k].ListReply? && es[k].p == p && Asked(ss, es, k) && AllAgreed(ss, es, k);
    ReplyOnRecord(ss, es, k, p);
    ManagerFollowsEvents(ss, es, |es|, p);
    SameKindOfReply(ss, es, k, p);
  }

  /** All list replies of a request failed, or none did: there is only one. */
  lemma SameKindOfReply(ss: seq<State>, es: seq<Event>, k: nat, p: ParamId)
    requires IsRun(ss, es) && k < |es| && es[k].ListReply? && es[k].p == p
    ensures ListFailedFor(es, |es|, p) <==> es[k].answer.ListFailed?
    ensures forall j :: 0 <= j < |es| && es[j].ListReply? && es[j].p == p ==>
          es[j].answer.ListOf? == es[k].answer.ListOf?
  {
    forall j | 0 <= j < |es| && es[j].ListReply? && es[j].p == p ensures j == k { ReplyIsUnique(ss, es, j, k); }
    if es[k].answer.ListFailed? { assert es[k] == ListReply(p, ListFailed); }
  }
}
