/**
  What every step of the all-switches protocol keeps.  The invariant has seven parts,
  each with its own predicate, and one preservation lemma per kind of event.
*/
module EventForwardInvariant {
  import opened EventForwardProtocol

  // ------------------------------------------------- reading the record of a run

  datatype Answer = Silent | Good | Bad

  ghost function AsAnswer(ok: bool): Answer {
    if ok then Good else Bad
  }

  /** The first thing switch `d` did for transaction `t`, if anything. */
  ghost function First(vs: seq<Verdict>, t: Txid, d: Dpid): Answer {
    if vs == [] then Silent
    else
      var n := |vs| - 1;
      var before := First(vs[..n], t, d);
      if before != Silent then before
      else if vs[n].txid == t && vs[n].dpid == d then AsAnswer(vs[n].ok)
      else Silent
  }

  /** Send and timer set-up worked for every distinct dpid of the list. */
  ghost predicate AllSetUp(ds: seq<Dpid>, os: seq<SetUp>)
    requires |ds| == |os|
  {
    forall k :: 0 <= k < |ds| && ds[k] !in ds[..k] ==> os[k] == Armed
  }

  ghost predicate AllAnsweredOk(vs: seq<Verdict>, t: Txid, ds: seq<Dpid>) {
    forall d :: d in ds ==> First(vs, t, d) == Good
  }

  ghost predicate SomeFailed(vs: seq<Verdict>, t: Txid, ds: seq<Dpid>) {
    exists d :: d in ds && First(vs, t, d) == Bad
  }

  // ------------------------------------------------------------- the invariant

  ghost predicate Used(dispatched: nat, t: Txid) {
    (1 <= t <= dispatched && t < TXID_MODULUS) || (t == 0 && dispatched == TXID_MODULUS)
  }

  ghost predicate TimerFor(s: State, d: Dpid, t: Txid) {
    exists i :: i in s.timers && i in s.infos && s.infos[i] == TxInfo(d, t)
  }

  /** Between steps no transaction in the table has failed. */
  ghost predicate AtRest(s: State) {
    forall t :: t in s.table ==> s.table[t].result == Succeeded
  }

  /** A transaction at rest is undecided, waits for someone, and cannot get stuck. */
  ghost predicate TableInv(s: State) {
    && s.dispatched <= TXID_MODULUS
    && (forall t :: t in s.table ==>
          Used(s.dispatched, t) && s.table[t].result == Succeeded && s.table[t].waiting != {})
    && (forall t, d :: t in s.table && d in s.table[t].waiting ==> TimerFor(s, d, t))
  }

  ghost predicate OwnedByTx(s: State, p: ParamId) {
    exists t :: t in s.table && s.table[t].param == p
  }

  /** Every live parameter record has exactly one owner. */
  ghost predicate Ownership(s: State) {
    && NoDangling(s)
    && s.managerPending !! s.listPending
    && (forall t :: t in s.table ==>
          s.table[t].param !in s.managerPending && s.table[t].param !in s.listPending)
    && (forall t, u :: t in s.table && u in s.table && s.table[t].param == s.table[u].param ==> t == u)
    && (forall p :: p in s.params ==> p in s.managerPending || p in s.listPending || OwnedByTx(s, p))
  }

  ghost predicate NoRepeats<T>(xs: seq<T>) {
    forall i, j :: 0 <= i < j < |xs| ==> xs[i] != xs[j]
  }

  /** Records: a txinfo lives exactly as long as its request is unanswered; nothing is
      released twice and nothing released is live. */
  ghost predicate Memory(s: State) {
    && s.infos.Keys == s.switchPending
    && s.timers <= s.switchPending
    && (forall i :: i in s.infos ==> i < s.nextInfo && Used(s.dispatched, s.infos[i].txid))
    && (forall p :: p in s.params ==> p < s.nextParam)
    && NoRepeats(s.freed)
    && (forall p: ParamId :: ParamCell(p) in s.freed ==> p < s.nextParam && p !in s.params)
    && (forall i: InfoId :: InfoCell(i) in s.freed ==> i < s.nextInfo && i !in s.infos)
  }

  /** Each request is refused, in flight, or reported. */
  ghost predicate Accounting(s: State) {
    var l := s.log;
    && (forall p :: p in l.accepted ==> p < s.nextParam && p !in l.refused)
    && (forall p :: p in l.refused ==> p < s.nextParam)
    && (forall p :: p in s.params ==> p in l.accepted && l.accepted[p] == s.params[p])
    && (forall p :: p in l.outcome ==> p in l.accepted && p !in s.params)
    && (forall p :: p in l.accepted ==> p in s.params || p in l.outcome)
  }

  /** A request is dispatched at most once, and one that was never dispatched can only
      be reported because the switch manager stage failed. */
  ghost predicate Dispatching(s: State) {
    var l := s.log;
    && (forall p :: p in l.txOf ==> p in l.accepted && l.txOf[p] in l.dispatches && l.dispatches[l.txOf[p]].param == p)
    && (forall t :: t in l.dispatches ==> l.dispatches[t].param in l.txOf && l.txOf[l.dispatches[t].param] == t)
    && (forall p :: p in s.managerPending || p in s.listPending ==> p !in l.txOf)
    && (forall p :: p in l.managerNo ==> p !in l.txOf && p in l.outcome && l.outcome[p] == Failed)
    && (forall p :: p in l.outcome ==> p in l.managerNo || p in l.txOf)
  }

  /** The user callback is called once per reported request that gave one. */
  ghost predicate CallsInv(s: State) {
    && (forall i, j :: 0 <= i < j < |s.calls| ==> s.calls[i].param != s.calls[j].param)
    && (forall p: ParamId, r :: Call(p, r) in s.calls <==>
          p in s.log.outcome && s.log.outcome[p] == r
          && p in s.log.accepted && s.log.accepted[p].hasCallback)
  }

  /** A transaction in the table is exactly an undecided one, one that left it was decided
      by the first event of each switch. */
  ghost predicate DecidedBy(s: State, t: Txid)
    requires t in s.log.dispatches
  {
    var dispatch := s.log.dispatches[t];
    var vs := s.log.verdicts;
    && |dispatch.dpids| == |dispatch.setUps|
    && if t in s.table then
         && s.table[t].param == dispatch.param
         && AllSetUp(dispatch.dpids, dispatch.setUps)
         && (forall d :: d in s.table[t].waiting <==> d in dispatch.dpids && First(vs, t, d) == Silent)
         && !SomeFailed(vs, t, dispatch.dpids)
       else
         && dispatch.param in s.log.outcome
         && (s.log.outcome[dispatch.param] == Succeeded <==>
               AllSetUp(dispatch.dpids, dispatch.setUps) && AllAnsweredOk(vs, t, dispatch.dpids))
         && (s.log.outcome[dispatch.param] == Failed <==>
               !AllSetUp(dispatch.dpids, dispatch.setUps) || SomeFailed(vs, t, dispatch.dpids))
  }

  ghost predicate Decisions(s: State) {
    && (forall t :: t in s.table ==> t in s.log.dispatches)
    && (forall t :: t in s.log.dispatches ==> Used(s.dispatched, t) && DecidedBy(s, t))
    && (forall k :: 0 <= k < |s.log.verdicts| ==> Used(s.dispatched, s.log.verdicts[k].txid))
  }

  ghost predicate Inv(s: State) {
    TableInv(s) && Ownership(s) && Memory(s) && Accounting(s) && Dispatching(s) && CallsInv(s) && Decisions(s)
  }

  // -------------------------------------------------------------- small lemmas

  lemma {:induction false} FirstIsEarliest(vs: seq<Verdict>, t: Txid, d: Dpid)
    ensures First(vs, t, d) == Silent <==>
              forall k :: 0 <= k < |vs| ==> vs[k].txid != t || vs[k].dpid != d
    ensures forall b :: First(vs, t, d) == AsAnswer(b) <==>
              exists k :: 0 <= k < |vs| && vs[k] == Verdict(t, d, b)
                && forall j :: 0 <= j < k ==> vs[j].txid != t || vs[j].dpid != d
  {
    if vs != [] {
      var n := |vs| - 1;
      var pre := vs[..n];
      FirstIsEarliest(pre, t, d);
      assert forall k :: 0 <= k < n ==> pre[k] == vs[k];
      forall b
        ensures First(vs, t, d) == AsAnswer(b) <==>
              exists k :: 0 <= k < |vs| && vs[k] == Verdict(t, d, b)
                && forall j :: 0 <= j < k ==> vs[j].txid != t || vs[j].dpid != d
      {
        if First(pre, t, d) == AsAnswer(b) {
          var k :| 0 <= k < |pre| && pre[k] == Verdict(t, d, b)
                && forall j :: 0 <= j < k ==> pre[j].txid != t || pre[j].dpid != d;
          assert vs[k] == Verdict(t, d, b);
        }
      }
    }
  }

  /** Appending an event changes no decided answer and only one undecided one. */
  lemma FirstAppend(vs: seq<Verdict>, v: Verdict, t: Txid, d: Dpid)
    ensures First(vs + [v], t, d) ==
              if First(vs, t, d) != Silent then First(vs, t, d)
              else if v.txid == t && v.dpid == d then AsAnswer(v.ok) else Silent
  {
    assert (vs + [v])[..|vs|] == vs;
  }

  lemma {:induction false} FirstOfUnused(vs: seq<Verdict>, t: Txid, d: Dpid)
    requires forall k :: 0 <= k < |vs| ==> vs[k].txid != t
    ensures First(vs, t, d) == Silent
  {
    FirstIsEarliest(vs, t, d);
  }

  lemma NewTxid(n: nat)
    requires n < TXID_MODULUS
    ensures Used(n + 1, TxidOf(n)) && !Used(n, TxidOf(n))
    ensures forall t :: Used(n, t) ==> Used(n + 1, t)
  {
  }
}
