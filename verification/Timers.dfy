/**
  The tick-driven timer table of ruby/trema/timers.rb.  A handler runs inside the iteration
  over the table and may itself re-arm timers; the hash then holds a new data object while
  the iteration still holds the old one, so every data object carries an identity here.
*/
module Timers {

  type Handler = string

  datatype Kind = Periodic | OneShot | Other

  datatype Timer = Timer(id: nat, interval: int, rest: int, kind: Kind)

  /** A call of add_timer from inside a handler. */
  datatype Rearm = Rearm(handler: Handler, interval: int, kind: Kind)

  /** What each handler does with timers when it runs. */
  type Script = map<Handler, seq<Rearm>>

  datatype State = State(order: seq<Handler>, table: map<Handler, Timer>, nextId: nat, fired: seq<Handler>)

  const INIT: State := State([], map[], 0, [])

  function Calls(script: Script, h: Handler): seq<Rearm> {
    if h in script then script[h] else []
  }

  // -------------------------------------------------------------------- steps

  function AddTimer(s: State, h: Handler, interval: int, kind: Kind): State {
    s.(order := if h in s.table then s.order else s.order + [h],
       table := s.table[h := Timer(s.nextId, interval, interval, kind)],
       nextId := s.nextId + 1)
  }

  function RunHandler(s: State, calls: seq<Rearm>): (r: State)
    ensures s.table.Keys <= r.table.Keys
    decreases |calls|
  {
    if calls == [] then s
    else
      var n := |calls| - 1;
      var c := calls[n];
      AddTimer(RunHandler(s, calls[..n]), c.handler, c.interval, c.kind)
  }

  /** One turn of the loop over the table. */
  function Visit(s: State, h: Handler, script: Script): (r: State)
    requires h in s.table
    ensures s.table.Keys <= r.table.Keys
  {
    var data := s.table[h].(rest := s.table[h].rest - 1);
    var s1 := s.(table := s.table[h := data]);
    if data.rest > 0 then s1
    else
      var s2 := RunHandler(s1.(fired := s1.fired + [h]), Calls(script, h));
      if data.kind == Periodic && s2.table[h].id == data.id then
        s2.(table := s2.table[h := data.(rest := data.interval)])
      else s2
  }

  function VisitAll(s: State, hs: seq<Handler>, script: Script): (r: State)
    requires forall h :: h in hs ==> h in s.table
    ensures s.table.Keys <= r.table.Keys
    decreases |hs|
  {
    if hs == [] then s
    else
      var n := |hs| - 1;
      Visit(VisitAll(s, hs[..n], script), hs[n], script)
  }

  predicate Spent(t: Timer) {
    t.rest <= 0 && t.kind == OneShot
  }

  function Kept(order: seq<Handler>, table: map<Handler, Timer>): seq<Handler> {
    if order == [] then []
    else
      var n := |order| - 1;
      if order[n] in table && Spent(table[order[n]]) then Kept(order[..n], table)
      else Kept(order[..n], table) + [order[n]]
  }

  function Sweep(s: State): State {
    s.(order := Kept(s.order, s.table),
       table := map h | h in s.table && !Spent(s.table[h]) :: s.table[h])
  }

  /** A hash refuses new keys while it is iterated, so handlers may only re-arm timers that
      are in the table. */
  predicate LegalScript(s: State, script: Script) {
    forall h, k :: h in script && 0 <= k < |script[h]| ==> script[h][k].handler in s.table
  }

  function FireEvent(s: State, script: Script): State
    requires forall h :: h in s.order ==> h in s.table
  {
    Sweep(VisitAll(s, s.order, script))
  }

  /** The iteration order lists every timer once. */
  ghost predicate Valid(s: State) {
    && (forall h :: h in s.table <==> h in s.order)
    && (forall i, j :: 0 <= i < j < |s.order| ==> s.order[i] != s.order[j])
    && (forall h :: h in s.table ==> s.table[h].id < s.nextId)
  }

  // ------------------------------------------------------------- the real thing

  class TimerTable {
    var order: seq<Handler>
    var table: map<Handler, Timer>
    var nextId: nat
    var fired: seq<Handler>

    ghost function Abs(): State
      reads this
    {
      State(order, table, nextId, fired)
    }

    constructor ()
      ensures Abs() == INIT
    {
      order, table, nextId, fired := [], map[], 0, [];
    }

    method Add(h: Handler, interval: int, kind: Kind)
      modifies this
      ensures Abs() == AddTimer(old(Abs()), h, interval, kind)
    {
      if h !in table {
        order := order + [h];
      }
      table := table[h := Timer(nextId, interval, interval, kind)];
      nextId := nextId + 1;
    }

    method Run(calls: seq<Rearm>)
      modifies this
      ensures Abs() == RunHandler(old(Abs()), calls)
    {
      for k := 0 to |calls|
        invariant Abs() == RunHandler(old(Abs()), calls[..k])
      {
        assert calls[..k + 1][..k] == calls[..k];
        Add(calls[k].handler, calls[k].interval, calls[k].kind);
      }
      assert calls[..|calls|] == calls;
    }

    method Step(h: Handler, script: Script)
      requires h in table
      modifies this
      ensures Abs() == Visit(old(Abs()), h, script)
    {
      var data := table[h].(rest := table[h].rest - 1);
      table := table[h := data];
      if data.rest <= 0 {
        fired := fired + [h];
        Run(Calls(script, h));
        if data.kind == Periodic && table[h].id == data.id {
          table := table[h := data.(rest := data.interval)];
        }
      }
    }

    method Fire(script: Script)
      requires forall h :: h in order ==> h in table
      modifies this
      ensures Abs() == FireEvent(old(Abs()), script)
    {
      var handlers := order;
      for k := 0 to |handlers|
        invariant Abs() == VisitAll(old(Abs()), handlers[..k], script)
      {
        assert handlers[..k + 1][..k] == handlers[..k];
        Step(handlers[k], script);
      }
      assert handlers[..|handlers|] == handlers;
      DeleteSpent();
    }

    method DeleteSpent()
      modifies this
      ensures Abs() == Sweep(old(Abs()))
    {
      var kept := [];
      for k := 0 to |order|
        invariant kept == Kept(order[..k], table)
      {
        assert order[..k + 1][..k] == order[..k];
        if !(order[k] in table && Spent(table[order[k]])) {
          kept := kept + [order[k]];
        }
      }
      assert order[..|order|] == order;
      order, table := kept, map h | h in table && !Spent(table[h]) :: table[h];
    }
  }
}
