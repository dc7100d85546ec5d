/**
  How often timers fire, over every history of ticks, whatever the other timers and their
  handlers do.
*/
module TimerRuns {
  import opened Optional
  import opened Timers

  // ------------------------------------------------------ one timer on its own

  /** A timer without the identity of its data object. */
  datatype Clock = Clock(interval: int, rest: int, kind: Kind)

  function ClockOf(t: Timer): Clock {
    Clock(t.interval, t.rest, t.kind)
  }

  /** What the table holds for `h`, if anything. */
  ghost function Look(s: State, h: Handler): Option<Clock> {
    if h in s.table then Some(ClockOf(s.table[h])) else None
  }

  /** The last thing a handler does to timer `h`. */
  function LastFor(calls: seq<Rearm>, h: Handler): Option<Rearm> {
    if calls == [] then None
    else
      var n := |calls| - 1;
      if calls[n].handler == h then Some(calls[n]) else LastFor(calls[..n], h)
  }

  predicate Sweeps(c: Clock) {
    c.rest <= 0 && c.kind == OneShot
  }

  /** One tick as a single timer sees it: what is left of it, and whether it fired.  `own` is
      what its own handler re-arms it to. */
  function TickOne(c: Clock, own: Option<Rearm>): (Option<Clock>, nat) {
    var after := c.(rest := c.rest - 1);
    if after.rest > 0 then (Some(after), 0)
    else if own.Some? then
      var again := Clock(own.value.interval, own.value.interval, own.value.kind);
      (if Sweeps(again) then None else Some(again), 1)
    else if c.kind == Periodic then (Some(c.(rest := c.interval)), 1)
    else if c.kind == OneShot then (None, 1)
    else (Some(after), 1)
  }

  ghost predicate Leaves(calls: seq<Rearm>, h: Handler) {
    forall k :: 0 <= k < |calls| ==> calls[k].handler != h
  }

  /** Only its own handler may re-arm `h` in this tick. */
  ghost predicate Undisturbed(script: Script, h: Handler) {
    forall g :: g in script && g != h ==> Leaves(script[g], h)
  }

  // ------------------------------------------------- projecting a tick onto one timer

  lemma {:induction false} RunHandlerSeen(s: State, calls: seq<Rearm>, h: Handler)
    requires h in s.table && s.table[h].id < s.nextId
    ensures var r := RunHandler(s, calls);
      && r.fired == s.fired && s.nextId <= r.nextId
      && r.table[h].id < r.nextId
      && (LastFor(calls, h) == None ==> r.table[h] == s.table[h])
      && (LastFor(calls, h).Some? ==>
            var c := LastFor(calls, h).value;
            r.table[h].id >= s.nextId && ClockOf(r.table[h]) == Clock(c.interval, c.interval, c.kind))
    decreases |calls|
  {
    if calls != [] {
      RunHandlerSeen(s, calls[..|calls| - 1], h);
    }
  }

  lemma {:induction false} LeavesNone(calls: seq<Rearm>, h: Handler)
    requires Leaves(calls, h)
    ensures LastFor(calls, h) == None
    decreases |calls|
  {
    if calls != [] { LeavesNone(calls[..|calls| - 1], h); }
  }

  /** The turn of another timer does not matter. */
  lemma VisitOther(s: State, g: Handler, script: Script, h: Handler)
    requires g in s.table && h in s.table && g != h && Undisturbed(script, h)
    requires s.table[h].id < s.nextId && s.table[g].id < s.nextId
    ensures var r := Visit(s, g, script);
      && r.table[h] == s.table[h] && multiset(r.fired)[h] == multiset(s.fired)[h]
      && s.nextId <= r.nextId
  {
    var data := s.table[g].(rest := s.table[g].rest - 1);
    var s1 := s.(table := s.table[g := data]);
    if data.rest <= 0 {
      var s2 := s1.(fired := s1.fired + [g]);
      assert Leaves(Calls(script, g), h);
      LeavesNone(Calls(script, g), h);
      RunHandlerSeen(s2, Calls(script, g), h);
      RunHandlerSeen(s2, Calls(script, g), g);
    }
  }

  /** What a turn leaves in the table before the sweep. */
  function TurnOne(c: Clock, own: Option<Rearm>): (Clock, nat) {
    var after := c.(rest := c.rest - 1);
    if after.rest > 0 then (after, 0)
    else if own.Some? then (Clock(own.value.interval, own.value.interval, own.value.kind), 1)
    else if c.kind == Periodic then (c.(rest := c.interval), 1)
    else (after, 1)
  }

  lemma VisitSelf(s: State, h: Handler, script: Script)
    requires h in s.table && s.table[h].id < s.nextId
    ensures var r := Visit(s, h, script);
      var (c, n) := TurnOne(ClockOf(s.table[h]), LastFor(Calls(script, h), h));
      && ClockOf(r.table[h]) == c && multiset(r.fired)[h] == multiset(s.fired)[h] + n
      && r.table[h].id < r.nextId && s.nextId <= r.nextId
  {
    var data := s.table[h].(rest := s.table[h].rest - 1);
    var s1 := s.(table := s.table[h := data]);
    if data.rest <= 0 {
      RunHandlerSeen(s1.(fired := s1.fired + [h]), Calls(script, h), h);
    }
  }

  // ---------------------------------------------------- the table stays in order

  lemma {:induction false} RunHandlerKeeps(s: State, calls: seq<Rearm>)
    requires Valid(s) && forall k :: 0 <= k < |calls| ==> calls[k].handler in s.table
    ensures var r := RunHandler(s, calls);
      Valid(r) && r.order == s.order && r.table.Keys == s.table.Keys
    decreases |calls|
  {
    if calls != [] {
      RunHandlerKeeps(s, calls[..|calls| - 1]);
    }
  }

  /** Writing data of a known identity over a timer keeps the table in order. */
  lemma OverwriteKeeps(s: State, h: Handler, data: Timer)
    requires Valid(s) && h in s.table && data.id < s.nextId
    ensures Valid(s.(table := s.table[h := data]))
    ensures s.table[h := data].Keys == s.table.Keys
  {
  }

  lemma FiredKeeps(s: State, fired: seq<Handler>)
    requires Valid(s)
    ensures Valid(s.(fired := fired))
  {
  }

  lemma VisitKeeps(s: State, h: Handler, script: Script)
    requires Valid(s) && LegalScript(s, script) && h in s.table
    ensures var r := Visit(s, h, script);
      Valid(r) && LegalScript(r, script) && r.order == s.order && r.table.Keys == s.table.Keys
  {
    IdsAreOld(s, h);
    hide Valid;
    var data := s.table[h].(rest := s.table[h].rest - 1);
    var s1 := s.(table := s.table[h := data]);
    OverwriteKeeps(s, h, data);
    if data.rest <= 0 {
      var s2 := s1.(fired := s1.fired + [h]);
      FiredKeeps(s1, s1.fired + [h]);
      RunHandlerKeeps(s2, Calls(script, h));
      var s3 := RunHandler(s2, Calls(script, h));
      IdsAreOld(s3, h);
      if s3.table[h].id == data.id { OverwriteKeeps(s3, h, data.(rest := data.interval)); }
    }
  }

  lemma {:induction false} VisitAllKeeps(s: State, hs: seq<Handler>, script: Script)
    requires Valid(s) && LegalScript(s, script) && forall h :: h in hs ==> h in s.table
    ensures var r := VisitAll(s, hs, script);
      Valid(r) && LegalScript(r, script) && r.order == s.order && r.table.Keys == s.table.Keys
    decreases |hs|
  {
    if hs != [] {
      var n := |hs| - 1;
      VisitAllKeeps(s, hs[..n], script);
      VisitKeeps(VisitAll(s, hs[..n], script), hs[n], script);
    }
  }

  lemma IdsAreOld(s: State, h: Handler)
    requires Valid(s) && h in s.table
    ensures s.table[h].id < s.nextId
  {
  }

  /** After the turns `hs`, timer `h` has had its turn if it is among them. */
  lemma {:induction false} VisitAllSeen(s: State, hs: seq<Handler>, script: Script, h: Handler)
    requires Valid(s) && LegalScript(s, script) && h in s.table && Undisturbed(script, h)
    requires (forall g :: g in hs ==> g in s.table) && (forall i, j :: 0 <= i < j < |hs| ==> hs[i] != hs[j])
    ensures h in VisitAll(s, hs, script).table
    ensures var r := VisitAll(s, hs, script);
      var (c, n) := TurnOne(ClockOf(s.table[h]), LastFor(Calls(script, h), h));
      if h in hs then ClockOf(r.table[h]) == c && multiset(r.fired)[h] == multiset(s.fired)[h] + n
      else r.table[h] == s.table[h] && multiset(r.fired)[h] == multiset(s.fired)[h]
    decreases |hs|
  {
    hide Valid, LegalScript, Visit, TurnOne, Calls, LastFor, Undisturbed;
    if hs != [] {
      var n := |hs| - 1;
      var m := VisitAll(s, hs[..n], script);
      VisitAllSeen(s, hs[..n], script, h);
      VisitAllKeeps(s, hs[..n], script);
      assert hs == hs[..n] + [hs[n]];
      IdsAreOld(m, h);
      IdsAreOld(m, hs[n]);
      if hs[n] == h {
        assert h !in hs[..n];
        VisitSelf(m, h, script);
      } else {
        VisitOther(m, hs[n], script, h);
      }
    }
  }

  lemma {:induction false} KeptLists(order: seq<Handler>, table: map<Handler, Timer>)
    requires forall i, j :: 0 <= i < j < |order| ==> order[i] != order[j]
    ensures var k := Kept(order, table);
      && (forall h :: h in k <==> h in order && !(h in table && Spent(table[h])))
      && (forall i, j :: 0 <= i < j < |k| ==> k[i] != k[j])
    decreases |order|
  {
    if order != [] {
      var n := |order| - 1;
      KeptLists(order[..n], table);
      assert order == order[..n] + [order[n]];
    }
  }

  lemma SweepKeeps(s: State)
    requires Valid(s)
    ensures Valid(Sweep(s))
  {
    KeptLists(s.order, s.table);
  }

  /** A tick as timer `h` sees it is `TickOne`, whatever else is in the table. */
  lemma TickSeen(s: State, script: Script, h: Handler)
    requires Valid(s) && LegalScript(s, script) && h in s.table && Undisturbed(script, h)
    ensures Valid(FireEvent(s, script))
    ensures var r := FireEvent(s, script);
      var (left, n) := TickOne(ClockOf(s.table[h]), LastFor(Calls(script, h), h));
      Look(r, h) == left && multiset(r.fired)[h] == multiset(s.fired)[h] + n
  {
    hide VisitAll, LegalScript, Calls, LastFor, Undisturbed;
    VisitAllSeen(s, s.order, script, h);
    VisitAllKeeps(s, s.order, script);
    SweepKeeps(VisitAll(s, s.order, script));
    assert h in s.order;
  }

  lemma VisitFired(s: State, g: Handler, script: Script)
    requires g in s.table
    ensures var r := Visit(s, g, script); r.fired == s.fired || r.fired == s.fired + [g]
  {
    var data := s.table[g].(rest := s.table[g].rest - 1);
    RunHandlerFired(s.(table := s.table[g := data], fired := s.fired + [g]), Calls(script, g));
  }

  /** A timer that is not in the table does not fire. */
  lemma {:induction false} AbsentStaysSilent(s: State, hs: seq<Handler>, script: Script, h: Handler)
    requires Valid(s) && LegalScript(s, script) && h !in s.table && forall g :: g in hs ==> g in s.table
    ensures var r := VisitAll(s, hs, script);
      h !in r.table && multiset(r.fired)[h] == multiset(s.fired)[h]
    decreases |hs|
  {
    hide Visit, Valid, LegalScript;
    if hs != [] {
      var n := |hs| - 1;
      AbsentStaysSilent(s, hs[..n], script, h);
      VisitAllKeeps(s, hs[..n], script);
      var m := VisitAll(s, hs[..n], script);
      VisitKeeps(m, hs[n], script);
      VisitFired(m, hs[n], script);
    }
  }

  lemma {:induction false} RunHandlerFired(s: State, calls: seq<Rearm>)
    ensures RunHandler(s, calls).fired == s.fired
    decreases |calls|
  {
    if calls != [] { RunHandlerFired(s, calls[..|calls| - 1]); }
  }

  // --------------------------------------------------------------- whole histories

  datatype Event = Tick(script: Script) | Arm(handler: Handler, interval: int, kind: Kind)

  ghost predicate Allowed(s: State, e: Event) {
    Valid(s) && (e.Tick? ==> LegalScript(s, e.script))
  }

  ghost function Next(s: State, e: Event): State
    requires Allowed(s, e)
  {
    match e
    case Tick(script) => FireEvent(s, script)
    case Arm(h, interval, kind) => AddTimer(s, h, interval, kind)
  }

  ghost predicate IsRun(ss: seq<State>, es: seq<Event>) {
    && |ss| == |es| + 1
    && forall k :: 0 <= k < |es| ==> Allowed(ss[k], es[k]) && ss[k + 1] == Next(ss[k], es[k])
  }

  /** The table stays in order whatever happens, so every history can go on. */
  lemma NextKeepsValid(s: State, e: Event)
    requires Allowed(s, e)
    ensures Valid(Next(s, e))
  {
    match e
    case Tick(script) =>
      hide VisitAll, Sweep, Valid;
      InOrder(s);
      VisitAllKeeps(s, s.order, script);
      SweepKeeps(VisitAll(s, s.order, script));
    case Arm(h, interval, kind) =>
  }

  lemma InOrder(s: State)
    requires Valid(s)
    ensures forall h :: h in s.order ==> h in s.table
  {
  }

  /** Nobody but its own handler arms `h`, and that always does the same. */
  ghost predicate OnlyOwn(es: seq<Event>, h: Handler, own: Option<Rearm>) {
    forall k :: 0 <= k < |es| ==>
      match es[k]
      case Tick(script) => Undisturbed(script, h) && LastFor(Calls(script, h), h) == own
      case Arm(g, _, _) => g != h
  }

  ghost function Ticks(es: seq<Event>): nat {
    if es == [] then 0
    else Ticks(es[..|es| - 1]) + if es[|es| - 1].Tick? then 1 else 0
  }

  /** `t` ticks on a single timer. */
  ghost function Iterate(c: Clock, own: Option<Rearm>, t: nat): (Option<Clock>, nat) {
    if t == 0 then (Some(c), 0)
    else
      var (before, n) := Iterate(c, own, t - 1);
      if before.None? then (None, n)
      else
        var (after, f) := TickOne(before.value, own);
        (after, n + f)
  }

  /** `s` is what `Iterate` says about timer `h`, counting from `f0` firings. */
  ghost predicate SeenAs(s: State, h: Handler, c: Clock, own: Option<Rearm>, t: nat, f0: nat) {
    var (left, n) := Iterate(c, own, t);
    Look(s, h) == left && multiset(s.fired)[h] == f0 + n
  }

  lemma TickSeenAs(s: State, script: Script, h: Handler, c: Clock, own: Option<Rearm>, t: nat, f0: nat)
    requires Valid(s) && LegalScript(s, script) && Undisturbed(script, h) && LastFor(Calls(script, h), h) == own
    requires SeenAs(s, h, c, own, t, f0)
    ensures SeenAs(FireEvent(s, script), h, c, own, t + 1, f0)
  {
    hide Undisturbed, LegalScript, LastFor, TickOne, VisitAll;
    if h in s.table {
      hide FireEvent;
      TickSeen(s, script, h);
    } else {
      AbsentStaysSilent(s, s.order, script, h);
    }
  }

  /** Whatever the history, only the ticks matter. */
  lemma {:induction false} RunSeen(ss: seq<State>, es: seq<Event>, h: Handler, c: Clock, own: Option<Rearm>, f0: nat)
    requires IsRun(ss, es) && OnlyOwn(es, h, own)
    requires Look(ss[0], h) == Some(c) && multiset(ss[0].fired)[h] == f0
    ensures SeenAs(ss[|es|], h, c, own, Ticks(es), f0)
    decreases |es|
  {
    hide FireEvent, Undisturbed, LegalScript, Valid, LastFor, TickOne;
    if es != [] {
      var n := |es| - 1;
      RunSeen(ss[..n + 1], es[..n], h, c, own, f0);
      assert ss[..n + 1][n] == ss[n];
      if es[n].Tick? {
        TickSeenAs(ss[n], es[n].script, h, c, own, Ticks(es[..n]), f0);
      }
    }
  }

  // ------------------------------------------------------------- counting firings

  /** An interval below one behaves like one. */
  function Period(n: int): nat {
    if n < 1 then 1 else n
  }

  lemma MulAtLeast(k: int, m: int, n: nat)
    requires k >= m
    ensures k * n >= m * n
  {
  }

  lemma QuotientDiff(q: int, q': int, n: nat)
    ensures q' * n - q * n == (q' - q) * n
  {
  }

  lemma DivStep(t: nat, n: nat)
    requires n > 0
    ensures if t % n == n - 1 then (t + 1) / n == t / n + 1 && (t + 1) % n == 0
            else (t + 1) / n == t / n && (t + 1) % n == t % n + 1
  {
    var q, r, q', r' := t / n, t % n, (t + 1) / n, (t + 1) % n;
    assert t == q * n + r && t + 1 == q' * n + r';
    QuotientDiff(q, q', n);
    var k := q' - q;
    assert k * n == 1 + r - r';
    if k >= 2 {
      MulAtLeast(k, 2, n);
    } else if k <= -1 {
      MulAtLeast(-1, k, n);
    } else {
      assert k == 0 || k == 1;
    }
  }

  /** A periodic timer, or a one-shot that its handler re-arms each time, fires every n ticks. */
  lemma {:induction false} Repeating(n: int, t: nat, c: Clock, own: Option<Rearm>)
    requires n >= 1 && c == Clock(n, n, c.kind)
    requires (c.kind == Periodic && own == None)
          || (own.Some? && own.value.interval == n && own.value.kind == c.kind)
    ensures Iterate(c, own, t) == (Some(c.(rest := n - t % n)), t / n)
  {
    if t > 0 {
      Repeating(n, t - 1, c, own);
      DivStep(t - 1, n);
    }
  }

  lemma {:induction false} EveryTick(n: int, t: nat)
    requires n < 1
    ensures Iterate(Clock(n, n, Periodic), None, t) == (Some(Clock(n, n, Periodic)), t)
  {
    if t > 0 { EveryTick(n, t - 1); }
  }

  lemma {:induction false} Once(n: int, t: nat)
    ensures Iterate(Clock(n, n, OneShot), None, t) ==
            (if t < Period(n) then Some(Clock(n, n - t, OneShot)) else None, if t < Period(n) then 0 else 1)
  {
    if t > 0 { Once(n, t - 1); }
  }

  /** Timer `h` was just armed in `s`. */
  ghost predicate JustArmed(s: State, h: Handler, interval: int, kind: Kind) {
    Look(s, h) == Some(Clock(interval, interval, kind))
  }

  /** Arming a timer gives it its whole interval, new or not; every other timer, and what has
      fired, stays; and a new one comes last in the order of iteration. */
  lemma ArmMeans(s: State, h: Handler, n: int, kind: Kind)
    ensures var r := AddTimer(s, h, n, kind);
      && JustArmed(r, h, n, kind)
      && (forall g :: g != h ==> (g in r.table <==> g in s.table))
      && (forall g :: g != h && g in s.table ==> r.table[g] == s.table[g])
      && r.fired == s.fired
      && r.order == if h in s.table then s.order else s.order + [h]
  {
  }

  /** What follows the first event is a history of its own. */
  lemma AfterArming(ss: seq<State>, es: seq<Event>, h: Handler, n: int, kind: Kind)
    requires IsRun(ss, es) && es != [] && es[0] == Arm(h, n, kind)
    ensures IsRun(ss[1..], es[1..]) && JustArmed(ss[1], h, n, kind) && ss[1].fired == ss[0].fired
    ensures ss[1..][|es[1..]|] == ss[|es|]
  {
    hide FireEvent, LegalScript, Valid;
    assert ss[1] == Next(ss[0], es[0]);
    ArmMeans(ss[0], h, n, kind);
    forall k | 0 <= k < |es| - 1
      ensures Allowed(ss[1..][k], es[1..][k]) && ss[1..][k + 1] == Next(ss[1..][k], es[1..][k])
    {
      assert ss[1..][k] == ss[k + 1] && es[1..][k] == es[k + 1] && ss[1..][k + 1] == ss[k + 2];
    }
  }

  /** How often `h` fired over a history. */
  ghost function Firings(ss: seq<State>, es: seq<Event>, h: Handler): int
    requires |ss| == |es| + 1
  {
    multiset(ss[|es|].fired)[h] as int - multiset(ss[0].fired)[h] as int
  }

  /** From any table: a periodic timer that is armed and then left alone has fired floor(t/n)
      times after t ticks and is still there. */
  lemma PeriodicTheorem(ss: seq<State>, es: seq<Event>, h: Handler, n: int)
    requires IsRun(ss, es) && es != [] && es[0] == Arm(h, n, Periodic) && OnlyOwn(es[1..], h, None)
    ensures h in ss[|es|].table
    ensures Firings(ss, es, h) == Ticks(es[1..]) / Period(n)
  {
    hide OnlyOwn;
    AfterArming(ss, es, h, n, Periodic);
    RunSeen(ss[1..], es[1..], h, Clock(n, n, Periodic), None, multiset(ss[0].fired)[h]);
    if n < 1 {
      EveryTick(n, Ticks(es[1..]));
    } else {
      Repeating(n, Ticks(es[1..]), Clock(n, n, Periodic), None);
    }
  }

  /** From any table: a one-shot that is armed and then left alone fires exactly once, at tick n,
      and is then absent. */
  lemma OneShotTheorem(ss: seq<State>, es: seq<Event>, h: Handler, n: int)
    requires IsRun(ss, es) && es != [] && es[0] == Arm(h, n, OneShot) && OnlyOwn(es[1..], h, None)
    ensures h in ss[|es|].table <==> Ticks(es[1..]) < Period(n)
    ensures Firings(ss, es, h) == if Ticks(es[1..]) < Period(n) then 0 else 1
  {
    hide OnlyOwn;
    AfterArming(ss, es, h, n, OneShot);
    RunSeen(ss[1..], es[1..], h, Clock(n, n, OneShot), None, multiset(ss[0].fired)[h]);
    Once(n, Ticks(es[1..]));
  }

  /** A one-shot that its own handler re-arms survives the sweep of the tick it fires in, and
      so fires every n ticks for ever. */
  lemma RearmedOneShotTheorem(ss: seq<State>, es: seq<Event>, h: Handler, n: int, call: Rearm)
    requires n >= 1 && call == Rearm(h, n, OneShot)
    requires IsRun(ss, es) && es != [] && es[0] == Arm(h, n, OneShot) && OnlyOwn(es[1..], h, Some(call))
    ensures h in ss[|es|].table
    ensures Firings(ss, es, h) == Ticks(es[1..]) / n
  {
    hide OnlyOwn;
    AfterArming(ss, es, h, n, OneShot);
    RunSeen(ss[1..], es[1..], h, Clock(n, n, OneShot), Some(call), multiset(ss[0].fired)[h]);
    Repeating(n, Ticks(es[1..]), Clock(n, n, OneShot), Some(call));
  }

  // ------------------------------------------------------------- order in a tick

  /** The timers that are due, in order of iteration. */
  ghost function Due(order: seq<Handler>, table: map<Handler, Timer>): seq<Handler> {
    if order == [] then []
    else
      var n := |order| - 1;
      var before := Due(order[..n], table);
      if order[n] in table && table[order[n]].rest <= 1 then before + [order[n]] else before
  }

  /** Every handler re-arms at most itself. */
  ghost predicate MindsItself(script: Script) {
    forall g, k :: g in script && 0 <= k < |script[g]| ==> script[g][k].handler == g
  }

  lemma MindedIsUndisturbed(script: Script, h: Handler)
    requires MindsItself(script)
    ensures Undisturbed(script, h)
  {
  }

  lemma TurnFires(s: State, h: Handler, script: Script)
    requires h in s.table
    ensures Visit(s, h, script).fired == s.fired + if s.table[h].rest <= 1 then [h] else []
  {
    var data := s.table[h].(rest := s.table[h].rest - 1);
    RunHandlerFired(s.(table := s.table[h := data], fired := s.fired + [h]), Calls(script, h));
  }

  lemma {:induction false} TurnsFireInOrder(s: State, hs: seq<Handler>, script: Script)
    requires Valid(s) && LegalScript(s, script) && MindsItself(script)
    requires (forall g :: g in hs ==> g in s.table) && (forall i, j :: 0 <= i < j < |hs| ==> hs[i] != hs[j])
    ensures VisitAll(s, hs, script).fired == s.fired + Due(hs, s.table)
    decreases |hs|
  {
    hide Valid, LegalScript, Visit, TurnOne, Calls, LastFor, Undisturbed, MindsItself;
    if hs != [] {
      var n := |hs| - 1;
      var h, m := hs[n], VisitAll(s, hs[..n], script);
      TurnsFireInOrder(s, hs[..n], script);
      MindedIsUndisturbed(script, h);
      VisitAllSeen(s, hs[..n], script, h);
      assert h !in hs[..n];
      TurnFires(m, h, script);
    }
  }

  /** In one tick the timers that are due fire once each, in the order in which they were added. */
  lemma TickFiresInOrder(s: State, script: Script)
    requires Valid(s) && LegalScript(s, script) && MindsItself(script)
    ensures FireEvent(s, script).fired == s.fired + Due(s.order, s.table)
  {
    TurnsFireInOrder(s, s.order, script);
  }

  /** The sweep drops the spent one-shots and keeps the others in their order. */
  lemma {:induction false} SweepKeepsOrder(a: seq<Handler>, b: seq<Handler>, table: map<Handler, Timer>)
    ensures Kept(a + b, table) == Kept(a, table) + Kept(b, table)
    decreases |b|
  {
    if b == [] {
      assert a + b == a;
    } else {
      var n := |b| - 1;
      assert (a + b)[..|a| + n] == a + b[..n];
      SweepKeepsOrder(a, b[..n], table);
    }
  }
}
