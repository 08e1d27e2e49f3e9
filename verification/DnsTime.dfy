/** How long an unanswered query lives. */
module DnsTime {
  import opened NoDuplicates
  import opened DnsState

  /** (r + 1) + (r + 2) + ... + (most - 1). */
  function SumFrom(r: nat, most: nat): nat
    decreases most - r
  {
    if r + 1 >= most then 0 else r + 1 + SumFrom(r + 1, most)
  }

  /** Ticks a server is given. */
  function PerServer(most: nat): nat { 1 + SumFrom(0, most) }

  lemma {:induction false} SumIs(r: nat, most: nat)
    requires r < most
    ensures 2 * SumFrom(r, most) == most * (most - 1) - r * (r + 1)
    decreases most - r
  {
    if r + 1 < most { SumIs(r + 1, most); }
  }

  /** 1 + R(R-1)/2 ticks per server: seven for four retries. */
  lemma PerServerIs(most: nat)
    requires most > 0
    ensures PerServer(most) == 1 + most * (most - 1) / 2 && PerServer(4) == 7
  {
    SumIs(0, most);
    SumIs(0, 4);
  }

  /** Servers configured one after the other behind server `k`. */
  function Behind(servers: seq<bool>, k: nat): nat
    decreases |servers| - k
  {
    if k + 1 < |servers| && servers[k + 1] then 1 + Behind(servers, k + 1) else 0
  }

  /** An entry waiting for a reply, as the resolver leaves it. */
  predicate Waiting(e: Entry, most: nat) {
    e.phase == Asking && 0 < e.tmr < 256 && e.retries < most < 256
  }

  /** Ticks until a waiting entry is flushed. */
  function Remaining(e: Entry, servers: seq<bool>, most: nat): nat {
    e.tmr + SumFrom(e.retries, most) + Behind(servers, e.server) * PerServer(most)
  }

  lemma TickedIs(e: Entry, servers: seq<bool>, most: nat)
    requires Waiting(e, most)
    ensures Ticked(e, servers, most) ==
            if e.tmr > 1 then (e.(tmr := e.tmr - 1), false)
            else if e.retries + 1 < most then (e.(tmr := e.retries + 1, retries := e.retries + 1), false)
            else if e.server + 1 < |servers| && servers[e.server + 1] then
              (e.(server := e.server + 1, tmr := 1, retries := 0), false)
            else (e.(tmr := 0, retries := most), true)
  {
  }

  /** A tick takes one off; the last one flushes the entry. */
  lemma OneTick(e: Entry, servers: seq<bool>, most: nat)
    requires Waiting(e, most)
    ensures var (f, out) := Ticked(e, servers, most);
            && (out <==> Remaining(e, servers, most) == 1) && f.found == e.found && f.query == e.query
            && (!out ==> Waiting(f, most) && Remaining(f, servers, most) == Remaining(e, servers, most) - 1)
            && (out ==> f.phase == Asking)
  {
    hide Ticked, PerServer, SumFrom, Behind;
    TickedIs(e, servers, most);
    var n, s := Behind(servers, e.server), PerServer(most);
    SumStep(e.retries, most);
    BehindStep(servers, e.server);
    SumStep(0, most);
    Times(n, s);
  }

  lemma SumStep(r: nat, most: nat)
    requires r < most
    ensures SumFrom(r, most) == if r + 1 == most then 0 else r + 1 + SumFrom(r + 1, most)
    ensures PerServer(most) == 1 + SumFrom(0, most)
  {
  }

  lemma BehindStep(servers: seq<bool>, k: nat)
    ensures Behind(servers, k) == if k + 1 < |servers| && servers[k + 1] then 1 + Behind(servers, k + 1) else 0
  {
  }

  lemma Times(n: nat, s: nat)
    ensures n > 0 ==> n * s == (n - 1) * s + s && (n - 1) * s >= 0
    ensures n == 0 ==> n * s == 0
  {
  }

  // ---------- Other entries, other events ----------

  lemma SlotIsNot(d: Dns, i: nat)
    requires i < |d.table| && d.table[i].phase == Asking
    ensures Slot(d) != i
  {
  }

  /** Whatever happens to another entry leaves a waiting one alone. */
  lemma OthersKeep(d: Dns, i: nat, j: nat, again: bool, most: nat, m: Reply)
    requires i < |d.table| && j < |d.table| && i != j && d.table[i].phase == Asking
    ensures Check(d, j, most, again).table[i] == d.table[i] && Check(d, j, most, again).servers == d.servers
    ensures Replied(d, j, m, again).table[i] == d.table[i] && Replied(d, j, m, again).servers == d.servers
  {
    hide Slot, Ticked;
    forall c: Dns | |c.table| == |d.table| && c.table[i] == d.table[i] ensures Slot(c) != i { SlotIsNot(c, i); }
  }

  lemma {:induction false} CheckOthers(d: Dns, i: nat, j: nat, most: nat, again: nat -> bool)
    requires i < |d.table| && j <= |d.table| && d.table[i].phase == Asking && (j > i)
    ensures CheckFrom(d, j, most, again).table[i] == d.table[i] && CheckFrom(d, j, most, again).servers == d.servers
    decreases |d.table| - j
  {
    hide Check;
    if j < |d.table| {
      OthersKeep(d, i, j, again(j), most, Failure);
      CheckSize(d, j, most, again(j));
      CheckOthers(Check(d, j, most, again(j)), i, j + 1, most, again);
    }
  }

  lemma CheckSize(d: Dns, i: nat, most: nat, again: bool)
    requires i < |d.table|
    ensures |Check(d, i, most, again).table| == |d.table| && Check(d, i, most, again).accepted >= d.accepted
  {
  }

  /** The state when the turn of entry `i` comes within a tick. */
  lemma {:induction false} ItsTurn(d: Dns, j: nat, i: nat, most: nat, again: nat -> bool) returns (c: Dns)
    requires j <= i < |d.table| && d.table[i].phase == Asking
    ensures |c.table| == |d.table| && c.table[i] == d.table[i] && c.servers == d.servers && c.accepted >= d.accepted
    ensures CheckFrom(d, j, most, again) == CheckFrom(c, i, most, again)
    decreases i - j
  {
    hide Check;
    if j == i {
      c := d;
    } else {
      OthersKeep(d, i, j, again(j), most, Failure);
      CheckSize(d, j, most, again(j));
      c := ItsTurn(Check(d, j, most, again(j)), j + 1, i, most, again);
    }
  }

  lemma {:induction false} CallsStay(d: Dns, j: nat, most: nat, again: nat -> bool)
    requires j <= |d.table|
    ensures d.calls <= CheckFrom(d, j, most, again).calls
    decreases |d.table| - j
  {
    hide Slot, Ticked;
    if j < |d.table| {
      CheckSize(d, j, most, again(j));
      CallsStay(Check(d, j, most, again(j)), j + 1, most, again);
    }
  }

  /** Entry `i` is unused, or has been taken by a query later than the first `a`. */
  predicate Freed(d: Dns, i: nat, a: nat) {
    i < |d.table| && a <= d.accepted && (d.table[i].phase == Unused || d.table[i].query >= a)
  }

  lemma {:induction false} FreedCheck(d: Dns, i: nat, j: nat, most: nat, again: nat -> bool, a: nat)
    requires i < j <= |d.table| && Freed(d, i, a)
    ensures Freed(CheckFrom(d, j, most, again), i, a)
    decreases |d.table| - j
  {
    hide Slot, Ticked;
    if j < |d.table| {
      CheckSize(d, j, most, again(j));
      FreedCheck(Check(d, j, most, again(j)), i, j + 1, most, again, a);
    }
  }

  /** What a tick does to a waiting entry. */
  lemma TickWaiting(d: Dns, i: nat, most: nat, again: nat -> bool)
    requires i < |d.table| && Waiting(d.table[i], most)
    ensures var e, t := d.table[i], CheckFrom(d, 0, most, again);
            && t.servers == d.servers
            && (Remaining(e, d.servers, most) > 1 ==>
                  var f := t.table[i];
                  && Waiting(f, most) && Remaining(f, d.servers, most) == Remaining(e, d.servers, most) - 1
                  && f.query == e.query && f.found == e.found)
            && (Remaining(e, d.servers, most) == 1 ==> Freed(t, i, d.accepted) && (e.found ==> e.query in t.calls))
  {
    hide Remaining, Slot, Ticked, CheckFrom;
    var c := ItsTurn(d, 0, i, most, again);
    OneTick(c.table[i], c.servers, most);
    var n := Check(c, i, most, again(i));
    CheckSize(c, i, most, again(i));
    Unfold(c, i, most, again);
    CallsStay(n, i + 1, most, again);
    ServersStay(n, i + 1, most, again);
    if Remaining(d.table[i], d.servers, most) > 1 {
      CheckOthers(n, i, i + 1, most, again);
    } else {
      FreedCheck(n, i, i + 1, most, again, d.accepted);
      if d.table[i].found {
        var k := |c.calls|;
        assert n.calls[k] == d.table[i].query;
        assert CheckFrom(n, i + 1, most, again).calls[k] == n.calls[k];
      }
    }
  }

  lemma Unfold(d: Dns, i: nat, most: nat, again: nat -> bool)
    requires i < |d.table|
    ensures CheckFrom(d, i, most, again) == CheckFrom(Check(d, i, most, again(i)), i + 1, most, again)
  {
  }

  lemma {:induction false} ServersStay(d: Dns, j: nat, most: nat, again: nat -> bool)
    requires j <= |d.table|
    ensures CheckFrom(d, j, most, again).servers == d.servers
    decreases |d.table| - j
  {
    hide Slot, Ticked;
    if j < |d.table| {
      CheckSize(d, j, most, again(j));
      ServersStay(Check(d, j, most, again(j)), j + 1, most, again);
    }
  }

  // ---------- Runs ----------

  function Ticks(evs: seq<Event>): nat {
    if evs == [] then 0 else (if evs[0].Tick? then 1 else 0) + Ticks(evs[1..])
  }

  /** No message for entry `i`. */
  predicate Unanswered(evs: seq<Event>, i: nat) {
    forall k :: 0 <= k < |evs| ==> !(evs[k].Message? && evs[k].i == i)
  }

  /** As long as it has ticks left, an unanswered query stays open, and is not called back. */
  lemma {:induction false} StaysOpen(d: Dns, evs: seq<Event>, i: nat)
    requires Ok(d) && i < |d.table| && Waiting(d.table[i], DNS_MAX_RETRIES) && Unanswered(evs, i)
    requires Ticks(evs) < Remaining(d.table[i], d.servers, DNS_MAX_RETRIES)
    ensures var r := Run(d, evs);
            var e, f := d.table[i], r.table[i];
            && r.servers == d.servers && Waiting(f, DNS_MAX_RETRIES) && f.query == e.query && f.found == e.found
            && Remaining(f, d.servers, DNS_MAX_RETRIES) == Remaining(e, d.servers, DNS_MAX_RETRIES) - Ticks(evs)
            && e.query !in r.calls
    decreases |evs|
  {
    hide Remaining, Slot, Ok, Replied, CheckFrom;
    if evs == [] {
      NotCalled(d, i);
    } else {
      var c := Step(d, evs[0]);
      RunOk(d, evs[..1]);
      assert evs[..1][1..] == [];
      assert Run(d, evs[..1]) == c;
      match evs[0] {
        case Tick(again) => TickWaiting(d, i, DNS_MAX_RETRIES, again);
        case Query(found) => SlotIsNot(d, i);
        case Message(j, m, more) =>
          if j < |d.table| {
            OthersKeep(d, i, j, more, DNS_MAX_RETRIES, m);
          } else {
            NoReply(d, j, m, more);
          }
      }
      StaysOpen(c, evs[1..], i);
    }
  }

  lemma NotCalled(d: Dns, i: nat)
    requires Ok(d) && i < |d.table| && d.table[i].phase == Asking
    ensures d.table[i].query !in d.calls
  {
    assert Open(d, d.table[i]);
  }

  // ---------- Queries without a callback ----------

  predicate Quiet(e: Entry, q: nat) { IsActive(e) && e.query == q ==> !e.found }

  /** Query `q` has not been called back, and no entry open for it has a callback. */
  ghost predicate Silent(d: Dns, q: nat) {
    q < d.accepted && q !in d.calls && forall j :: 0 <= j < |d.table| ==> Quiet(d.table[j], q)
  }

  lemma SilentEnqueued(d: Dns, found: bool, q: nat)
    requires Silent(d, q)
    ensures Silent(Enqueued(d, found), q)
  {
    hide Slot;
  }

  lemma SilentAfter(d: Dns, i: nat, again: bool, q: nat)
    requires Silent(d, q) && i < |d.table| && (d.table[i].query == q ==> !d.table[i].found)
    ensures Silent(Called(d, i, again), q) && Silent(FlushedAfter(d, i, again), q)
  {
    hide Slot;
    if d.table[i].found { SilentEnqueued(d.(calls := d.calls + [d.table[i].query]), true, q); }
  }

  lemma SilentCheck(d: Dns, i: nat, most: nat, again: bool, q: nat)
    requires Silent(d, q) && i < |d.table|
    ensures Silent(Check(d, i, most, again), q)
  {
    hide FlushedAfter;
    assert Quiet(d.table[i], q);
    var (e, out) := Ticked(d.table[i], d.servers, most);
    var c := d.(table := d.table[i := e]);
    if out { SilentAfter(c, i, again, q); }
  }

  lemma SilentReplied(d: Dns, i: nat, m: Reply, again: bool, q: nat)
    requires Silent(d, q)
    ensures Silent(Replied(d, i, m, again), q)
  {
    hide FlushedAfter, Called;
    if i < |d.table| && d.table[i].phase == Asking {
      assert Quiet(d.table[i], q);
      var e := d.table[i].(phase := Done);
      match m
      case Failure => SilentAfter(d.(table := d.table[i := e]), i, again, q);
      case Answer(ttl) =>
        SilentAfter(d.(table := d.table[i := e.(ttl := if ttl > DNS_MAX_TTL then DNS_MAX_TTL else ttl)]), i, again, q);
    }
  }

  lemma {:induction false} SilentFrom(d: Dns, i: nat, most: nat, again: nat -> bool, q: nat)
    requires Silent(d, q) && i <= |d.table|
    ensures Silent(CheckFrom(d, i, most, again), q)
    decreases |d.table| - i
  {
    hide Check, Silent;
    if i < |d.table| {
      SilentCheck(d, i, most, again(i), q);
      CheckSize(d, i, most, again(i));
      SilentFrom(Check(d, i, most, again(i)), i + 1, most, again, q);
    }
  }

  lemma {:induction false} SilentRun(d: Dns, evs: seq<Event>, q: nat)
    requires Silent(d, q)
    ensures Silent(Run(d, evs), q)
    decreases |evs|
  {
    hide Silent, Enqueued, Replied, CheckFrom;
    if evs != [] {
      match evs[0] {
        case Tick(again) => SilentFrom(d, 0, DNS_MAX_RETRIES, again, q);
        case Query(found) => SilentEnqueued(d, found, q);
        case Message(i, m, more) => SilentReplied(d, i, m, more, q);
      }
      SilentRun(Step(d, evs[0]), evs[1..], q);
    }
  }

  /** A query made without a callback is never called back, whatever happens. */
  lemma NeverCalled(d: Dns, evs: seq<Event>, i: nat)
    requires Ok(d) && i < |d.table| && IsActive(d.table[i]) && !d.table[i].found
    ensures d.table[i].query !in Run(d, evs).calls
  {
    var q := d.table[i].query;
    assert Open(d, d.table[i]);
    forall j | 0 <= j < |d.table| ensures Quiet(d.table[j], q) {
      if j < i { assert Apart(d.table[j], d.table[i]); }
      if j > i { assert Apart(d.table[i], d.table[j]); }
    }
    SilentRun(d, evs, q);
  }

  /** A query that is never answered stays open until the tick that is the last of its time, after seven ticks for every
      server configured.  That tick frees its entry; it is then called back, once, exactly when it has a callback. */
  lemma TimesOut(d: Dns, evs: seq<Event>, again: nat -> bool, i: nat)
    requires Ok(d) && i < |d.table| && Waiting(d.table[i], DNS_MAX_RETRIES) && Unanswered(evs, i)
    requires Ticks(evs) + 1 == Remaining(d.table[i], d.servers, DNS_MAX_RETRIES)
    ensures var r, q := Run(d, evs), d.table[i].query;
            var t := Step(r, Tick(again));
            && Waiting(r.table[i], DNS_MAX_RETRIES) && r.table[i].query == q && q !in r.calls
            && Freed(t, i, r.accepted) && (q in t.calls <==> d.table[i].found) && NoDup(t.calls)
  {
    hide Remaining, CheckFrom, Waiting, Freed;
    StaysOpen(d, evs, i);
    RunOk(d, evs);
    var r := Run(d, evs);
    TickWaiting(r, i, DNS_MAX_RETRIES, again);
    CheckFromOk(r, 0, DNS_MAX_RETRIES, again);
    if !d.table[i].found {
      WaitingActive(r.table[i], DNS_MAX_RETRIES);
      NeverCalled(r, [Tick(again)], i);
      assert [Tick(again)][1..] == [];
      assert Run(r, [Tick(again)]) == Step(r, Tick(again));
    }
  }

  lemma WaitingActive(e: Entry, most: nat)
    requires Waiting(e, most)
    ensures IsActive(e)
  {
  }

  // ---------- Replies ----------

  /** A reply to an asking entry calls its query back exactly when it has a callback, and calls nothing else.  After an answer
      the entry is completed for its time to live, a week at most, unless a query made in the callback has taken it; after
      a failure it is unused.  No other entry changes unless such a query has taken it. */
  lemma ReplyIs(d: Dns, i: nat, m: Reply, more: bool)
    requires Ok(d) && i < |d.table| && d.table[i].phase == Asking
    ensures var e, r := d.table[i], Replied(d, i, m, more);
            var f := match m
                     case Failure => e.(phase := Unused, found := false)
                     case Answer(ttl) => e.(phase := Done, ttl := if ttl > 604800 then 604800 else ttl);
            && r.calls == d.calls + (if e.found then [e.query] else []) && e.query !in d.calls
            && (m.Failure? ==> r.table[i].phase == Unused && !r.table[i].found)
            && (!(e.found && more) ==> r.table == d.table[i := f] && r.accepted == d.accepted)
            && forall j :: 0 <= j < |d.table| && j != i ==> r.table[j] == d.table[j] || r.table[j].query == d.accepted
  {
    hide Slot;
    NotCalled(d, i);
  }

  /** A message for an entry that is not asking, or that does not exist, does nothing. */
  lemma NoReply(d: Dns, i: nat, m: Reply, more: bool)
    requires i < |d.table| ==> d.table[i].phase != Asking
    ensures Replied(d, i, m, more) == d
  {
  }

  lemma StepCalls(d: Dns, ev: Event)
    ensures d.calls <= Step(d, ev).calls
  {
    hide Slot, CheckFrom;
    match ev
    case Tick(again) => CallsStay(d, 0, DNS_MAX_RETRIES, again);
    case Query(found) =>
    case Message(i, m, more) =>
  }

  lemma {:induction false} RunCalls(d: Dns, evs: seq<Event>)
    ensures d.calls <= Run(d, evs).calls
    decreases |evs|
  {
    hide Step;
    if evs != [] {
      StepCalls(d, evs[0]);
      RunCalls(Step(d, evs[0]), evs[1..]);
    }
  }

  /** What one event that neither answers a waiting query nor ends its time does to it. */
  lemma KeepsWaiting(d: Dns, ev: Event, i: nat)
    requires Ok(d) && i < |d.table| && Waiting(d.table[i], DNS_MAX_RETRIES)
    requires !(ev.Message? && ev.i == i) && Ticks([ev]) < Remaining(d.table[i], d.servers, DNS_MAX_RETRIES)
    ensures var c := Step(d, ev);
            var e, f := d.table[i], c.table[i];
            && Ok(c) && c.servers == d.servers && Waiting(f, DNS_MAX_RETRIES) && f.query == e.query && f.found == e.found
            && Remaining(f, d.servers, DNS_MAX_RETRIES) == Remaining(e, d.servers, DNS_MAX_RETRIES) - Ticks([ev])
  {
    hide Remaining, Step, Ok;
    StaysOpen(d, [ev], i);
    RunOk(d, [ev]);
    assert [ev][1..] == [];
    assert Run(d, [ev]) == Step(d, ev);
  }

  /** A message for a waiting query, and the last tick of its time, call it back if it has a callback. */
  lemma EndsWaiting(d: Dns, ev: Event, i: nat)
    requires Ok(d) && i < |d.table| && Waiting(d.table[i], DNS_MAX_RETRIES) && d.table[i].found
    requires (ev.Message? && ev.i == i) || (ev.Tick? && Remaining(d.table[i], d.servers, DNS_MAX_RETRIES) == 1)
    ensures d.table[i].query in Step(d, ev).calls
  {
    hide Remaining, Replied, CheckFrom, Ok;
    match ev
    case Tick(again) => TickWaiting(d, i, DNS_MAX_RETRIES, again);
    case Message(j, m, more) => ReplyIs(d, i, m, more);
  }

  lemma {:induction false} CalledBack(d: Dns, evs: seq<Event>, i: nat)
    requires Ok(d) && i < |d.table| && Waiting(d.table[i], DNS_MAX_RETRIES) && d.table[i].found
    requires !Unanswered(evs, i) || Ticks(evs) >= Remaining(d.table[i], d.servers, DNS_MAX_RETRIES)
    ensures d.table[i].query in Run(d, evs).calls
    decreases |evs|
  {
    hide Remaining, Step, Ok, Waiting;
    SomeTime(d.table[i], d.servers);
    var ev, q := evs[0], d.table[i].query;
    assert [ev][1..] == [] && Ticks([ev]) == if ev.Tick? then 1 else 0;
    if (ev.Message? && ev.i == i) || (ev.Tick? && Remaining(d.table[i], d.servers, DNS_MAX_RETRIES) == 1) {
      EndsWaiting(d, ev, i);
      RunCalls(Step(d, ev), evs[1..]);
    } else {
      KeepsWaiting(d, ev, i);
      if !Unanswered(evs, i) {
        var k :| 0 <= k < |evs| && evs[k].Message? && evs[k].i == i;
        assert evs[1..][k - 1] == evs[k];
      }
      CalledBack(Step(d, ev), evs[1..], i);
    }
  }

  lemma SomeTime(e: Entry, servers: seq<bool>)
    requires Waiting(e, DNS_MAX_RETRIES)
    ensures Remaining(e, servers, DNS_MAX_RETRIES) >= 1
  {
    hide Behind, PerServer, SumFrom;
  }

  /** Over every run, a waiting query is called back once if it has a callback and the run answers it or lets its time pass,
      and otherwise not at all. */
  lemma CalledExactly(d: Dns, evs: seq<Event>, i: nat)
    requires Ok(d) && i < |d.table| && Waiting(d.table[i], DNS_MAX_RETRIES)
    ensures multiset(Run(d, evs).calls)[d.table[i].query] ==
            if d.table[i].found &&
               (!Unanswered(evs, i) || Ticks(evs) >= Remaining(d.table[i], d.servers, DNS_MAX_RETRIES)) then 1 else 0
  {
    hide Remaining, Run, Ok, Ticks, Unanswered;
    RunOk(d, evs);
    if !d.table[i].found {
      NeverCalled(d, evs, i);
    } else if !Unanswered(evs, i) || Ticks(evs) >= Remaining(d.table[i], d.servers, DNS_MAX_RETRIES) {
      CalledBack(d, evs, i);
      OkNoDup(Run(d, evs));
      Once(Run(d, evs).calls, d.table[i].query);
    } else {
      StaysOpen(d, evs, i);
    }
  }

  lemma OkNoDup(d: Dns)
    requires Ok(d)
    ensures NoDup(d.calls)
  {
  }

  lemma Once(l: seq<nat>, x: nat)
    requires NoDup(l) && x in l
    ensures multiset(l)[x] == 1
  {
    var k :| 0 <= k < |l| && l[k] == x;
    OneOf(l[..k], x, l[k + 1..]);
    assert l == l[..k] + [x] + l[k + 1..];
  }

  lemma OneOf(a: seq<nat>, x: nat, b: seq<nat>)
    requires x !in a && x !in b
    ensures multiset(a + [x] + b)[x] == 1
  {
  }

  /** A new query has seven ticks for each of the servers configured one after the other from the first on. */
  lemma NewQueryTime(d: Dns, found: bool)
    requires Slot(d) < |d.table|
    ensures var r := Enqueued(d, found);
            var e := r.table[Slot(d)];
            && Waiting(e, DNS_MAX_RETRIES) && e.query == d.accepted && e.found == found
            && Remaining(e, r.servers, DNS_MAX_RETRIES) == 7 * (1 + Behind(d.servers, 0))
  {
    PerServerIs(DNS_MAX_RETRIES);
  }

  // ---------- Queries made in a callback ----------

  /** The entry whose query has just failed is the one a new query takes: none is unused, and it is the oldest of those
      completed, the first of them, or the first of all when none counts as older than now. */
  ghost predicate Retaken(d: Dns, i: nat)
    requires i < |d.table|
  {
    && (forall j :: 0 <= j < |d.table| ==> d.table[j].phase != Unused)
    && (|| (d.age > d.table[i].age && forall j :: 0 <= j < |d.table| && d.table[j].phase == Done ==>
              d.table[j].age >= d.table[i].age && (j < i ==> d.table[j].age > d.table[i].age))
        || (i == 0 && d.table[i].age >= d.age &&
            forall j :: 0 <= j < |d.table| && d.table[j].phase == Done ==> d.table[j].age >= d.age))
  }

  lemma RetakenIs(d: Dns, i: nat)
    requires i < |d.table| && d.table[i].phase == Asking
    ensures var c := d.(table := d.table[i := d.table[i].(phase := Done)], calls := d.calls + [d.table[i].query]);
            Slot(c) == i <==> Retaken(d, i)
  {
    hide Oldest, FirstUnused;
    var t := d.table[i := d.table[i].(phase := Done)];
    assert forall j :: 0 <= j < |t| && j != i ==> t[j] == d.table[j];
    OldestIs(t, d.age, |t|);
    var (k, most) := Oldest(t, d.age, |t|);
    assert t[i].phase == Done && t[i].age == d.table[i].age;
    if FirstUnused(t) < |t| {
      assert d.table[FirstUnused(t)].phase == Unused;
    }
  }

  /** On a failure the callback runs while its entry counts as completed, and the entry is flushed afterwards.  A query made
      in that callback is lost, accepted but never asked nor called back, exactly when it is put into that entry. */
  lemma LostInCallback(d: Dns, i: nat)
    requires Ok(d) && i < |d.table| && d.table[i].phase == Asking && d.table[i].found
    ensures var r := Replied(d, i, Failure, true);
            (r.accepted == d.accepted + 1 && d.accepted !in r.calls &&
             forall j :: 0 <= j < |r.table| ==> !(IsActive(r.table[j]) && r.table[j].query == d.accepted)) <==>
            Retaken(d, i)
  {
    hide Slot, Retaken;
    RetakenIs(d, i);
    var c := d.(table := d.table[i := d.table[i].(phase := Done)], calls := d.calls + [d.table[i].query]);
    var r := Replied(d, i, Failure, true);
    assert Open(d, d.table[i]);
    var k := Slot(c);
    if k < |c.table| && k != i {
      assert IsActive(r.table[k]) && r.table[k].query == d.accepted;
    }
    forall j | 0 <= j < |d.table| ensures IsActive(d.table[j]) ==> d.table[j].query != d.accepted {
      assert Open(d, d.table[j]);
    }
  }

  /** It is then never called back, whatever happens. */
  lemma LostForever(d: Dns, i: nat, evs: seq<Event>)
    requires Ok(d) && i < |d.table| && d.table[i].phase == Asking && d.table[i].found && Retaken(d, i)
    ensures d.accepted !in Run(Replied(d, i, Failure, true), evs).calls
  {
    hide Replied, Retaken, Ok;
    LostInCallback(d, i);
    SilentRun(Replied(d, i, Failure, true), evs, d.accepted);
  }

  /** That happens: the only entry waits, and its failure is answered by another query. */
  lemma LostQuery()
    ensures var d := Dns([Entry(Asking, 0, 1, 0, 0, 0, true, 0)], [true], 1, 1, []);
            var r := Replied(d, 0, Failure, true);
            Ok(d) && r.accepted == 2 && r.calls == [0] && r.table[0].phase == Unused
  {
  }
}
