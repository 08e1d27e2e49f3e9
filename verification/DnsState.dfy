/** The resolver's table of queries: retries, time-outs, replies and callbacks. */
module DnsState {
  import opened NoDuplicates

  const DNS_MAX_RETRIES: nat := 4
  const DNS_MAX_TTL: nat := 604800
  const U32: nat := 0x1_0000_0000

  datatype Phase = Unused | New | Asking | Done

  /** An entry: its phase, the server asked, ticks to the next retry, retries made, age, time to live, whether a callback
      is to be made, and the query it was made for. */
  datatype Entry = Entry(phase: Phase, server: nat, tmr: nat, retries: nat, age: nat, ttl: nat, found: bool, query: nat)

  /** The table, which servers are configured, the age counter (8 bits), how many queries were accepted so far, and the
      queries called back, in order. */
  datatype Dns = Dns(table: seq<Entry>, servers: seq<bool>, age: nat, accepted: nat, calls: seq<nat>)

  predicate IsActive(e: Entry) { e.phase == New || e.phase == Asking }

  // ---------- New queries ----------

  /** The place of the first unused entry, or the size of the table. */
  function FirstUnused(t: seq<Entry>): (k: nat)
    ensures k <= |t| && (k < |t| ==> t[k].phase == Unused) && forall j :: 0 <= j < k ==> t[j].phase != Unused
  {
    if t == [] || t[0].phase == Unused then 0 else 1 + FirstUnused(t[1..])
  }

  /** The oldest completed entry of the first `k`, by the difference of the age counters; entry zero when there is none
      with a positive difference. */
  function Oldest(t: seq<Entry>, age: nat, k: nat): (r: (nat, nat))
    requires k <= |t|
    ensures r.0 <= k && (k > 0 ==> r.0 < k)
  {
    if k == 0 then (0, 0)
    else
      var (i, most) := Oldest(t, age, k - 1);
      if t[k - 1].phase == Done && age - t[k - 1].age > most then (k - 1, age - t[k - 1].age) else (i, most)
  }

  /** The entry a new query takes, if any. */
  function Slot(d: Dns): (k: nat)
    ensures k <= |d.table|
  {
    var u := FirstUnused(d.table);
    if u < |d.table| then u
    else
      var i := Oldest(d.table, d.age, |d.table|).0;
      if i < |d.table| && d.table[i].phase == Done then i else |d.table|
  }

  function Enqueued(d: Dns, found: bool): Dns {
    var k := Slot(d);
    if k == |d.table| then d
    else
      var e := Entry(Asking, 0, 1, 0, d.age, d.table[k].ttl, found, d.accepted);
      d.(table := d.table[k := e], age := (d.age + 1) % 256, accepted := d.accepted + 1)
  }

  // ---------- Callbacks ----------

  /** The callback of an entry, if it has one; the application may enqueue another query in it. */
  function Called(d: Dns, i: nat, again: bool): Dns
    requires i < |d.table|
  {
    if !d.table[i].found then d
    else
      var c := d.(calls := d.calls + [d.table[i].query]);
      if again then Enqueued(c, true) else c
  }

  function Flushed(d: Dns, i: nat): Dns
    requires i < |d.table|
  {
    d.(table := d.table[i := d.table[i].(phase := Unused, found := false)])
  }

  /** No entry is free for a new query exactly when none is unused, the first is not completed, and no completed one has an
      age counter below the present one: after the counter has wrapped around, completed entries may go unseen. */
  lemma FullExactly(d: Dns)
    requires d.table != []
    ensures Slot(d) == |d.table| <==>
            && (forall i :: 0 <= i < |d.table| ==> d.table[i].phase != Unused)
            && d.table[0].phase != Done
            && (forall i :: 0 <= i < |d.table| && d.table[i].phase == Done ==> d.table[i].age >= d.age)
    ensures Slot(d) < |d.table| ==> d.table[Slot(d)].phase == Unused || d.table[Slot(d)].phase == Done
  {
    OldestIs(d.table, d.age, |d.table|);
  }

  /** A completed entry of age 250 behind one that is asking, and the counter at 3: the completed one goes unseen. */
  lemma UnseenEntry()
    ensures var t := [Entry(Asking, 0, 1, 0, 2, 0, true, 1), Entry(Done, 0, 1, 0, 250, 9, true, 0)];
            Slot(Dns(t, [true], 3, 2, [0])) == 2
  {
    var t := [Entry(Asking, 0, 1, 0, 2, 0, true, 1), Entry(Done, 0, 1, 0, 250, 9, true, 0)];
    FullExactly(Dns(t, [true], 3, 2, [0]));
  }

  lemma {:induction false} OldestIs(t: seq<Entry>, age: nat, k: nat)
    requires k <= |t|
    ensures var (i, most) := Oldest(t, age, k);
            && (most == 0 <==> forall j :: 0 <= j < k && t[j].phase == Done ==> t[j].age >= age) && (most == 0 ==> i == 0)
            && (most > 0 ==> i < k && t[i].phase == Done && age - t[i].age == most)
            && (most > 0 ==> forall j :: 0 <= j < i && t[j].phase == Done ==> age - t[j].age < most)
            && forall j :: 0 <= j < k && t[j].phase == Done ==> age - t[j].age <= most
  {
    if k > 0 { OldestIs(t, age, k - 1); }
  }

  // ---------- Time ----------

  /** One entry at a tick, with at most `r` retries per server: the entry after it, and whether it has timed out. */
  function Ticked(e: Entry, servers: seq<bool>, r: nat): (Entry, bool) {
    match e.phase
    case New => (e.(phase := Asking, server := 0, tmr := 1, retries := 0), false)
    case Asking =>
      var f := e.(tmr := (e.tmr - 1) % 256);
      if f.tmr != 0 then (f, false)
      else
        var f := f.(retries := (e.retries + 1) % 256);
        if f.retries != r then (f.(tmr := f.retries), false)
        else if e.server + 1 < |servers| && servers[e.server + 1] then
          (f.(server := e.server + 1, tmr := 1, retries := 0), false)
        else (f, true)
    case Done =>
      var f := e.(ttl := (e.ttl - 1) % U32);
      (if f.ttl == 0 then f.(phase := Unused, found := false) else f, false)
    case Unused => (e, false)
  }

  /** An entry after `n` ticks. */
  function Aged(e: Entry, servers: seq<bool>, r: nat, n: nat): Entry {
    if n == 0 then e else Ticked(Aged(e, servers, r, n - 1), servers, r).0
  }

  /** A completed entry lives for its time to live; for 2^32 ticks if that is zero. */
  lemma {:induction false} Lives(e: Entry, servers: seq<bool>, r: nat, n: nat)
    requires e.phase == Done && e.ttl < U32
    ensures var life := if e.ttl == 0 then U32 else e.ttl;
            Aged(e, servers, r, n) == if n == 0 then e
                                      else if n < life then e.(ttl := life - n)
                                      else e.(phase := Unused, found := false, ttl := 0)
  {
    if n > 0 { Lives(e, servers, r, n - 1); }
  }

  /** It is there until just before that many ticks and gone after them exactly when its time to live is not zero. */
  lemma ExpiresOnTime(e: Entry, servers: seq<bool>, r: nat)
    requires e.phase == Done && e.ttl < U32
    ensures Aged(e, servers, r, e.ttl).phase == Unused <==> e.ttl > 0
    ensures forall n :: 0 <= n < e.ttl ==> Aged(e, servers, r, n).phase == Done
    ensures e.ttl == 0 ==> forall n :: 0 <= n < U32 ==> Aged(e, servers, r, n).phase == Done
  {
    hide Aged;
    forall n: nat ensures (n == 0 ==> Aged(e, servers, r, n) == e) &&
                          (n > 0 ==> (Aged(e, servers, r, n).phase == Done <==> n < if e.ttl == 0 then U32 else e.ttl))
    {
      Lives(e, servers, r, n);
    }
    Lives(e, servers, r, e.ttl);
  }

  /** `dns_check_entry`. */
  function Check(d: Dns, i: nat, r: nat, again: bool): Dns
    requires i < |d.table|
  {
    var (e, out) := Ticked(d.table[i], d.servers, r);
    var c := d.(table := d.table[i := e]);
    if !out then c else FlushedAfter(c, i, again)
  }

  function FlushedAfter(d: Dns, i: nat, again: bool): (c: Dns)
    requires i < |d.table|
    ensures |c.table| == |d.table|
  {
    Flushed(Called(d, i, again), i)
  }

  /** `dns_check_entries`, from entry `i` on. */
  function CheckFrom(d: Dns, i: nat, r: nat, again: nat -> bool): (c: Dns)
    requires i <= |d.table|
    ensures |c.table| == |d.table|
    decreases |d.table| - i
  {
    if i == |d.table| then d else CheckFrom(Check(d, i, r, again(i)), i + 1, r, again)
  }

  // ---------- Replies ----------

  /** `dns_recv` of a message with transaction number `i`: an error or no usable answer, or an address and its time to
      live. */
  datatype Reply = Failure | Answer(ttl: nat)

  function Replied(d: Dns, i: nat, m: Reply, again: bool): Dns {
    if i >= |d.table| || d.table[i].phase != Asking then d
    else
      var e := d.table[i].(phase := Done);
      match m
      case Failure => FlushedAfter(d.(table := d.table[i := e]), i, again)
      case Answer(ttl) =>
        Called(d.(table := d.table[i := e.(ttl := if ttl > DNS_MAX_TTL then DNS_MAX_TTL else ttl)]), i, again)
  }

  // ---------- At most one callback ----------

  /** Queries still open have not been called back, no query is open twice, and none was called back twice. */
  ghost predicate Ok(d: Dns) {
    && NoDup(d.calls) && (forall q :: q in d.calls ==> q < d.accepted)
    && (forall i :: 0 <= i < |d.table| ==> Open(d, d.table[i]))
    && (forall i, j :: 0 <= i < j < |d.table| ==> Apart(d.table[i], d.table[j]))
  }

  predicate Open(d: Dns, e: Entry) { IsActive(e) ==> e.query < d.accepted && e.query !in d.calls }

  predicate Apart(e: Entry, f: Entry) { IsActive(e) && IsActive(f) ==> e.query != f.query }

  lemma EnqueuedOk(d: Dns, found: bool)
    requires Ok(d)
    ensures Ok(Enqueued(d, found)) && d.accepted <= Enqueued(d, found).accepted
    ensures Enqueued(d, found).calls == d.calls && |Enqueued(d, found).table| == |d.table|
  {
    var r := Enqueued(d, found);
    forall i, j | 0 <= i < j < |r.table| ensures Apart(r.table[i], r.table[j]) {
      assert Open(d, d.table[i]) && Open(d, d.table[j]) && Apart(d.table[i], d.table[j]);
    }
    forall i | 0 <= i < |r.table| ensures Open(r, r.table[i]) { assert Open(d, d.table[i]); }
  }

  /** An entry changes but not its query, or it is closed. */
  lemma ChangedOk(d: Dns, i: nat, e: Entry)
    requires Ok(d) && i < |d.table| && (IsActive(e) ==> IsActive(d.table[i]) && e.query == d.table[i].query)
    ensures Ok(d.(table := d.table[i := e]))
  {
    var r := d.(table := d.table[i := e]);
    forall k | 0 <= k < |r.table| ensures Open(r, r.table[k]) { assert Open(d, d.table[k]); }
    forall k, j | 0 <= k < j < |r.table| ensures Apart(r.table[k], r.table[j]) { assert Apart(d.table[k], d.table[j]); }
  }

  /** The query of a closed entry that was not called back and is not open elsewhere. */
  ghost predicate Pending(d: Dns, i: nat)
    requires i < |d.table|
  {
    && d.table[i].query < d.accepted && d.table[i].query !in d.calls
    && forall j :: 0 <= j < |d.table| && j != i && IsActive(d.table[j]) ==> d.table[j].query != d.table[i].query
  }

  lemma LoggedOk(d: Dns, i: nat)
    requires Ok(d) && i < |d.table| && !IsActive(d.table[i]) && Pending(d, i)
    ensures Ok(d.(calls := d.calls + [d.table[i].query]))
  {
    var c := d.(calls := d.calls + [d.table[i].query]);
    forall k | 0 <= k < |c.table| ensures Open(c, c.table[k]) { assert Open(d, d.table[k]); }
  }

  lemma OpenIsPending(d: Dns, i: nat)
    requires Ok(d) && i < |d.table| && IsActive(d.table[i])
    ensures Pending(d, i)
  {
    assert Open(d, d.table[i]);
    forall j | 0 <= j < |d.table| && j != i && IsActive(d.table[j]) ensures d.table[j].query != d.table[i].query {
      if i < j { assert Apart(d.table[i], d.table[j]); } else { assert Apart(d.table[j], d.table[i]); }
    }
  }

  /** A query put into any entry. */
  lemma InsertedOk(d: Dns, k: nat, e: Entry, age: nat)
    requires Ok(d) && k < |d.table| && e.query == d.accepted
    ensures Ok(d.(table := d.table[k := e], age := age, accepted := d.accepted + 1))
  {
    var r := d.(table := d.table[k := e], age := age, accepted := d.accepted + 1);
    forall i, j | 0 <= i < j < |r.table| ensures Apart(r.table[i], r.table[j]) {
      assert Open(d, d.table[i]) && Open(d, d.table[j]) && Apart(d.table[i], d.table[j]);
    }
    forall i | 0 <= i < |r.table| ensures Open(r, r.table[i]) { assert Open(d, d.table[i]); }
  }

  /** A callback and the flushing of its entry, whatever the application does in the callback. */
  lemma FlushedAfterOk(d: Dns, i: nat, again: bool)
    requires i < |d.table| && Pending(d, i) && Ok(d.(table := d.table[i := d.table[i].(phase := Unused)]))
    ensures Ok(FlushedAfter(d, i, again))
  {
    hide Ok, Slot;
    var u := d.(table := d.table[i := d.table[i].(phase := Unused)]);
    var r := FlushedAfter(d, i, again);
    if !d.table[i].found {
      ChangedOk(u, i, r.table[i]);
      assert u.table[i := r.table[i]] == r.table;
    } else {
      var c := d.(calls := d.calls + [d.table[i].query]);
      var w := u.(calls := c.calls);
      LoggedOk(u, i);
      var k := Slot(c);
      if again && k < |c.table| {
        var e := Enqueued(c, true).table[k];
        InsertedOk(w, k, e, (c.age + 1) % 256);
        var x := w.(table := w.table[k := e], age := (c.age + 1) % 256, accepted := c.accepted + 1);
        ChangedOk(x, i, r.table[i]);
        assert x.table[i := r.table[i]] == r.table;
      } else {
        ChangedOk(w, i, r.table[i]);
        assert w.table[i := r.table[i]] == r.table;
      }
    }
  }

  lemma CheckOk(d: Dns, i: nat, r: nat, again: bool)
    requires Ok(d) && i < |d.table|
    ensures Ok(Check(d, i, r, again)) && |Check(d, i, r, again).table| == |d.table|
  {
    hide Ok, FlushedAfter;
    var (e, out) := Ticked(d.table[i], d.servers, r);
    ChangedOk(d, i, e);
    var c := d.(table := d.table[i := e]);
    if out {
      OpenIsPending(c, i);
      ChangedOk(c, i, e.(phase := Unused));
      FlushedAfterOk(c, i, again);
    }
  }

  lemma {:induction false} CheckFromOk(d: Dns, i: nat, r: nat, again: nat -> bool)
    requires Ok(d) && i <= |d.table|
    ensures Ok(CheckFrom(d, i, r, again))
    decreases |d.table| - i
  {
    hide Ok, Check;
    if i < |d.table| {
      CheckOk(d, i, r, again(i));
      CheckFromOk(Check(d, i, r, again(i)), i + 1, r, again);
    }
  }

  lemma RepliedOk(d: Dns, i: nat, m: Reply, again: bool)
    requires Ok(d)
    ensures Ok(Replied(d, i, m, again)) && |Replied(d, i, m, again).table| == |d.table|
  {
    hide Ok, FlushedAfter, Enqueued;
    if i < |d.table| && d.table[i].phase == Asking {
      OpenIsPending(d, i);
      var e := d.table[i].(phase := Done);
      var f := if m.Failure? then e else e.(ttl := if m.ttl > DNS_MAX_TTL then DNS_MAX_TTL else m.ttl);
      var c := d.(table := d.table[i := f]);
      ChangedOk(d, i, f);
      if m.Failure? {
        ChangedOk(c, i, f.(phase := Unused));
        FlushedAfterOk(c, i, again);
      } else {
        LoggedOk(c, i);
        EnqueuedOk(c.(calls := c.calls + [f.query]), true);
      }
    }
  }

  // ---------- Runs ----------

  datatype Event = Tick(again: nat -> bool) | Query(found: bool) | Message(i: nat, m: Reply, more: bool)

  function Step(d: Dns, ev: Event): (c: Dns)
    ensures |c.table| == |d.table|
  {
    match ev
    case Tick(again) => CheckFrom(d, 0, DNS_MAX_RETRIES, again)
    case Query(found) => Enqueued(d, found)
    case Message(i, m, more) => Replied(d, i, m, more)
  }

  function Run(d: Dns, evs: seq<Event>): (c: Dns)
    ensures |c.table| == |d.table|
    decreases |evs|
  {
    if evs == [] then d else Run(Step(d, evs[0]), evs[1..])
  }

  /** Over every interleaving of queries, ticks and messages, no query is called back twice. */
  lemma {:induction false} RunOk(d: Dns, evs: seq<Event>)
    requires Ok(d)
    ensures Ok(Run(d, evs))
    decreases |evs|
  {
    hide Ok, Enqueued, Replied, CheckFrom;
    if evs != [] {
      match evs[0] {
        case Tick(again) => CheckFromOk(d, 0, DNS_MAX_RETRIES, again);
        case Query(found) => EnqueuedOk(d, found);
        case Message(i, m, more) => RepliedOk(d, i, m, more);
      }
      RunOk(Step(d, evs[0]), evs[1..]);
    }
  }

  // ---------- Ages ----------

  /** An entry in use carries the low eight bits of its query number as its age. */
  predicate AgeIs(d: Dns, e: Entry) { e.phase != Unused ==> e.query < d.accepted && e.age == e.query % 256 }

  ghost predicate Dated(d: Dns) {
    d.age == d.accepted % 256 && forall i :: 0 <= i < |d.table| ==> AgeIs(d, d.table[i])
  }

  lemma EnqueuedDated(d: Dns, found: bool)
    requires Dated(d)
    ensures Dated(Enqueued(d, found))
  {
    hide Slot;
    NextAge(d.accepted);
  }

  lemma NextAge(n: nat)
    ensures (n % 256 + 1) % 256 == (n + 1) % 256
  {
  }

  lemma CalledDated(d: Dns, i: nat, again: bool)
    requires Dated(d) && i < |d.table|
    ensures Dated(Called(d, i, again)) && Dated(FlushedAfter(d, i, again))
  {
    hide Enqueued;
    var c := d.(calls := d.calls + [d.table[i].query]);
    assert forall e: Entry :: AgeIs(c, e) <==> AgeIs(d, e);
    EnqueuedDated(c, true);
    CalledSize(d, i, again);
  }

  lemma CalledSize(d: Dns, i: nat, again: bool)
    requires i < |d.table|
    ensures |Called(d, i, again).table| == |d.table|
  {
  }

  lemma CheckDated(d: Dns, i: nat, r: nat, again: bool)
    requires Dated(d) && i < |d.table|
    ensures Dated(Check(d, i, r, again))
  {
    hide FlushedAfter;
    assert AgeIs(d, d.table[i]);
    var (e, out) := Ticked(d.table[i], d.servers, r);
    var c := d.(table := d.table[i := e]);
    assert forall f: Entry :: AgeIs(c, f) <==> AgeIs(d, f);
    if out { CalledDated(c, i, again); }
  }

  lemma {:induction false} CheckFromDated(d: Dns, i: nat, r: nat, again: nat -> bool)
    requires Dated(d) && i <= |d.table|
    ensures Dated(CheckFrom(d, i, r, again))
    decreases |d.table| - i
  {
    hide Check, Dated;
    if i < |d.table| {
      CheckDated(d, i, r, again(i));
      CheckTable(d, i, r, again(i));
      CheckFromDated(Check(d, i, r, again(i)), i + 1, r, again);
    }
  }

  lemma CheckTable(d: Dns, i: nat, r: nat, again: bool)
    requires i < |d.table|
    ensures |Check(d, i, r, again).table| == |d.table|
  {
  }

  lemma RepliedDated(d: Dns, i: nat, m: Reply, again: bool)
    requires Dated(d)
    ensures Dated(Replied(d, i, m, again))
  {
    hide FlushedAfter, Called;
    if i < |d.table| && d.table[i].phase == Asking {
      assert AgeIs(d, d.table[i]);
      var e := d.table[i].(phase := Done);
      var f := if m.Failure? then e else e.(ttl := if m.ttl > DNS_MAX_TTL then DNS_MAX_TTL else m.ttl);
      var c := d.(table := d.table[i := f]);
      assert forall g: Entry :: AgeIs(c, g) <==> AgeIs(d, g);
      CalledDated(c, i, again);
    }
  }

  /** Over every run ages are query numbers. */
  lemma {:induction false} RunDated(d: Dns, evs: seq<Event>)
    requires Dated(d)
    ensures Dated(Run(d, evs))
    decreases |evs|
  {
    hide Dated, Enqueued, Replied, CheckFrom;
    if evs != [] {
      match evs[0] {
        case Tick(again) => CheckFromDated(d, 0, DNS_MAX_RETRIES, again);
        case Query(found) => EnqueuedDated(d, found);
        case Message(i, m, more) => RepliedDated(d, i, m, more);
      }
      RunDated(Step(d, evs[0]), evs[1..]);
    }
  }

  /** As long as the completed entries and the next query have numbers with the same high bits, a new query that finds no
      unused entry takes the completed one with the oldest query. */
  lemma TakesOldest(d: Dns)
    requires Dated(d) && (forall i :: 0 <= i < |d.table| ==> d.table[i].phase != Unused)
    requires forall i :: 0 <= i < |d.table| && d.table[i].phase == Done ==> d.table[i].query / 256 == d.accepted / 256
    ensures Slot(d) < |d.table| <==> exists i :: 0 <= i < |d.table| && d.table[i].phase == Done
    ensures Slot(d) < |d.table| ==>
              && d.table[Slot(d)].phase == Done
              && forall i :: 0 <= i < |d.table| && d.table[i].phase == Done ==> d.table[Slot(d)].query <= d.table[i].query
  {
    hide Oldest, FirstUnused;
    if d.table != [] {
      forall i | 0 <= i < |d.table| && d.table[i].phase == Done
        ensures d.table[i].age == d.table[i].query % 256 && d.table[i].query < d.accepted && d.table[i].age < d.age
      {
        assert AgeIs(d, d.table[i]);
      }
      OldestIs(d.table, d.age, |d.table|);
    }
  }
}
