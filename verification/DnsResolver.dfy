/** The resolver: a table of queries updated by a timer and by replies. */
module DnsResolver {
  import opened DnsState

  class Resolver {
    var table: seq<Entry>
    var servers: seq<bool>
    var age: nat
    var accepted: nat
    var calls: seq<nat>        // callbacks made

    ghost function Abs(): Dns
      reads this
    {
      Dns(table, servers, age, accepted, calls)
    }

    ghost predicate Valid()
      reads this
    {
      Ok(Abs()) && table != [] && age < 256
    }

    constructor (size: nat, servers: seq<bool>)
      requires size > 0
      ensures Valid() && |table| == size && calls == [] && this.servers == servers
    {
      table := seq(size, _ => Entry(Unused, 0, 0, 0, 0, 0, false, 0));
      this.servers, age, accepted, calls := servers, 0, 0, [];
    }

    /** The first unused entry, else the oldest completed one, else none. */
    method FindSlot() returns (k: nat)
      requires age < 256 && table != []
      ensures k == Slot(Abs())
    {
      var most, which := 0, 0;
      k := 0;
      while k < |table|
        invariant 0 <= k <= |table| && (forall j :: 0 <= j < k ==> table[j].phase != Unused)
        invariant (which, most) == Oldest(table, age, k) && most < 256
      {
        if table[k].phase == Unused {
          UnusedAt(table, k);
          return;
        }
        if table[k].phase == Done {
          if age - table[k].age > most {
            most := (age - table[k].age) % 256;
            which := k;
          }
        }
        k := k + 1;
      }
      UnusedAt(table, k);
      if table[which].phase == Done {
        k := which;
      }
    }

    /** `dns_enqueue`: the query is given the next number, unless the table is full. */
    method Enqueue(found: bool) returns (ok: bool)
      requires age < 256 && table != []
      modifies this`table, this`age, this`accepted
      ensures Abs() == Enqueued(old(Abs()), found) && age < 256 && |table| == |old(table)|
      ensures ok <==> Slot(old(Abs())) < |old(table)|
      ensures old(Valid()) ==> Valid()
    {
      hide Slot, Ok;
      if Ok(Abs()) { EnqueuedOk(Abs(), found); }
      var k := FindSlot();
      ok := k < |table|;
      if ok {
        table := table[k := table[k].(phase := New, age := age, found := found, query := accepted)];
        age, accepted := (age + 1) % 256, accepted + 1;
        table := table[k := table[k].(phase := Asking, server := 0, tmr := 1, retries := 0)];
      }
    }

    /** Makes the callback of an entry, in which the application may enqueue another query. */
    method Callback(i: nat, again: bool)
      requires i < |table| && age < 256
      modifies this`table, this`age, this`accepted, this`calls
      ensures Abs() == Called(old(Abs()), i, again) && age < 256 && |table| == |old(table)|
    {
      hide Slot, Enqueued, Ok;
      if table[i].found {
        calls := calls + [table[i].query];
        if again {
          var ok := Enqueue(true);
        }
      }
    }

    method Flush(i: nat)
      requires i < |table|
      modifies this`table
      ensures Abs() == Flushed(old(Abs()), i)
    {
      table := table[i := table[i].(phase := Unused, found := false)];
    }

    /** `dns_check_entry`. */
    method CheckEntry(i: nat, again: bool)
      requires i < |table| && age < 256
      modifies this`table, this`age, this`accepted, this`calls
      ensures Abs() == Check(old(Abs()), i, DNS_MAX_RETRIES, again) && age < 256 && |table| == |old(table)|
    {
      hide Slot, Called, Ok;
      var e := table[i];
      match e.phase {
        case New =>
          table := table[i := e.(phase := Asking, server := 0, tmr := 1, retries := 0)];
        case Asking =>
          e := e.(tmr := (e.tmr - 1) % 256);
          if e.tmr != 0 {
            table := table[i := e];
            return;
          }
          e := e.(retries := (e.retries + 1) % 256);
          if e.retries != DNS_MAX_RETRIES {
            table := table[i := e.(tmr := e.retries)];
          } else if e.server + 1 < |servers| && servers[e.server + 1] {
            table := table[i := e.(server := e.server + 1, tmr := 1, retries := 0)];
          } else {
            table := table[i := e];
            Callback(i, again);
            Flush(i);
          }
        case Done =>
          table := table[i := e.(ttl := (e.ttl - 1) % U32)];
          if table[i].ttl == 0 { Flush(i); }
        case Unused =>
          assert table[i := e] == table;
      }
    }

    /** `dns_check_entries`. */
    method CheckEntries(again: nat -> bool)
      requires Valid()
      modifies this`table, this`age, this`accepted, this`calls
      ensures Abs() == CheckFrom(old(Abs()), 0, DNS_MAX_RETRIES, again) && Valid()
    {
      hide Ok, Check;
      CheckFromOk(Abs(), 0, DNS_MAX_RETRIES, again);
      var i := 0;
      while i < |table|
        invariant 0 <= i <= |table| == |old(table)| && age < 256
        invariant CheckFrom(Abs(), i, DNS_MAX_RETRIES, again) == CheckFrom(old(Abs()), 0, DNS_MAX_RETRIES, again)
      {
        CheckEntry(i, again(i));
        i := i + 1;
      }
    }

    /** `dns_recv`, from the point where the message has been read. */
    method Receive(i: nat, m: Reply, again: bool)
      requires Valid()
      modifies this`table, this`age, this`accepted, this`calls
      ensures Abs() == Replied(old(Abs()), i, m, again) && Valid()
    {
      hide Slot, Called, Ok;
      RepliedOk(Abs(), i, m, again);
      if i < |table| && table[i].phase == Asking {
        table := table[i := table[i].(phase := Done)];
        match m {
          case Failure =>
            Callback(i, again);
            Flush(i);
          case Answer(ttl) =>
            table := table[i := table[i].(ttl := if ttl > DNS_MAX_TTL then DNS_MAX_TTL else ttl)];
            assert table == old(table)[i := table[i]];
            Callback(i, again);
        }
      }
    }
  }

  lemma UnusedAt(t: seq<Entry>, k: nat)
    requires k <= |t| && (k < |t| ==> t[k].phase == Unused) && forall j :: 0 <= j < k ==> t[j].phase != Unused
    ensures FirstUnused(t) == k
  {
  }
}
