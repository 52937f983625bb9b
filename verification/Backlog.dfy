/** Recovering, at a rebind, the connections the old listener never accepted. */
module Backlog {
  import opened Bytes

  /** A client's socket and address. */
  datatype Client = Client(id: nat)

  /** What the next non-blocking accept would yield. */
  datatype Entry = Connected(client: Client) | Failed

  class Semaphore {
    var available: nat

    constructor (permits: nat)
      ensures available == permits
    {
      available := permits;
    }

    method TryAcquire() returns (ok: bool)
      modifies this
      ensures ok <==> old(available) > 0
      ensures available == if ok then old(available) - 1 else old(available)
    {
      ok := available > 0;
      if ok {
        available := available - 1;
      }
    }

    method Release()
      modifies this
      ensures available == old(available) + 1
    {
      available := available + 1;
    }
  }

  class Listener {
    var backlog: seq<Entry>

    constructor (entries: seq<Entry>)
      ensures backlog == entries
    {
      backlog := entries;
    }

    /** One poll: `None` when nothing waits. */
    method PollAccept() returns (r: Option<Entry>)
      modifies this
      ensures old(backlog) == [] ==> r == None && backlog == []
      ensures old(backlog) != [] ==> r == Some(old(backlog)[0]) && backlog == old(backlog)[1..]
    {
      if backlog == [] {
        r := None;
      } else {
        r := Some(backlog[0]);
        backlog := backlog[1..];
      }
    }
  }

  /** How many connections wait in front of the first failure. */
  function Unbroken(entries: seq<Entry>): (n: nat)
    ensures n <= |entries|
    ensures forall i :: 0 <= i < n ==> entries[i].Connected?
    ensures n < |entries| ==> entries[n].Failed?
  {
    if entries == [] || entries[0].Failed? then 0 else 1 + Unbroken(entries[1..])
  }

  function Clients(entries: seq<Entry>): (clients: seq<Client>)
    requires forall e :: e in entries ==> e.Connected?
    ensures |clients| == |entries| && forall i :: 0 <= i < |entries| ==> Connected(clients[i]) == entries[i]
  {
    if entries == [] then [] else [entries[0].client] + Clients(entries[1..])
  }

  lemma ClientsUpTo(entries: seq<Entry>, k: nat)
    requires 0 < k <= |entries| && forall i :: 0 <= i < k ==> entries[i].Connected?
    ensures Clients(entries[..k]) == Clients(entries[..k - 1]) + [entries[k - 1].client]
  {
    hide Clients;
    var all, front := Clients(entries[..k]), Clients(entries[..k - 1]);
    forall i | 0 <= i < k ensures all[i] == (front + [entries[k - 1].client])[i] {
      assert Connected(all[i]) == entries[..k][i];
      if i < k - 1 {
        assert Connected(front[i]) == entries[..k - 1][i];
      }
    }
  }

  /** How many connections are recovered: as many as the limit, the permits and the backlog allow. */
  function Recovered(entries: seq<Entry>, permits: nat, limit: nat): nat {
    Min(limit, Min(permits, Unbroken(entries)))
  }

  /** A failed accept is consumed only if the loop came as far as polling it. */
  function Consumed(entries: seq<Entry>, permits: nat, limit: nat): (n: nat)
    ensures n <= |entries|
  {
    var r := Recovered(entries, permits, limit);
    if r < limit && r < permits && r < |entries| then r + 1 else r
  }

  /** The number of entries ahead of the first failure is determined by any such split. */
  lemma {:induction false} UnbrokenUnique(entries: seq<Entry>, n: nat)
    requires n <= |entries|
    requires forall i :: 0 <= i < n ==> entries[i].Connected?
    requires n < |entries| ==> entries[n].Failed?
    ensures Unbroken(entries) == n
  {
    if n > 0 {
      UnbrokenUnique(entries[1..], n - 1);
    }
  }

  /**
    Recovers connections in backlog order, each with a permit of its own, without
    ever waiting; every other permit is still free afterwards.
   */
  method DrainListenerBacklog(listener: Listener, limit: nat, semaphore: Semaphore) returns (drained: seq<Client>)
    modifies listener, semaphore
    ensures var entries, permits := old(listener.backlog), old(semaphore.available);
            drained == Clients(entries[..Recovered(entries, permits, limit)])
    ensures semaphore.available + |drained| == old(semaphore.available)
    ensures var entries, permits := old(listener.backlog), old(semaphore.available);
            listener.backlog == entries[Consumed(entries, permits, limit)..]
  {
    hide Clients;
    hide Unbroken;
    drained := [];
    ghost var entries := listener.backlog;
    ghost var permits := semaphore.available;
    var rounds := 0;
    while rounds < limit
      invariant 0 <= rounds <= limit && rounds <= Unbroken(entries) && rounds <= permits
      invariant semaphore.available == permits - rounds
      invariant listener.backlog == entries[rounds..]
      invariant drained == Clients(entries[..rounds])
      decreases limit - rounds
    {
      var acquired := semaphore.TryAcquire();
      if !acquired {
        break;
      }
      var accepted := listener.PollAccept();
      match accepted
      case Some(Connected(client)) =>
        drained := drained + [client];
        rounds := rounds + 1;
        ClientsUpTo(entries, rounds);
      case _ =>
        semaphore.Release();
        UnbrokenUnique(entries, rounds);
        break;
    }
  }
}
