/** Request extensions, where the first value per type wins, and the gates that fill them. */
module Extensions {
  import opened Bytes

  type TypeId = nat
  type Value = nat

  datatype Entry = Entry(id: TypeId, value: Value)

  predicate HasType(entries: seq<Entry>, id: TypeId) {
    exists i :: 0 <= i < |entries| && entries[i].id == id
  }

  /** The entries after one insert: unchanged when the type is there already. */
  function Inserted(entries: seq<Entry>, e: Entry): seq<Entry> {
    if HasType(entries, e.id) then entries else entries + [e]
  }

  function InsertedAll(entries: seq<Entry>, inserts: seq<Entry>): seq<Entry>
    decreases |inserts|
  {
    if inserts == [] then entries else InsertedAll(Inserted(entries, inserts[0]), inserts[1..])
  }

  function Lookup(entries: seq<Entry>, id: TypeId): Option<Value> {
    if entries == [] then None
    else if entries[0].id == id then Some(entries[0].value)
    else Lookup(entries[1..], id)
  }

  lemma {:induction false} InsertedAllAppend(entries: seq<Entry>, a: seq<Entry>, b: seq<Entry>)
    ensures InsertedAll(entries, a + b) == InsertedAll(InsertedAll(entries, a), b)
    decreases |a|
  {
    if a == [] {
      assert a + b == b;
    } else {
      assert (a + b)[1..] == a[1..] + b;
      InsertedAllAppend(Inserted(entries, a[0]), a[1..], b);
    }
  }

  lemma {:induction false} LookupAppend(a: seq<Entry>, b: seq<Entry>, id: TypeId)
    ensures Lookup(a + b, id) == if HasType(a, id) then Lookup(a, id) else Lookup(b, id)
    ensures HasType(a, id) <==> Lookup(a, id).Some?
  {
    if a == [] {
      assert a + b == b;
    } else {
      assert (a + b)[1..] == a[1..] + b;
      LookupAppend(a[1..], b, id);
      assert HasType(a, id) <==> a[0].id == id || HasType(a[1..], id) by {
        if HasType(a[1..], id) {
          var i :| 0 <= i < |a[1..]| && a[1..][i].id == id;
          assert a[i + 1].id == id;
        }
        if HasType(a, id) && a[0].id != id {
          var i :| 0 <= i < |a| && a[i].id == id;
          assert a[1..][i - 1].id == id;
        }
      }
    }
  }

  /**
    First insert wins: after any inserts, the value of a type is the one that was
    there before, or else the first one inserted with that type. `Lookup` on the
    list of attempted inserts finds exactly the first attempt.
   */
  lemma {:induction false} FirstInsertWins(entries: seq<Entry>, inserts: seq<Entry>, id: TypeId)
    ensures Lookup(InsertedAll(entries, inserts), id) == Lookup(entries + inserts, id)
    decreases |inserts|
  {
    if inserts == [] {
      assert entries + inserts == entries;
    } else {
      var e := inserts[0];
      FirstInsertWins(Inserted(entries, e), inserts[1..], id);
      LookupAppend(entries, inserts, id);
      LookupAppend(Inserted(entries, e), inserts[1..], id);
      LookupAppend(entries, [e], id);
      LookupAppend([e], inserts[1..], id);
      assert [e] + inserts[1..] == inserts;
      assert HasType([e], id) <==> e.id == id by {
        assert [e][0] == e;
      }
    }
  }

  /** What that means for a reader: the first insert of a type not there before is what is seen. */
  lemma FirstInsertIsSeen(entries: seq<Entry>, inserts: seq<Entry>, k: nat)
    requires k < |inserts|
    requires forall i :: 0 <= i < |entries| ==> entries[i].id != inserts[k].id
    requires forall i :: 0 <= i < k ==> inserts[i].id != inserts[k].id
    ensures Lookup(InsertedAll(entries, inserts), inserts[k].id) == Some(inserts[k].value)
  {
    FirstInsertWins(entries, inserts, inserts[k].id);
    var all := entries + inserts;
    assert all[|entries| + k] == inserts[k];
    LookupFirst(all, |entries| + k);
  }

  lemma {:induction false} LookupFirst(entries: seq<Entry>, k: nat)
    requires k < |entries| && forall i :: 0 <= i < k ==> entries[i].id != entries[k].id
    ensures Lookup(entries, entries[k].id) == Some(entries[k].value)
  {
    if k > 0 {
      LookupFirst(entries[1..], k - 1);
    }
  }

  predicate DistinctTypes(entries: seq<Entry>) {
    forall i, j :: 0 <= i < j < |entries| ==> entries[i].id != entries[j].id
  }

  /** No type is there twice, whatever is inserted. */
  lemma {:induction false} TypesStayDistinct(entries: seq<Entry>, inserts: seq<Entry>)
    requires DistinctTypes(entries)
    ensures DistinctTypes(InsertedAll(entries, inserts))
    decreases |inserts|
  {
    if inserts != [] {
      TypesStayDistinct(Inserted(entries, inserts[0]), inserts[1..]);
    }
  }

  class RequestExtensions {
    var entries: seq<Entry>

    constructor ()
      ensures entries == []
    {
      entries := [];
    }

    /** Adds a value unless its type is taken; then the value is handed back. */
    method Insert(e: Entry) returns (r: Result<(), Value>)
      modifies this
      ensures entries == Inserted(old(entries), e)
      ensures r == if HasType(old(entries), e.id) then Err(e.value) else Ok(())
      ensures r.Err? <==> exists i :: 0 <= i < |old(entries)| && old(entries)[i].id == e.id
      ensures r.Ok? ==> Lookup(entries, e.id) == Some(e.value)
    {
      if HasType(entries, e.id) {
        return Err(e.value);
      }
      LookupFirst(entries + [e], |entries|);
      entries := entries + [e];
      return Ok(());
    }
  }

  /** A gate's inserts, in the order it makes them. */
  method InsertAll(ext: RequestExtensions, inserts: seq<Entry>)
    modifies ext
    ensures ext.entries == InsertedAll(old(ext.entries), inserts)
  {
    ghost var before := ext.entries;
    for j := 0 to |inserts|
      invariant ext.entries == InsertedAll(before, inserts[..j])
    {
      assert inserts[..j + 1] == inserts[..j] + [inserts[j]];
      InsertedAllAppend(before, inserts[..j], [inserts[j]]);
      assert InsertedAll(ext.entries, [inserts[j]]) == Inserted(ext.entries, inserts[j]);
      var r := ext.Insert(inserts[j]);
    }
    assert inserts[..|inserts|] == inserts;
  }

  /** One call of a gate: what it tried to insert, and its verdict (`Some(status)` rejects). */
  datatype GateRun = GateRun(inserts: seq<Entry>, rejects: Option<nat>)

  function InsertsOf(gates: seq<GateRun>): seq<Entry> {
    if gates == [] then [] else gates[0].inserts + InsertsOf(gates[1..])
  }

  lemma {:induction false} InsertsOfSnoc(gates: seq<GateRun>, g: GateRun)
    ensures InsertsOf(gates + [g]) == InsertsOf(gates) + g.inserts
  {
    if gates == [] {
      assert InsertsOf([g]) == g.inserts + InsertsOf([]);
    } else {
      assert (gates + [g])[1..] == gates[1..] + [g];
      InsertsOfSnoc(gates[1..], g);
    }
  }

  /** How many gates run: up to and including the first that rejects. */
  function GatesCalled(gates: seq<GateRun>): (n: nat)
    ensures n <= |gates|
    ensures forall i :: 0 <= i < n - 1 ==> gates[i].rejects.None?
    ensures n < |gates| ==> n > 0 && gates[n - 1].rejects.Some?
  {
    if gates == [] then 0
    else if gates[0].rejects.Some? then 1
    else
      var n := 1 + GatesCalled(gates[1..]);
      assert forall i :: 1 <= i < |gates| ==> gates[i] == gates[1..][i - 1];
      n
  }
}
