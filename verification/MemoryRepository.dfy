/** The in-memory memory repository and its audit list. */
module MemoryRepository {
  import opened Ordering
  import opened MemoryRetention

  datatype EventKind = Compressed | ArchivedEvent | TombstonedEvent | PurgedEvent | CooledDown

  datatype AuditEvent = AuditEvent(kind: EventKind, tenant: nat, user: nat, memoryId: Id, reason: Reason, createdAt: Time)

  function CountKind(events: seq<AuditEvent>, kind: EventKind): nat {
    if events == [] then 0
    else CountKind(events[..|events| - 1], kind) + (if events[|events| - 1].kind == kind then 1 else 0)
  }

  lemma {:induction false} CountKindAdds(a: seq<AuditEvent>, b: seq<AuditEvent>, kind: EventKind)
    ensures CountKind(a + b, kind) == CountKind(a, kind) + CountKind(b, kind)
  {
    if b == [] {
      assert a + b == a;
    } else {
      var n := |b| - 1;
      CountKindAdds(a, b[..n], kind);
      assert (a + b)[..|a + b| - 1] == a + b[..n];
    }
  }

  /** `records` lists the store: every record once. */
  ghost predicate Listing(records: seq<Record>, m: Store) {
    && StoreOk(m) && Distinct(records)
    && (forall r :: r in records <==> r.id in m && m[r.id] == r)
  }

  /** Records by id in insertion order, an append-only audit list, and a source of unused ids. */
  class InMemoryMemoryRepository {
    var records: Store
    var order: seq<Id>
    var audit: seq<AuditEvent>
    var nextId: Id

    ghost predicate Valid()
      reads this
    {
      && StoreOk(records) && Distinct(order)
      && (forall id {:trigger id in order} :: id in order <==> id in records)
      && (forall id :: id in records ==> id < nextId)
    }

    constructor ()
      ensures Valid() && records == map[] && audit == []
    {
      records, order, audit, nextId := map[], [], [], 0;
    }

    method NewId() returns (id: Id)
      requires Valid()
      modifies this`nextId
      ensures Valid() && id !in records && id == old(nextId) && nextId == id + 1
    {
      id := nextId;
      nextId := nextId + 1;
    }

    method Upsert(r: Record)
      requires Valid() && r.id < nextId
      modifies this`records, this`order
      ensures Valid() && records == old(records)[r.id := r]
    {
      if r.id !in records {
        DistinctAppend(order, r.id);
        order := order + [r.id];
      }
      records := records[r.id := r];
    }

    method Delete(id: Id) returns (found: bool)
      requires Valid()
      modifies this`records, this`order
      ensures Valid() && found == (id in old(records)) && records == old(records) - {id}
    {
      found := id in records;
      if found {
        assert id in order;
        var i :| 0 <= i < |order| && order[i] == id;
        order := order[..i] + order[i + 1..];
        records := records - {id};
        forall k ensures k in order <==> k in records {
          if k in old(order) && k != id {
            var j :| 0 <= j < |old(order)| && old(order)[j] == k;
            assert order[if j < i then j else j - 1] == k;
          }
        }
      }
    }

    method ListAll() returns (list: seq<Record>)
      requires Valid()
      ensures Listing(list, records)
      ensures |list| == |order| && forall i :: 0 <= i < |list| ==> order[i] in records && list[i] == records[order[i]]
    {
      list := [];
      for i := 0 to |order|
        invariant |list| == i && forall k :: 0 <= k < i ==> order[k] in records && list[k] == records[order[k]]
      {
        assert order[i] in order;
        list := list + [records[order[i]]];
      }
      forall r: Record | r.id in records && records[r.id] == r ensures r in list {
        assert r.id in order;
        var k :| 0 <= k < |order| && order[k] == r.id;
        assert list[k] == r;
      }
    }

    method AppendAudit(kind: EventKind, r: Record, reason: Reason, now: Time)
      modifies this`audit
      ensures audit == old(audit) + [AuditEvent(kind, r.tenant, r.user, r.id, reason, now)]
    {
      audit := audit + [AuditEvent(kind, r.tenant, r.user, r.id, reason, now)];
    }
  }
}
