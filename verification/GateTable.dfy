/**
 The reference-counted gate table of lockExternalAlertingWrite: what each of its four
 critical sections does to the table, and the class that performs them in place.
 */
module GateTable {
  import opened ExternalConfig

  /** One gate object: its reference count and whether its one-slot channel is full. */
  datatype Gate = Gate(refs: int, full: bool)

  /** The shared map and the gate objects it may point to. Ref is an object address. */
  datatype Table<Ref(==)> = Table(gates: map<WriteKey, Ref>, objects: map<Ref, Gate>)

  predicate Closed<Ref(==)>(table: Table<Ref>) {
    forall key | key in table.gates :: table.gates[key] in table.objects
  }

  /** Look up or create the entry, then count one more user of it. */
  function Enter<Ref(==)>(table: Table<Ref>, key: WriteKey, newGate: Ref): Table<Ref>
    requires Closed(table)
  {
    if key in table.gates then
      var gate := table.objects[table.gates[key]];
      table.(objects := table.objects[table.gates[key] := gate.(refs := gate.refs + 1)])
    else
      Table(table.gates[key := newGate], table.objects[newGate := Gate(1, false)])
  }

  function SetFull<Ref(==)>(table: Table<Ref>, gate: Ref, full: bool): Table<Ref>
    requires gate in table.objects
  {
    table.(objects := table.objects[gate := table.objects[gate].(full := full)])
  }

  /** Count one user less; the last one removes the key. */
  function Release<Ref(==)>(table: Table<Ref>, key: WriteKey, gate: Ref): Table<Ref>
    requires gate in table.objects
  {
    var refs := table.objects[gate].refs - 1;
    Table(if refs == 0 then table.gates - {key} else table.gates,
          table.objects[gate := table.objects[gate].(refs := refs)])
  }

  /** externalAlertingWriteGate: `gate` is a channel with one slot. */
  class GateObject {
    var refs: int
    var full: bool

    constructor ()
      ensures refs == 0 && !full
    {
      refs, full := 0, false;
    }
  }

  /** externalAlertingWrites. Each method is one section that runs under the mutex, or one channel operation. */
  class WriteGates {
    var gates: map<WriteKey, GateObject>
    ghost var objects: set<GateObject>  // every gate object made so far

    ghost predicate Valid()
      reads this
    {
      forall key | key in gates :: gates[key] in objects
    }

    ghost function View(): (table: Table<GateObject>)
      requires Valid()
      reads this, objects
    {
      Table(gates, map o | o in objects :: Gate(o.refs, o.full))
    }

    constructor ()
      ensures Valid() && View() == Table(map[], map[])
    {
      gates, objects := map[], {};
    }

    method EnterGate(key: WriteKey) returns (entry: GateObject)
      requires Valid()
      modifies this, objects
      ensures Valid() && objects == old(objects) + {entry}
      ensures entry in old(objects) || fresh(entry)
      ensures key in gates && gates[key] == entry
      ensures View() == Enter(old(View()), key, entry)
    {
      if key in gates {
        entry := gates[key];
      } else {
        entry := new GateObject();
        gates := gates[key := entry];
        objects := objects + {entry};
      }
      entry.refs := entry.refs + 1;
    }

    method TrySend(entry: GateObject) returns (sent: bool)
      requires Valid() && entry in objects
      modifies entry
      ensures Valid() && objects == old(objects) && sent == !old(entry.full)
      ensures View() == if sent then SetFull(old(View()), entry, true) else old(View())
    {
      sent := !entry.full;
      if sent {
        entry.full := true;
      }
      assert View().objects[entry] == Gate(entry.refs, entry.full);
    }

    method Receive(entry: GateObject)
      requires Valid() && entry in objects && entry.full
      modifies entry
      ensures Valid() && objects == old(objects)
      ensures View() == SetFull(old(View()), entry, false)
    {
      entry.full := false;
    }

    method ReleaseGate(key: WriteKey, entry: GateObject)
      requires Valid() && entry in objects
      modifies this, entry
      ensures Valid() && objects == old(objects)
      ensures View() == Release(old(View()), key, entry)
    {
      entry.refs := entry.refs - 1;
      if entry.refs == 0 {
        gates := gates - {key};
      }
    }
  }
}
