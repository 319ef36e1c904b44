/** Handles and their names together (skynet/skynet-src/skynet_handle.c). */
module HandleRegistry {
  import opened Handles
  import opened HandleNames

  class Registry {
    const table: HandleStorage
    const names: NameTable

    ghost predicate Valid()
      reads table, table.slot, names, names.names
    {
      table.Valid() && names.Valid()
    }

    /** All names with their handles. */
    ghost function Names(): seq<HandleName>
      requires Valid()
      reads table, table.slot, names, names.names
    {
      names.names[..names.count]
    }

    constructor (harbor: nat)
      ensures Valid() && fresh(table) && fresh(names) && fresh(table.slot) && fresh(names.names)
      ensures Names() == [] && forall h: Handle :: !table.Live(h)
    {
      table := new HandleStorage(harbor);
      names := new NameTable();
    }

    /** `skynet_handle_retire`: a handle in the table leaves it together with all its names, and with
        no others; nothing happens for any other handle. */
    method Retire(handle: Handle) returns (ok: bool)
      requires Valid()
      modifies table.slot, names`count, names.names
      ensures Valid() && ok == old(table.Live(handle))
      ensures forall h: Handle :: table.Live(h) <==> old(table.Live(h)) && h != handle
      ensures forall n :: n in Names() <==> n in old(Names()) && (ok ==> n.handle != handle)
    {
      ok := table.Remove(handle);
      if ok {
        names.RemoveNames(handle);
      }
    }
  }
}
