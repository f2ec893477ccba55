/** The service's example entity and the simplest repository: a map, which the other repositories are compared with. */
module Repository {
  import opened Wrappers

  newtype int32 = n: int | -0x8000_0000 <= n < 0x8000_0000

  datatype Entity = Entity(id: string, string_property: string, int_property: int32)

  type Table = map<string, Entity>

  function Upsert(table: Table, e: Entity): Table {
    table[e.id := e]
  }

  function Row(table: Table, id: string): Option<Entity> {
    if id in table then Some(table[id]) else None
  }

  /** Every row is stored under its own id. */
  ghost predicate Keyed(table: Table) {
    forall id :: id in table ==> table[id].id == id
  }

  class InMemoryRepo {
    var data: Table

    ghost predicate Valid() reads this {
      Keyed(data)
    }

    constructor ()
      ensures Valid() && data == map[]
    {
      data := map[];
    }

    method Store(e: Entity)
      requires Valid()
      modifies this
      ensures Valid() && data == Upsert(old(data), e)
      ensures e.id in data && data[e.id] == e
      ensures forall id :: id != e.id ==>
                (id in data <==> id in old(data)) && (id in data ==> data[id] == old(data)[id])
    {
      data := data[e.id := e];
    }

    method Retrieve(id: string) returns (e: Option<Entity>)
      requires Valid()
      ensures e == Row(data, id)
      ensures e.Some? <==> id in data
      ensures e.Some? ==> e.value == data[id] && e.value.id == id
    {
      if id !in data {
        return None;
      }
      e := Some(data[id]);
    }
  }
}
