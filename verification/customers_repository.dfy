/** The customer store. Its repository source is not part of this model; the
    services use it only to look customers up by id or email and to add one. */
module CustomersRepository {
  import opened Outcomes

  datatype Customer = Customer(id: string, name: string, email: string)

  predicate KeyedById(s: map<string, Customer>) {
    forall id :: id in s ==> s[id].id == id
  }

  type CustomerStore = s: map<string, Customer> | KeyedById(s) witness map[]

  /** No two stored customers share an email. */
  predicate EmailsUnique(store: CustomerStore) {
    forall a, b :: a in store && b in store && a != b ==> store[a].email != store[b].email
  }

  /** `findById`: the customer stored under `id`, if any. */
  function FindById(store: CustomerStore, id: string): (r: Option<Customer>)
    ensures r.Some? <==> id in store
    ensures r.Some? ==> r.value.id == id && store[id] == r.value
  {
    if id in store then Some(store[id]) else None
  }

  /** `findByEmail`: some customer with that email, or nothing when none has it. */
  method FindByEmail(store: CustomerStore, email: string) returns (r: Option<Customer>)
    ensures r.Some? ==> r.value.email == email && r.value.id in store && store[r.value.id] == r.value
    ensures r.None? <==> forall id :: id in store ==> store[id].email != email
  {
    var pending := store.Keys;
    while pending != {}
      invariant pending <= store.Keys
      invariant forall id :: id in store && id !in pending ==> store[id].email != email
      decreases pending
    {
      var id :| id in pending;
      if store[id].email == email {
        return Some(store[id]);
      }
      pending := pending - {id};
    }
    return None;
  }

  /** `create`: stores a new customer under a freshly generated id (the parameter `newId`). */
  function Create(store: CustomerStore, newId: string, name: string, email: string): (r: (Customer, CustomerStore))
    requires newId !in store
    ensures r.0.id == newId && r.0.name == name && r.0.email == email
    ensures r.1.Keys == store.Keys + {newId} && r.1[newId] == r.0
    ensures forall id :: id in store ==> r.1[id] == store[id]
  {
    var c := Customer(newId, name, email);
    (c, store[newId := c])
  }
}
