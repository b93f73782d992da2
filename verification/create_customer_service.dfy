/** The create-customer service: adds a customer unless the email is already taken. */
module CreateCustomerService {
  import opened Outcomes
  import opened CustomersRepository

  const EmailTaken: string := "Customer already booked with name"

  /** `execute`: rejects an email some stored customer already has, leaving the store
      untouched; otherwise adds exactly one customer with the given name and email.
      The id the database would generate is the parameter `newId`. */
  method Execute(store: CustomerStore, newId: string, name: string, email: string)
    returns (r: Step<Customer, CustomerStore>)
    requires newId !in store
    ensures r.result.Err? <==> exists id :: id in store && store[id].email == email
    ensures r.result.Err? ==> r.result.error == AppError(EmailTaken, None) && r.state == store
    ensures r.result.Ok? ==> r.result.value == Customer(newId, name, email)
    ensures r.result.Ok? ==> r.state.Keys == store.Keys + {newId} && r.state[newId] == r.result.value
    ensures forall id :: id in store ==> id in r.state && r.state[id] == store[id]
    ensures EmailsUnique(store) ==> EmailsUnique(r.state)
  {
    var existing := FindByEmail(store, email);
    if existing.Some? {
      return Step(Err(AppError(EmailTaken, None)), store);
    }
    var (customer, after) := Create(store, newId, name, email);
    return Step(Ok(customer), after);
  }
}
