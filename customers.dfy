/** The customer store as the services see it: a map from customer id to name and
    email, looked up by id and by email. */
module CustomerRegistry {
  import opened Domain

  type Customers = map<Id, CustomerRecord>

  /** No two customers share an email. */
  predicate UniqueEmails(customers: Customers)
  {
    forall a, b :: a in customers && b in customers && a != b ==> customers[a].email != customers[b].email
  }

  /** Some customer already has this email (what `findByEmail` finds). */
  predicate EmailTaken(customers: Customers, email: string)
  {
    exists id :: id in customers && customers[id].email == email
  }

  /** The ids of the customers with this email. */
  function WithEmail(customers: Customers, email: string): set<Id>
  {
    set id | id in customers && customers[id].email == email
  }

  /** `findById` on the customer store. */
  function CustomerById(customers: Customers, id: Id): (c: Option<Customer>)
    ensures c.Some? <==> id in customers
    ensures c.Some? ==> c.value.id == id && customers[id] == CustomerRecord(c.value.name, c.value.email)
  {
    if id in customers then Some(Customer(id, customers[id].name, customers[id].email)) else None
  }

  /** Storing a customer under a fresh id with an unused email keeps emails unique, and
      the new customer is then the only one with that email. */
  lemma RegistrationKeepsEmailsUnique(customers: Customers, id: Id, name: string, email: string)
    requires UniqueEmails(customers) && id !in customers && !EmailTaken(customers, email)
    ensures UniqueEmails(customers[id := CustomerRecord(name, email)])
    ensures WithEmail(customers[id := CustomerRecord(name, email)], email) == {id}
  {}
}
