/**
 * CustomerService: the people who book trips. Customers are saved under
 * their own id; null customers and updates of missing ids are rejected.
 */
module CustomerServices {
  import opened Wrappers
  import opened JavaLang
  import opened Domain
  import opened Repository

  type Customers = map<int, Customer>

  /** Every customer is stored under its own id. */
  predicate KeysMatch(m: Customers) {
    forall k :: k in m ==> m[k].id == k
  }

  /** The ids whose customer is called `name`. */
  function IdsNamed(m: Customers, name: string): set<int> {
    set k | k in m && m[k].customerName == name
  }

  /** customerRepository.findByCustomerName: the first customer with exactly that name, or null. */
  function CustomerNamed(m: Customers, name: string): (r: Option<Customer>)
    ensures r.None? <==> forall k :: k in m ==> m[k].customerName != name
    ensures r.Some? ==> r.value.customerName == name && exists k :: k in m && m[k] == r.value
  {
    var ids := IdsNamed(m, name);
    if ids == {} then
      assert forall k :: k in m && m[k].customerName == name ==> k in ids;
      None
    else
      var k := MinOf(ids);
      Some(m[k])
  }

  /** save(customer): the new store, or the message of the IllegalArgumentException. */
  function Saved(m: Customers, customer: Option<Customer>): (r: Result<Customers, string>)
    ensures customer.None? <==> r.Failure?
    ensures customer.None? ==> r.error == "Customer cannot be null"
    ensures customer.Some? ==> r.value == m[customer.value.id := customer.value]
  {
    if customer.None? then Failure("Customer cannot be null")
    else Success(m[customer.value.id := customer.value])
  }

  /** update(customer): the new store, or the message of the IllegalArgumentException. */
  function Updated(m: Customers, customer: Option<Customer>): (r: Result<Customers, string>)
    ensures customer.None? ==> r == Failure("Customer cannot be null")
    ensures customer.Some? && customer.value.id !in m ==>
      r == Failure("Customer not found with ID: " + IntToString(customer.value.id))
    ensures r.Success? <==> customer.Some? && customer.value.id in m
    ensures r.Success? ==> r.value == m[customer.value.id := customer.value]
  {
    if customer.None? then Failure("Customer cannot be null")
    else if customer.value.id !in m then Failure("Customer not found with ID: " + IntToString(customer.value.id))
    else Success(m[customer.value.id := customer.value])
  }

  /** delete(customer): the store without the customer's id, or the message of the IllegalArgumentException. */
  function Deleted(m: Customers, customer: Option<Customer>): (r: Result<Customers, string>)
    ensures customer.None? <==> r.Failure?
    ensures customer.None? ==> r.error == "Customer cannot be null"
    ensures customer.Some? ==> r.value == m - {customer.value.id}
  {
    if customer.None? then Failure("Customer cannot be null")
    else Success(m - {customer.value.id})
  }

  /** CustomerService over its repository. */
  class CustomerService {
    const repo: MemoryRepository<Customer>

    constructor(repo: MemoryRepository<Customer>)
      ensures this.repo == repo
    {
      this.repo := repo;
    }

    method FindByCustomerName(customerName: string) returns (customer: Option<Customer>)
      ensures customer == CustomerNamed(repo.data, customerName)
    {
      customer := CustomerNamed(repo.data, customerName);
    }

    method FindById(id: int32) returns (customer: Option<Customer>)
      ensures customer == repo.FindById(id)
    {
      customer := repo.FindById(id);
    }

    /** The iterator's remaining elements collected into a list. */
    method FindAll() returns (customers: seq<Customer>)
      ensures customers == ValuesOf(repo.data)
    {
      customers := repo.FindAll();
    }

    method Save(customer: Option<Customer>) returns (outcome: Outcome)
      modifies repo
      ensures Saved(old(repo.data), customer).Success? ==>
        outcome == Pass && repo.data == Saved(old(repo.data), customer).value
      ensures Saved(old(repo.data), customer).Failure? ==>
        outcome == Fail(Saved(old(repo.data), customer).error) && repo.data == old(repo.data)
    {
      if customer.None? {
        return Fail("Customer cannot be null");
      }
      repo.Save(customer.value.id, customer.value);
      outcome := Pass;
    }

    method Update(customer: Option<Customer>) returns (outcome: Outcome)
      modifies repo
      ensures Updated(old(repo.data), customer).Success? ==>
        outcome == Pass && repo.data == Updated(old(repo.data), customer).value
      ensures Updated(old(repo.data), customer).Failure? ==>
        outcome == Fail(Updated(old(repo.data), customer).error) && repo.data == old(repo.data)
    {
      if customer.None? {
        return Fail("Customer cannot be null");
      }
      var existing := FindById(customer.value.id);
      if existing.None? {
        return Fail("Customer not found with ID: " + IntToString(customer.value.id));
      }
      repo.Update(customer.value.id, customer.value);
      outcome := Pass;
    }

    method Delete(customer: Option<Customer>) returns (outcome: Outcome)
      modifies repo
      ensures Deleted(old(repo.data), customer).Success? ==>
        outcome == Pass && repo.data == Deleted(old(repo.data), customer).value
      ensures Deleted(old(repo.data), customer).Failure? ==>
        outcome == Fail(Deleted(old(repo.data), customer).error) && repo.data == old(repo.data)
    {
      if customer.None? {
        return Fail("Customer cannot be null");
      }
      repo.Delete(customer.value.id);
      outcome := Pass;
    }
  }
}
