/** Properties of call sequences on a bank and on the shared instance: the count is the
    number of `addCustomer` calls, each slot holds the customer of the matching call, and
    later `getBank` calls neither replace nor reset the bank. */
module BankProperties {
  import opened Domain
  import opened Banks

  /** The state after `addCustomer` with each of `added` in order; all of them must fit. */
  function AddCustomers(b: BankState, added: seq<Customer>): (r: BankState)
    requires WellFormed(b) && b.numberOfCustomers + |added| <= Capacity
    ensures WellFormed(r)
    ensures Members(r) == Members(b) + added
    decreases |added|
  {
    if added == [] then
      assert Members(b) + added == Members(b);
      b
    else
      var r := AddCustomers(AddCustomer(b, added[0]), added[1..]);
      assert Members(b) + [added[0]] + added[1..] == Members(b) + added;
      r
  }

  /** The getters see a bank only through its members. */
  lemma GettersReadMembers(b: BankState, members: seq<Customer?>, i: int)
    requires WellFormed(b) && Members(b) == members && 0 <= i < Capacity
    ensures GetNumOfCustomers(b) == |members|
    ensures GetCustomer(b, i) == (if i < |members| then members[i] else null)
  {
  }

  /** A new bank given up to ten customers reports as many customers as calls, the i-th
      added customer at index i, and `null` at every later index of the array. */
  lemma NewBankAfterAddCustomers(added: seq<Customer>, i: int)
    requires |added| <= Capacity && 0 <= i < Capacity
    ensures GetNumOfCustomers(AddCustomers(NewBank(), added)) == |added|
    ensures GetCustomer(AddCustomers(NewBank(), added), i)
         == (if i < |added| then added[i] else null)
  {
  }

  /** After `addCustomer`, slot `count` reads the new customer and every other slot reads
      what it read before. */
  lemma AddThenGetCustomer(b: BankState, customer: Customer, i: int)
    requires WellFormed(b) && b.numberOfCustomers < Capacity && 0 <= i < Capacity
    ensures GetCustomer(AddCustomer(b, customer), i)
         == (if i == b.numberOfCustomers then customer else GetCustomer(b, i))
    ensures GetNumOfCustomers(AddCustomer(b, customer)) == GetNumOfCustomers(b) + 1
  {
  }

  /** A second `getBank` call returns the bank of the first one and changes nothing. */
  lemma GetBankIdempotent(reg: Registry)
    requires RegistryOk(reg)
    ensures GetBank(GetBank(reg).0) == GetBank(reg)
  {
  }

  /** `Bank.getBank().addCustomer(customer)`: the customer goes into the shared bank,
      creating it first if no call has done so yet. */
  function AddViaShared(reg: Registry, customer: Customer): (r: Registry)
    requires RegistryOk(reg) && GetNumOfCustomers(GetBank(reg).1) < Capacity
    ensures RegistryOk(r) && r.Holding?
    ensures Members(r.instance) == Members(GetBank(reg).1) + [customer]
  {
    Holding(AddCustomer(GetBank(reg).1, customer))
  }

  /** `AddViaShared` with each of `added` in order. */
  function AddAllViaShared(reg: Registry, added: seq<Customer>): (r: Registry)
    requires RegistryOk(reg) && GetNumOfCustomers(GetBank(reg).1) + |added| <= Capacity
    ensures RegistryOk(r)
    decreases |added|
  {
    if added == [] then reg else AddAllViaShared(AddViaShared(reg, added[0]), added[1..])
  }

  /** However many customers are added through the shared bank, a later `getBank` returns
      a bank holding all of them in order: no call in between created a second bank or
      reset the first. */
  lemma {:induction false} SharedBankKeepsCustomers(reg: Registry, added: seq<Customer>)
    requires RegistryOk(reg) && GetNumOfCustomers(GetBank(reg).1) + |added| <= Capacity
    ensures Members(GetBank(AddAllViaShared(reg, added)).1) == Members(GetBank(reg).1) + added
    decreases |added|
  {
    if added == [] {
      assert Members(GetBank(reg).1) + added == Members(GetBank(reg).1);
    } else {
      var reg' := AddViaShared(reg, added[0]);
      SharedBankKeepsCustomers(reg', added[1..]);
      assert Members(GetBank(reg).1) + [added[0]] + added[1..] == Members(GetBank(reg).1) + added;
    }
  }

  /** Starting from the state before any `getBank` call, the shared bank holds exactly the
      customers added through it. */
  lemma FirstUseOfSharedBank(added: seq<Customer>)
    requires |added| <= Capacity
    ensures Members(GetBank(AddAllViaShared(Unset, added)).1) == added
  {
    SharedBankKeepsCustomers(Unset, added);
    assert Members(NewBank()) + added == added;
  }
}
