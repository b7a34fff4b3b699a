/** The `banking.domain.Bank` class itself, and an explicit holder object standing in for
    its static `instance` field. Each method is specified by the value model in `Banks`. */
module BankObjects {
  import opened Domain
  import opened Banks
  import BankProperties

  class Bank {
    var numberOfCustomers: int
    // The array reference is never reassigned after construction.
    const customers: array<Customer?>

    /** The object's fields read as a value. */
    function State(): BankState
      reads this, customers
    {
      BankState(customers[..], numberOfCustomers)
    }

    predicate Valid()
      reads this, customers
    {
      WellFormed(State())
    }

    constructor()
      ensures Valid() && fresh(customers)
      ensures State() == NewBank()
    {
      numberOfCustomers := 0;
      customers := new Customer?[Capacity](_ => null);
      new;
      assert customers[..] == seq(Capacity, _ => null);
    }

    /** Constructs a fresh customer from the two names and stores it in the next slot. */
    method AddCustomer(firstName: string, lastName: string)
      requires Valid() && numberOfCustomers < Capacity
      modifies this, customers
      ensures Valid()
      ensures var added := customers[old(numberOfCustomers)];
              && added != null && fresh(added)
              && added.firstName == firstName && added.lastName == lastName
              && State() == Banks.AddCustomer(old(State()), added)
    {
      var customer := new Customer(firstName, lastName);
      customers[numberOfCustomers] := customer;
      numberOfCustomers := numberOfCustomers + 1;
    }

    method GetNumOfCustomers() returns (n: int)
      requires Valid()
      ensures n == Banks.GetNumOfCustomers(State())
    {
      n := numberOfCustomers;
    }

    method GetCustomer(index: int) returns (r: Customer?)
      requires Valid() && 0 <= index < customers.Length
      ensures r == Banks.GetCustomer(State(), index)
    {
      r := customers[index];
    }
  }

  /** Holder of the one shared bank, in place of Java's static field. */
  class BankRegistry {
    var instance: Bank?

    /** The holder read as a value: unset, or holding the state of the shared bank. */
    function Reg(): Registry
      reads this, instance
      reads if instance == null then {} else {instance.customers}
    {
      if instance == null then Unset else Holding(instance.State())
    }

    /** A held bank satisfies its own invariant. */
    predicate Valid()
      reads this, instance
      reads if instance == null then {} else {instance.customers}
    {
      RegistryOk(Reg())
    }

    constructor()
      ensures instance == null && Valid() && Reg() == Unset
    {
      instance := null;
    }

    /** Creates the bank on the first call; afterwards returns the same object, whose
        customers the call leaves untouched. Its effect on the holder and its result are
        those of `Banks.GetBank`. */
    method GetBank() returns (b: Bank)
      requires Valid()
      modifies this
      ensures Valid() && b.Valid() && instance == b
      ensures (Reg(), b.State()) == Banks.GetBank(old(Reg()))
      ensures old(instance) == null ==> fresh(b) && fresh(b.customers)
      ensures old(instance) != null ==> b == old(instance) && b.State() == old(b.State())
    {
      if instance == null {
        instance := new Bank();
      }
      b := instance;
    }
  }

  /** `Bank.getBank().addCustomer(firstName, lastName)`: the holder's value moves exactly as
      `BankProperties.AddViaShared` says, so the properties proved there about runs of such
      calls hold of the holder object. */
  method AddCustomerToSharedBank(registry: BankRegistry, firstName: string, lastName: string)
    requires registry.Valid()
    requires GetNumOfCustomers(Banks.GetBank(registry.Reg()).1) < Capacity
    modifies registry
    modifies if registry.instance == null then {} else {registry.instance, registry.instance.customers}
    ensures registry.Valid() && registry.instance != null
    ensures var added := registry.instance.customers[GetNumOfCustomers(Banks.GetBank(old(registry.Reg())).1)];
            && added != null && fresh(added)
            && added.firstName == firstName && added.lastName == lastName
            && registry.Reg() == BankProperties.AddViaShared(old(registry.Reg()), added)
  {
    var b := registry.GetBank();
    b.AddCustomer(firstName, lastName);
  }
}
