/** Value model of `banking.domain.Bank`: a ten-slot array of customers with a fill count,
    and the lazily created shared instance returned by `getBank`. */
module Banks {
  import opened Domain

  /** Length of the customer array every bank allocates. */
  const Capacity: nat := 10

  /** The fields of one bank; unwritten slots hold `null`. */
  datatype BankState = BankState(customers: seq<Customer?>, numberOfCustomers: int)

  /** What every operation keeps: exactly `Capacity` slots, a count within them, and
      `null` in every slot at or beyond the count. */
  predicate WellFormed(b: BankState) {
    && |b.customers| == Capacity
    && 0 <= b.numberOfCustomers <= Capacity
    && forall i :: b.numberOfCustomers <= i < Capacity ==> b.customers[i] == null
  }

  /** The customers of a bank, in the order they were added: the filled prefix. */
  function Members(b: BankState): (s: seq<Customer?>)
    requires WellFormed(b)
    ensures |s| == b.numberOfCustomers <= Capacity
  {
    b.customers[..b.numberOfCustomers]
  }

  /** `new Bank()`: no customers and ten empty slots. */
  function NewBank(): (b: BankState)
    ensures WellFormed(b)
    ensures |b.customers| == Capacity && Members(b) == []
  {
    BankState(seq(Capacity, _ => null), 0)
  }

  /** `addCustomer` with the customer it has just constructed. The Java method writes slot
      `numberOfCustomers` without checking it, so an eleventh call fails with an array index
      error; here the caller must leave room. */
  function AddCustomer(b: BankState, customer: Customer): (r: BankState)
    requires WellFormed(b) && b.numberOfCustomers < Capacity
    ensures WellFormed(r)
    ensures Members(r) == Members(b) + [customer]
  {
    b.(customers := b.customers[b.numberOfCustomers := customer],
       numberOfCustomers := b.numberOfCustomers + 1)
  }

  /** `getNumOfCustomers`: how many customers the bank holds, at most ten. */
  function GetNumOfCustomers(b: BankState): (n: int)
    requires WellFormed(b)
    ensures n == |Members(b)|
    ensures 0 <= n <= Capacity
  {
    b.numberOfCustomers
  }

  /** `getCustomer`: an unchecked array read, so the index must lie inside the array. Inside
      the filled prefix it is the customer added at that position; beyond it, `null`. */
  function GetCustomer(b: BankState, index: int): (r: Customer?)
    requires WellFormed(b) && 0 <= index < Capacity
    ensures index < |Members(b)| ==> r == Members(b)[index]
    ensures |Members(b)| <= index ==> r == null
  {
    b.customers[index]
  }

  /** The static `instance` field behind `getBank`: unset until the first call. */
  datatype Registry = Unset | Holding(instance: BankState)

  predicate RegistryOk(reg: Registry) {
    reg.Holding? ==> WellFormed(reg.instance)
  }

  /** `getBank`: the first call creates a new bank and stores it; every later call returns
      the stored bank as it is, without creating or resetting anything. The result is the
      registry after the call and the bank returned. */
  function GetBank(reg: Registry): (res: (Registry, BankState))
    requires RegistryOk(reg)
    ensures res.0 == Holding(res.1) && RegistryOk(res.0)
    ensures reg.Unset? ==> res.1 == NewBank()
    ensures reg.Holding? ==> res.0 == reg
  {
    match reg
    case Unset => var b := NewBank(); (Holding(b), b)
    case Holding(b) => (reg, b)
  }
}
