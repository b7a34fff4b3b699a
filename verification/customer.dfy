/** Value model of the lab `banking.Customer` class: two names fixed at construction and a
    ten-slot account array with a fill count. Every Java method becomes a pure function from
    the customer's state (and the call's arguments) to its result or its next state. */
module Customers {

  /** Length of the account array every customer allocates. */
  const Capacity: nat := 10

  /** Stand-in for the banking `Account` class, whose definition is not part of this model.
      Only reference identity matters: accounts are stored, returned and compared, never read. */
  class Account { }

  /** The fields of one customer. `accounts` is the whole array, `numberOfAccounts` the fill
      count; Java's `null` entries stay `null` here. */
  datatype CustomerState = CustomerState(
    firstName: string,
    lastName: string,
    accounts: seq<Account?>,
    numberOfAccounts: int)

  /** What every operation keeps: the array has exactly `Capacity` slots, the count stays
      within them, and no slot at or beyond the count has ever been written. */
  predicate WellFormed(c: CustomerState) {
    && |c.accounts| == Capacity
    && 0 <= c.numberOfAccounts <= Capacity
    && forall i :: c.numberOfAccounts <= i < Capacity ==> c.accounts[i] == null
  }

  /** The accounts a customer holds, in the order they were added: the filled prefix. */
  function Held(c: CustomerState): (s: seq<Account?>)
    requires WellFormed(c)
    ensures |s| == c.numberOfAccounts <= Capacity
  {
    c.accounts[..c.numberOfAccounts]
  }

  /** `new Customer(firstName, lastName)`: the given names, an empty ten-slot array. */
  function NewCustomer(firstName: string, lastName: string): (c: CustomerState)
    ensures WellFormed(c)
    ensures c.firstName == firstName && c.lastName == lastName
    ensures |c.accounts| == Capacity && Held(c) == []
  {
    CustomerState(firstName, lastName, seq(Capacity, _ => null), 0)
  }

  /** `addAccount`: appends while there is room; a call on a full customer is ignored. */
  function AddAccount(c: CustomerState, account: Account?): (r: CustomerState)
    requires WellFormed(c)
    ensures WellFormed(r)
    ensures r.firstName == c.firstName && r.lastName == c.lastName
    ensures c.numberOfAccounts < Capacity ==> Held(r) == Held(c) + [account]
    ensures c.numberOfAccounts == Capacity ==> r == c
  {
    if c.numberOfAccounts < |c.accounts| then
      c.(accounts := c.accounts[c.numberOfAccounts := account],
         numberOfAccounts := c.numberOfAccounts + 1)
    else
      c
  }

  /** `getAccount(int)`: the stored account for an index inside the filled prefix,
      `null` for every other index, negative ones included. */
  function GetAccount(c: CustomerState, index: int): (r: Account?)
    requires WellFormed(c)
    ensures 0 <= index < |Held(c)| ==> r == Held(c)[index]
    ensures !(0 <= index < |Held(c)|) ==> r == null
  {
    if 0 <= index && index < c.numberOfAccounts then c.accounts[index] else null
  }

  /** `getNumOfAccounts`: how many accounts are held, never more than the array holds. */
  function GetNumOfAccounts(c: CustomerState): (n: int)
    requires WellFormed(c)
    ensures n == |Held(c)|
    ensures 0 <= n <= Capacity
  {
    c.numberOfAccounts
  }

  /** `setAccount`: on a customer without accounts it adds one; otherwise it replaces the
      first account and leaves the count and the other accounts alone. */
  function SetAccount(c: CustomerState, account: Account?): (r: CustomerState)
    requires WellFormed(c)
    ensures WellFormed(r)
    ensures r.firstName == c.firstName && r.lastName == c.lastName
    ensures c.numberOfAccounts == 0 ==> r == AddAccount(c, account) && Held(r) == [account]
    ensures c.numberOfAccounts > 0 ==>
              r.numberOfAccounts == c.numberOfAccounts && Held(r) == [account] + Held(c)[1..]
  {
    if c.numberOfAccounts == 0 then
      AddAccount(c, account)
    else
      c.(accounts := c.accounts[0 := account])
  }

  /** `getAccount()`: the first account, or `null` for a customer without accounts. */
  function GetFirstAccount(c: CustomerState): (r: Account?)
    requires WellFormed(c)
    ensures r == GetAccount(c, 0)
    ensures |Held(c)| > 0 ==> r == Held(c)[0]
    ensures |Held(c)| == 0 ==> r == null
  {
    if c.numberOfAccounts > 0 then c.accounts[0] else null
  }
}
