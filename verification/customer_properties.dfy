/** Properties of call sequences on one lab customer: the invariant and the names survive
    every sequence of account operations, appends keep only the first ten accounts, and the
    getters read back what the mutators stored. */
module CustomerProperties {
  import opened Customers

  /** One mutating call on a customer. */
  datatype Call = AddAccountCall(account: Account?) | SetAccountCall(account: Account?)

  function Apply(c: CustomerState, call: Call): (r: CustomerState)
    requires WellFormed(c)
    ensures WellFormed(r)
    ensures r.firstName == c.firstName && r.lastName == c.lastName
    ensures c.numberOfAccounts <= r.numberOfAccounts <= c.numberOfAccounts + 1
  {
    match call
    case AddAccountCall(a) => AddAccount(c, a)
    case SetAccountCall(a) => SetAccount(c, a)
  }

  /** The state after making `calls` in order. Whatever the calls, the invariant holds, the
      names are the ones the customer started with, and the count never goes down. */
  function Replay(c: CustomerState, calls: seq<Call>): (r: CustomerState)
    requires WellFormed(c)
    ensures WellFormed(r)
    ensures r.firstName == c.firstName && r.lastName == c.lastName
    ensures c.numberOfAccounts <= r.numberOfAccounts <= Capacity
    decreases |calls|
  {
    if calls == [] then c else Replay(Apply(c, calls[0]), calls[1..])
  }

  /** The state after `addAccount(accounts[0])`, `addAccount(accounts[1])`, ... in order. */
  function AddAll(c: CustomerState, accounts: seq<Account?>): (r: CustomerState)
    requires WellFormed(c)
    ensures WellFormed(r)
    ensures r.firstName == c.firstName && r.lastName == c.lastName
    decreases |accounts|
  {
    if accounts == [] then c else AddAll(AddAccount(c, accounts[0]), accounts[1..])
  }

  function Min(a: int, b: int): (m: int)
    ensures m <= a && m <= b
    ensures m == a || m == b
  {
    if a <= b then a else b
  }

  /** Appending a list of accounts one by one keeps exactly the first ones that fit: once
      the array is full, every further `addAccount` is dropped. */
  lemma {:induction false} AddAllKeepsFirstThatFit(c: CustomerState, accounts: seq<Account?>)
    requires WellFormed(c)
    ensures Held(AddAll(c, accounts))
         == (Held(c) + accounts)[..Min(|Held(c)| + |accounts|, Capacity)]
    decreases |accounts|
  {
    var h := Held(c);
    if accounts == [] {
      assert h + accounts == h;
    } else {
      var c' := AddAccount(c, accounts[0]);
      AddAllKeepsFirstThatFit(c', accounts[1..]);
      if c.numberOfAccounts < Capacity {
        assert Held(c') + accounts[1..] == h + accounts;
      } else {
        assert (h + accounts[1..])[..|h|] == h;
        assert (h + accounts)[..|h|] == h;
      }
    }
  }

  /** The getters see a customer only through the accounts it holds. */
  lemma GettersReadHeld(c: CustomerState, held: seq<Account?>, i: int)
    requires WellFormed(c) && Held(c) == held
    ensures GetNumOfAccounts(c) == |held|
    ensures GetAccount(c, i) == (if 0 <= i < |held| then held[i] else null)
  {
  }

  /** A customer without accounts given accounts one by one reports the i-th given account
      at index i for the first ten, and `null` everywhere else. */
  lemma EmptyCustomerAfterAddAll(c: CustomerState, accounts: seq<Account?>, i: int)
    requires WellFormed(c) && c.numberOfAccounts == 0
    ensures GetNumOfAccounts(AddAll(c, accounts)) == Min(|accounts|, Capacity)
    ensures GetAccount(AddAll(c, accounts), i)
         == (if 0 <= i < Min(|accounts|, Capacity) then accounts[i] else null)
  {
    AddAllKeepsFirstThatFit(c, accounts);
    assert Held(c) + accounts == accounts;
    GettersReadHeld(AddAll(c, accounts), accounts[..Min(|accounts|, Capacity)], i);
  }

  /** The same for a newly constructed customer, whose names also survive the appends. */
  lemma NewCustomerAfterAddAll(firstName: string, lastName: string, accounts: seq<Account?>, i: int)
    ensures var c := AddAll(NewCustomer(firstName, lastName), accounts);
            && GetNumOfAccounts(c) == Min(|accounts|, Capacity)
            && GetAccount(c, i) == (if 0 <= i < Min(|accounts|, Capacity) then accounts[i] else null)
            && c.firstName == firstName && c.lastName == lastName
  {
    EmptyCustomerAfterAddAll(NewCustomer(firstName, lastName), accounts, i);
  }

  /** After `addAccount` on a customer with room, index `count` reads the new account and
      every other index reads what it read before. */
  lemma AddThenGet(c: CustomerState, account: Account?, i: int)
    requires WellFormed(c) && c.numberOfAccounts < Capacity
    ensures GetAccount(AddAccount(c, account), i)
         == (if i == c.numberOfAccounts then account else GetAccount(c, i))
    ensures GetNumOfAccounts(AddAccount(c, account)) == GetNumOfAccounts(c) + 1
  {
  }

  /** Whatever the customer held before, `getAccount()` after `setAccount(a)` returns `a`,
      and every other index reads what it read before. */
  lemma SetThenGet(c: CustomerState, account: Account?, i: int)
    requires WellFormed(c)
    ensures GetFirstAccount(SetAccount(c, account)) == account
    ensures i != 0 ==> GetAccount(SetAccount(c, account), i) == GetAccount(c, i)
  {
  }
}
