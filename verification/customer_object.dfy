/** The lab `banking.Customer` class itself: a heap object with a fixed ten-slot account
    array. Each method is specified by the value model in `Customers`, applied to the
    object's state before the call. */
module CustomerObjects {
  import opened Customers

  class Customer {
    // The names and the array reference are never reassigned after construction.
    const firstName: string
    const lastName: string
    const accounts: array<Account?>
    var numberOfAccounts: int

    /** The object's fields read as a value. */
    function State(): CustomerState
      reads this, accounts
    {
      CustomerState(firstName, lastName, accounts[..], numberOfAccounts)
    }

    predicate Valid()
      reads this, accounts
    {
      WellFormed(State())
    }

    constructor(firstName: string, lastName: string)
      ensures Valid() && fresh(accounts)
      ensures State() == NewCustomer(firstName, lastName)
    {
      this.firstName := firstName;
      this.lastName := lastName;
      accounts := new Account?[Capacity](_ => null);
      numberOfAccounts := 0;
      new;
      assert accounts[..] == seq(Capacity, _ => null);
    }

    method GetFirstName() returns (r: string)
      ensures r == State().firstName
    {
      r := firstName;
    }

    method GetLastName() returns (r: string)
      ensures r == State().lastName
    {
      r := lastName;
    }

    method AddAccount(account: Account?)
      requires Valid()
      modifies this, accounts
      ensures Valid()
      ensures State() == Customers.AddAccount(old(State()), account)
    {
      if numberOfAccounts < accounts.Length {
        accounts[numberOfAccounts] := account;
        numberOfAccounts := numberOfAccounts + 1;
      }
    }

    method GetAccount(index: int) returns (r: Account?)
      requires Valid()
      ensures r == Customers.GetAccount(State(), index)
    {
      if index >= 0 && index < numberOfAccounts {
        return accounts[index];
      }
      return null;
    }

    method GetNumOfAccounts() returns (n: int)
      requires Valid()
      ensures n == Customers.GetNumOfAccounts(State())
    {
      n := numberOfAccounts;
    }

    method SetAccount(account: Account?)
      requires Valid()
      modifies this, accounts
      ensures Valid()
      ensures State() == Customers.SetAccount(old(State()), account)
    {
      if numberOfAccounts == 0 {
        AddAccount(account);
      } else {
        accounts[0] := account;
      }
    }

    method GetFirstAccount() returns (r: Account?)
      requires Valid()
      ensures r == Customers.GetFirstAccount(State())
    {
      if numberOfAccounts > 0 {
        return accounts[0];
      }
      return null;
    }
  }
}
