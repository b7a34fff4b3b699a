# Banking customer and bank: a verified model

This project models two small array-backed collections from the repository's Java banking
exercises:

- the lab `banking.Customer` (`Java/lab2/STEP6-PRE1/banking/Customer.java`): a customer with a
  first and last name fixed at construction and a ten-slot `Account[]` with a fill count.
  `addAccount` appends while there is room and silently ignores the call when the array is
  full; `getAccount(int)` is a bounds-checked read returning `null` outside the filled part;
  `setAccount` adds when the customer has no account and otherwise overwrites the first slot;
  `getAccount()` reads the first slot or returns `null`.
- `banking.domain.Bank` (`Java/step6/banking/domain/Bank.java`): a ten-slot `Customer[]` with a
  count. `addCustomer` builds a customer from two names and writes it into the next slot with
  no capacity check; `getCustomer` is an unchecked array read; `getBank` lazily creates one
  shared bank.

Each class is modelled twice:

- a value model (`Customers`, `Banks`): the object's fields as a datatype, a `WellFormed`
  invariant (exactly ten slots, `0 <= count <= 10`, `null` in every slot at or beyond the
  count), and one pure function per Java method. Contracts are stated against an abstract
  view: `Held` (the accounts held, in order) and `Members` (the customers held, in order).
- a class layer (`CustomerObjects`, `BankObjects`): Dafny classes with a fixed-size `array`
  and a count, mirroring the Java code statement by statement. Each object can be read as a
  value (`State()`, and `Reg()` for the holder standing in for the static `instance` field),
  and each method's contract says its effect equals the value model's function applied to the
  value before the call. `AddCustomerToSharedBank` does the same for the Java idiom
  `Bank.getBank().addCustomer(..)`, so the properties proved of the value model's shared bank
  hold of the holder object too.

`CustomerProperties` and `BankProperties` state what sequences of calls do: the invariant and
the names survive every sequence of account operations, appending keeps exactly the first ten
accounts, the count of a bank equals the number of `addCustomer` calls, and later `getBank`
calls never replace or reset the shared bank.

Java overloads `getAccount`; the model names the indexed read `GetAccount` and the
no-argument one `GetFirstAccount`. Java's `null` is kept as Dafny's `null` (`Account?`, `Customer?`). `Account` is an empty class:
only reference identity matters to these collections. The `banking.domain.Customer` that a bank
constructs is not part of this model; `Domain.Customer` stands in for it with just the two names
its constructor receives.

## Model

| member | source | states |
|---|---|---|
| Customers.NewCustomer | Java/lab2/STEP6-PRE1/banking/Customer.java:9-14 | a new customer has the given first and last name, ten empty slots and no accounts |
| Customers.AddAccount | Java/lab2/STEP6-PRE1/banking/Customer.java:23-28 | with room, the held accounts become the old ones followed by the new account (so it lands in slot `count`, the count rises by one and earlier slots keep their accounts); on a full customer nothing changes; names are untouched and the invariant is kept |
| Customers.GetAccount | Java/lab2/STEP6-PRE1/banking/Customer.java:30-35 | returns the account at that position among the held accounts exactly when `0 <= index < count`, and `null` for every other index, negative ones included |
| Customers.GetNumOfAccounts | Java/lab2/STEP6-PRE1/banking/Customer.java:37-39 | the number of accounts held, always between 0 and 10 |
| Customers.SetAccount | Java/lab2/STEP6-PRE1/banking/Customer.java:40-46 | on a customer without accounts it is `addAccount` and leaves exactly that one account; otherwise the count is unchanged, the first account is replaced and the rest are kept; names untouched, invariant kept |
| Customers.GetFirstAccount | Java/lab2/STEP6-PRE1/banking/Customer.java:47-52 | agrees with `getAccount(0)`: the first held account, or `null` when there is none |
| CustomerProperties.Apply | Java/lab2/STEP6-PRE1/banking/Customer.java:23-46 | either mutator keeps the invariant and the names and raises the count by at most one |
| CustomerProperties.Replay | Java/lab2/STEP6-PRE1/banking/Customer.java:4-46 | after any sequence of `addAccount`/`setAccount` calls the invariant holds, the names read by `getFirstName`/`getLastName` are the constructor's, and the count has not gone down nor past 10 |
| CustomerProperties.AddAll | Java/lab2/STEP6-PRE1/banking/Customer.java:23-28 | a run of `addAccount` calls keeps the invariant and the names |
| CustomerProperties.AddAllKeepsFirstThatFit | Java/lab2/STEP6-PRE1/banking/Customer.java:23-28 | appending a list of accounts one by one holds the old accounts followed by the given ones, cut off at ten: every call made on a full customer is dropped |
| CustomerProperties.GettersReadHeld | Java/lab2/STEP6-PRE1/banking/Customer.java:30-39 | `getNumOfAccounts` and `getAccount(i)` depend only on the accounts held |
| CustomerProperties.EmptyCustomerAfterAddAll | Java/lab2/STEP6-PRE1/banking/Customer.java:23-39 | a customer without accounts given a list of accounts reports `min(n, 10)` accounts, the i-th given account at index i below that, and `null` elsewhere |
| CustomerProperties.NewCustomerAfterAddAll | Java/lab2/STEP6-PRE1/banking/Customer.java:9-39 | the same from a newly constructed customer, whose names are still the given ones afterwards |
| CustomerProperties.AddThenGet | Java/lab2/STEP6-PRE1/banking/Customer.java:23-39 | after `addAccount` with room, index `count` reads the new account, every other index reads what it read before, and the count is one higher |
| CustomerProperties.SetThenGet | Java/lab2/STEP6-PRE1/banking/Customer.java:40-52 | after `setAccount(a)`, `getAccount()` returns `a` whether or not the customer had accounts, and every index other than 0 reads what it read before |
| CustomerObjects.Customer.AddAccount | Java/lab2/STEP6-PRE1/banking/Customer.java:23-28 | the array-backed method has exactly the effect of `Customers.AddAccount` on the object's state, keeping the invariant |
| CustomerObjects.Customer.SetAccount | Java/lab2/STEP6-PRE1/banking/Customer.java:40-46 | the array-backed method has exactly the effect of `Customers.SetAccount` on the object's state |
| CustomerObjects.Customer.GetAccount | Java/lab2/STEP6-PRE1/banking/Customer.java:30-35 | the array-backed read returns what `Customers.GetAccount` specifies |
| CustomerObjects.Customer.constructor | Java/lab2/STEP6-PRE1/banking/Customer.java:9-14 | the new object holds a freshly allocated ten-slot array and its state is `Customers.NewCustomer` of the given names |
| CustomerObjects.Customer.GetFirstName | Java/lab2/STEP6-PRE1/banking/Customer.java:16-18 | returns the first name in the object's state; the name field is constant, so it is the one given at construction |
| CustomerObjects.Customer.GetLastName | Java/lab2/STEP6-PRE1/banking/Customer.java:20-22 | returns the last name in the object's state; the name field is constant, so it is the one given at construction |
| CustomerObjects.Customer.GetNumOfAccounts | Java/lab2/STEP6-PRE1/banking/Customer.java:37-39 | the field read returns what `Customers.GetNumOfAccounts` specifies: the number of held accounts, at most 10 |
| CustomerObjects.Customer.GetFirstAccount | Java/lab2/STEP6-PRE1/banking/Customer.java:47-52 | the array read returns what `Customers.GetFirstAccount` specifies: the first held account, or `null` |
| Banks.NewBank | Java/step6/banking/domain/Bank.java:8-12 | a new bank has ten empty slots and no customers |
| Banks.AddCustomer | Java/step6/banking/domain/Bank.java:13-17 | requires a free slot (the Java write is unguarded); the members become the old ones followed by the new customer, so it lands in slot `count`, the count rises by one and earlier customers are kept |
| Banks.GetNumOfCustomers | Java/step6/banking/domain/Bank.java:18-21 | the number of customers held, never more than 10 |
| Banks.GetCustomer | Java/step6/banking/domain/Bank.java:22-25 | requires an index inside the array; returns the customer added at that position below the count and `null` from the count up to 9 |
| Banks.GetBank | Java/step6/banking/domain/Bank.java:26-32 | the first call stores and returns a new bank; a later call returns the stored bank and leaves the holder as it was |
| BankProperties.AddCustomers | Java/step6/banking/domain/Bank.java:13-17 | a run of `addCustomer` calls that fit holds the old customers followed by the added ones, in order |
| BankProperties.GettersReadMembers | Java/step6/banking/domain/Bank.java:18-25 | `getNumOfCustomers` and `getCustomer(i)` depend only on the customers held |
| BankProperties.NewBankAfterAddCustomers | Java/step6/banking/domain/Bank.java:8-25 | a new bank given up to ten customers counts exactly the calls made, returns the i-th added customer at index i and `null` at every later index |
| BankProperties.AddThenGetCustomer | Java/step6/banking/domain/Bank.java:13-25 | after `addCustomer`, slot `count` reads the new customer, every other slot reads what it read before, and the count is one higher |
| BankProperties.GetBankIdempotent | Java/step6/banking/domain/Bank.java:26-32 | a second `getBank` returns the same bank as the first and leaves the holder unchanged |
| BankProperties.AddViaShared | Java/step6/banking/domain/Bank.java:13-32 | adding through `getBank()` puts the customer after those the shared bank already held |
| BankProperties.AddAllViaShared | Java/step6/banking/domain/Bank.java:13-32 | a run of adds through `getBank()` keeps the holder well formed |
| BankProperties.SharedBankKeepsCustomers | Java/step6/banking/domain/Bank.java:26-32 | after any number of adds through `getBank()`, a later `getBank` returns a bank holding the earlier customers followed by all the added ones: no call in between replaced or reset it |
| BankProperties.FirstUseOfSharedBank | Java/step6/banking/domain/Bank.java:26-32 | starting before any `getBank` call, the shared bank ends up holding exactly the customers added through it |
| BankObjects.Bank.constructor | Java/step6/banking/domain/Bank.java:8-12 | the new object holds a freshly allocated ten-slot array and its state is `Banks.NewBank()` |
| BankObjects.Bank.GetNumOfCustomers | Java/step6/banking/domain/Bank.java:18-21 | the field read returns what `Banks.GetNumOfCustomers` specifies: the number of customers held, at most 10 |
| BankObjects.Bank.AddCustomer | Java/step6/banking/domain/Bank.java:13-17 | the array-backed method stores a freshly allocated customer carrying the two given names in slot `count`, with the effect of `Banks.AddCustomer` |
| BankObjects.Bank.GetCustomer | Java/step6/banking/domain/Bank.java:22-25 | the unchecked array read returns what `Banks.GetCustomer` specifies |
| BankObjects.BankRegistry.GetBank | Java/step6/banking/domain/Bank.java:26-32 | keeps the holder's invariant and returns a valid bank; its effect on the holder's value and its result are those of `Banks.GetBank`; the first call returns a freshly created bank, later calls return the stored object with its state unchanged |
| BankObjects.AddCustomerToSharedBank | Java/step6/banking/domain/Bank.java:13-32 | `getBank().addCustomer(f, l)` stores a fresh customer with the two names, and the holder's value moves exactly as `BankProperties.AddViaShared` says |

## Left out

- `Account` is not part of this model: it is an empty class, and nothing is said about balances or transactions.
- `banking.domain.Customer` is not part of this model beyond a constructor that keeps two names; in particular it is not assumed to carry the lab customer's account array.
- Thread safety of the lazy creation in `getBank` is not modelled; the static field becomes an explicit holder (`Registry` in the value model, `BankRegistry` in the class layer) used by a single thread.
- Java exceptions are not modelled: the unchecked array accesses of `addCustomer` and `getCustomer` become preconditions (a free slot; an index in `0..9`).
- Java `String` names may be `null`; here they are Dafny strings, which cannot be.
- Java's 32-bit `int` is modelled as an unbounded integer; every count stays within `0..10` and an index is only compared, so no wrap-around can occur.
- The Huffman coder, the tree, graph and list exercises and the command-line programs of the repository are not part of this model.
