# ATM ledger model

A Dafny model of the in-memory bookkeeping behind a desktop ATM demo. A
`Bank` holds a fixed map from user id to `Account`. Each `Account` holds
a balance and an append-only history of `Transaction` entries. The model
covers the ledger operations: opening an account, deposit, withdraw,
transfer, PIN validation, account lookup and authentication. It proves
the following invariants about them:

- the history is never empty, starts with the one `OPEN` entry, and its
  last `balanceAfter` equals the balance;
- the signed amounts in the history sum to the balance;
- a failed withdrawal or transfer changes nothing;
- a transfer conserves money and touches no other account;
- the bank always holds exactly the four seeded ids, and who can log in
  never changes.

Amounts are `int` in minor currency units (paise), so 5000.00 is
`500000`. Java `double` arithmetic becomes exact integer arithmetic.

Layout:

- `wrappers.dfy`: `Option`, which stands in for a null reference.
- `transactions.dfy`: the entry type tags, `Transaction`, and the sum of
  signed amounts.
- `accounts.dfy`: `Account` as an immutable value, its operations, and the
  ledger invariant `Accounts.Valid`.
- `banking.dfy`: `Bank`, the seeded accounts, lookup and authentication.
  It also has the transfer replayed against the account map, the total of
  all balances, and request sequences.

In the Java implementation, accounts are mutable objects, and `transfer` may be given
the sender itself as the recipient. Two Dafny values cannot alias, so the
model handles this in three parts:

- `Accounts.Transfer` is the distinct-account case.
- `Accounts.SelfTransfer` is the self case.
- `Banking.TransferInBank` treats the bank's map as the heap and replays
  the Java implementation's exact order of mutations: debit the sender, deposit into
  the account the recipient id names, then log the sender's `TRANSFER`
  entry. Two lemmas prove that it agrees with the other two functions.

The `balance >= amount` guard is the only check, and nothing rejects a
negative amount, so a balance stays non-negative only while every amount
is non-negative:

- `Accounts.NonNegativeAmountsKeepBalancesNonNegative` states the
  guarantee that does hold for one account operation;
  `Banking.StepKeepsNonNegative` and `Banking.RunKeepsNonNegative` lift it
  to every request and every sequence of requests on the bank.
- `Accounts.NegativeTransferCanOverdrawRecipient` shows how a negative
  transfer pushes the recipient below zero.

## Model

| member | source | states |
|---|---|---|
| Accounts.Open | ATMSystemGUI_Fixed.java:71-78 | a new account keeps the given id, PIN, name and balance, and its history is exactly one `OPEN` entry whose amount and `balanceAfter` both equal the initial balance; the ledger invariant holds from the start |
| Accounts.Deposit | ATMSystemGUI_Fixed.java:86-89 | deposit always applies, with no sign check: balance rises by the amount, exactly one `DEPOSIT` entry (amount, new balance) is appended after the unchanged earlier entries, owner data is kept, and the ledger invariant is preserved |
| Accounts.Withdraw | ATMSystemGUI_Fixed.java:91-98 | succeeds iff balance >= amount; on success balance falls by the amount, one `WITHDRAW` entry with amount -a and the new balance is appended, and the new balance is non-negative; on failure the account is unchanged; the ledger invariant is preserved either way |
| Accounts.Transfer | ATMSystemGUI_Fixed.java:100-108 | between distinct accounts: succeeds iff sender balance >= amount; on success the sender loses a and logs `TRANSFER` (-a, "To " + recipient id) and the recipient gains a and logs `DEPOSIT`; the two balances' sum is conserved; on failure neither changes; both ledger invariants are preserved |
| Accounts.SelfTransfer | ATMSystemGUI_Fixed.java:100-104 | recipient is the sender: succeeds iff balance >= amount, the balance is unchanged, and on success a `DEPOSIT` entry then a `TRANSFER` entry, both recording the unchanged balance, are appended; the ledger invariant is preserved |
| Accounts.TransferIsWithdrawThenDeposit | ATMSystemGUI_Fixed.java:91-108 | a distinct-account transfer succeeds exactly when the corresponding withdrawal would, leaves the sender's balance where that withdrawal would, gives the recipient exactly a deposit, and its sender entry differs from the withdrawal entry only in tag and description |
| Accounts.NonNegativeAmountsKeepBalancesNonNegative | ATMSystemGUI_Fixed.java:86-108 | with non-negative balances and a non-negative amount, deposit, withdraw, transfer and self-transfer leave every balance non-negative |
| Accounts.NegativeTransferCanOverdrawRecipient | ATMSystemGUI_Fixed.java:100-108 | a negative amount passes the guard whenever the sender's balance is non-negative and can drive the recipient's balance below zero |
| Banking.Initial | ATMSystemGUI_Fixed.java:115-125 | the seeded bank keeps its name, holds exactly the ids user1, user2, user3 and admin, each under its own id with a one-entry history, and satisfies the ledger invariant |
| Banking.LookupInValidBank | ATMSystemGUI_Fixed.java:120-132 | in a valid bank a lookup by id succeeds exactly for the four seeded ids, and the account found carries that id, so a transfer's "To " description names the id the recipient was looked up by |
| Banking.Authenticate | ATMSystemGUI_Fixed.java:127-131 | yields the stored account iff the id is present and its PIN equals the given one; otherwise none |
| Banking.InitialLogins | ATMSystemGUI_Fixed.java:120-131 | on the seeded bank exactly the four seeded (id, PIN) pairs authenticate |
| Banking.TransferInBank | ATMSystemGUI_Fixed.java:100-108 | the transfer replayed in the Java implementation's order on the account map succeeds iff the sender's balance covers the amount, keeps the key set, leaves every other account untouched, and changes nothing on failure |
| Banking.TransferInBankDistinct | ATMSystemGUI_Fixed.java:100-108 | for distinct ids the replayed transfer equals the account-level distinct transfer written back into the map |
| Banking.TransferInBankSelf | ATMSystemGUI_Fixed.java:100-104 | for a transfer from an id to itself the replayed transfer equals the self-transfer, so the aliasing yields a `DEPOSIT` then a `TRANSFER` entry and an unchanged balance |
| Banking.TransferInBankPreserves | ATMSystemGUI_Fixed.java:100-108 | any bank transfer, self or not, keeps owner data, preserves the bank invariant and leaves the bank's total balance unchanged |
| Banking.Step | ATMSystemGUI_Fixed.java:86-108 | one deposit, withdraw or transfer by id: a successful deposit or withdrawal replaces exactly the named account by the account-level result, and a transfer between present ids is exactly the replayed bank transfer; takes effect exactly under the Java implementation's guards and for ids present, otherwise changes nothing; keeps keys and owner data and the bank invariant; total rises by a deposit, falls by a withdrawal and is unchanged by a transfer |
| Banking.Run | ATMSystemGUI_Fixed.java:111-134 | any sequence of requests keeps the bank's name, its key set, every owner's id and PIN, and the bank invariant |
| Banking.ReachableBanksAreValid | ATMSystemGUI_Fixed.java:120-125 | every bank reachable from the seeded one holds exactly the four seeded ids and satisfies the ledger invariant |
| Banking.LoginsNeverChange | ATMSystemGUI_Fixed.java:127-131 | after any sequence of requests exactly the same (id, PIN) pairs authenticate as before |
| Banking.TransfersConserveTotal | ATMSystemGUI_Fixed.java:100-108 | any sequence of transfers leaves the bank's total balance unchanged |
| Banking.StepKeepsNonNegative | ATMSystemGUI_Fixed.java:86-108 | a deposit, withdrawal or transfer with a non-negative amount, on a bank whose balances are all non-negative, leaves every balance non-negative |
| Banking.RunKeepsNonNegative | ATMSystemGUI_Fixed.java:86-108 | any sequence of requests whose amounts are all non-negative keeps every balance of a non-negative bank non-negative |

## Left out

- The Swing interface (`ATMInterface`, `main`): layout, dialogs and event wiring. The three mutating calls it makes on accounts are covered by `Banking.Step`. In the Java implementation the sender is always the logged-in account and an unknown recipient id is reported as "User not found". An unknown id in `Step` leaves the bank unchanged.
- `BackgroundPanel`: a network image fetch and painting.
- Transaction timestamps and `getFormattedTimestamp`: clock reads and date formatting. `Transaction` has no timestamp field.
- The bank name getter and the account getters. They are plain field reads of the datatypes.
- IEEE-754 `double` semantics: parsing, NaN, infinity and rounding. Amounts are exact integers in minor units, so the model does not reproduce rounding drift in the balance, the sum or the `>=` guard.
- Display formatting of balances.
