/**
 * A bank account as an immutable value: identity, PIN, holder name,
 * balance and an append-only history. Every operation returns the new
 * account value (and, where the Java implementation returns a boolean, that flag).
 *
 * The Java implementation's transfer may be handed the sender itself as recipient;
 * two Dafny values cannot alias, so the two cases are separate here:
 * `Transfer` is the case of two distinct accounts and `SelfTransfer` the
 * case where the recipient is the sender. `Banking.TransferInBank`
 * replays the Java implementation's mutation order on the bank's map and is proved to
 * agree with both.
 */
module Accounts {

  import opened Transactions

  datatype Account = Account(
    userId: string,
    pin: string,
    holder: string,
    balance: int,
    history: seq<Transaction>)

  /** The ledger invariant every reachable account satisfies. */
  predicate Valid(a: Account)
  {
    && |a.history| > 0
    && a.history[0].kind == OPEN
    && (forall i :: 0 < i < |a.history| ==> a.history[i].kind != OPEN)
    && a.history[|a.history| - 1].balanceAfter == a.balance
    && Sum(a.history) == a.balance
  }

  /** `r` is `a` with the same owner data (id, PIN, holder name). */
  predicate SameOwner(a: Account, r: Account)
  {
    r.userId == a.userId && r.pin == a.pin && r.holder == a.holder
  }

  /** Appends one entry to the history; nothing else changes. */
  function Log(a: Account, t: Transaction): Account
  {
    a.(history := a.history + [t])
  }

  /** Opening an account records a single OPEN entry for the initial balance. */
  function Open(userId: string, pin: string, holder: string, initial: int): (a: Account)
    ensures a.userId == userId && a.pin == pin && a.holder == holder
    ensures a.balance == initial
    ensures a.history == [Transaction(OPEN, initial, initial, "Account Opened")]
    ensures Valid(a)
  {
    var blank := Account(userId, pin, holder, initial, []);
    assert Sum([Transaction(OPEN, initial, initial, "Account Opened")]) == initial;
    Log(blank, Transaction(OPEN, initial, blank.balance, "Account Opened"))
  }

  /** The PIN check: exact string equality. */
  function ValidatePin(a: Account, pin: string): bool
  {
    a.pin == pin
  }

  /** Deposit has no guard and no sign check: any amount is added and logged. */
  function Deposit(a: Account, amount: int): (r: Account)
    ensures SameOwner(a, r)
    ensures r.balance == a.balance + amount
    ensures r.history == a.history + [Transaction(DEPOSIT, amount, r.balance, "Deposit")]
    ensures Valid(a) ==> Valid(r)
  {
    var credited := a.(balance := a.balance + amount);
    var t := Transaction(DEPOSIT, amount, credited.balance, "Deposit");
    SumAppend(a.history, t);
    Log(credited, t)
  }

  /**
   * Withdrawal succeeds exactly when the balance covers the amount; on
   * failure the account is returned unchanged.
   */
  function Withdraw(a: Account, amount: int): (res: (bool, Account))
    ensures res.0 <==> a.balance >= amount
    ensures res.0 ==> SameOwner(a, res.1)
    ensures res.0 ==> res.1.balance == a.balance - amount
    ensures res.0 ==> res.1.history == a.history + [Transaction(WITHDRAW, -amount, res.1.balance, "Withdrawal")]
    ensures res.0 ==> res.1.balance >= 0
    ensures !res.0 ==> res.1 == a
    ensures Valid(a) ==> Valid(res.1)
  {
    if a.balance >= amount then
      var debited := a.(balance := a.balance - amount);
      var t := Transaction(WITHDRAW, -amount, debited.balance, "Withdrawal");
      SumAppend(a.history, t);
      (true, Log(debited, t))
    else
      (false, a)
  }

  /**
   * Transfer between two distinct accounts: guarded by the sender's
   * balance; the recipient receives an ordinary deposit and the sender
   * logs a TRANSFER entry naming the recipient. Returns the flag, the new
   * sender and the new recipient.
   */
  function Transfer(sender: Account, recipient: Account, amount: int): (res: (bool, Account, Account))
    ensures res.0 <==> sender.balance >= amount
    ensures res.0 ==> SameOwner(sender, res.1) && SameOwner(recipient, res.2)
    ensures res.0 ==> res.1.balance == sender.balance - amount
    ensures res.0 ==> res.2.balance == recipient.balance + amount
    ensures res.1.balance + res.2.balance == sender.balance + recipient.balance
    ensures res.0 ==> res.1.history == sender.history
                        + [Transaction(TRANSFER, -amount, res.1.balance, "To " + recipient.userId)]
    ensures res.0 ==> res.2.history == recipient.history
                        + [Transaction(DEPOSIT, amount, res.2.balance, "Deposit")]
    ensures !res.0 ==> res.1 == sender && res.2 == recipient
    ensures Valid(sender) ==> Valid(res.1)
    ensures Valid(recipient) ==> Valid(res.2)
  {
    if sender.balance >= amount then
      var debited := sender.(balance := sender.balance - amount);
      var credited := Deposit(recipient, amount);
      var t := Transaction(TRANSFER, -amount, debited.balance, "To " + credited.userId);
      SumAppend(sender.history, t);
      (true, Log(debited, t), credited)
    else
      (false, sender, recipient)
  }

  /**
   * Transfer where the recipient is the sender: the debit and the deposit
   * hit the same balance, so it ends where it started, and two entries are
   * logged, the DEPOSIT first and the TRANSFER second.
   */
  function SelfTransfer(a: Account, amount: int): (res: (bool, Account))
    ensures res.0 <==> a.balance >= amount
    ensures SameOwner(a, res.1)
    ensures res.1.balance == a.balance
    ensures res.0 ==> res.1.history == a.history
                        + [Transaction(DEPOSIT, amount, a.balance, "Deposit"),
                           Transaction(TRANSFER, -amount, a.balance, "To " + a.userId)]
    ensures !res.0 ==> res.1 == a
    ensures Valid(a) ==> Valid(res.1)
  {
    if a.balance >= amount then
      var debited := a.(balance := a.balance - amount);
      var credited := Deposit(debited, amount);
      var t := Transaction(TRANSFER, -amount, credited.balance, "To " + credited.userId);
      SumAppend(a.history, credited.history[|a.history|]);
      SumAppend(credited.history, t);
      (true, Log(credited, t))
    else
      (false, a)
  }

  /**
   * A transfer between distinct accounts moves money exactly as a
   * withdrawal from the sender followed by a deposit to the recipient; the
   * sender's new entry differs from the withdrawal's only in its tag and
   * description.
   */
  lemma TransferIsWithdrawThenDeposit(sender: Account, recipient: Account, amount: int)
    ensures Transfer(sender, recipient, amount).0 == Withdraw(sender, amount).0
    ensures Transfer(sender, recipient, amount).1.balance == Withdraw(sender, amount).1.balance
    ensures Transfer(sender, recipient, amount).0
            ==> Transfer(sender, recipient, amount).2 == Deposit(recipient, amount)
    ensures Transfer(sender, recipient, amount).0 ==>
              var s := Transfer(sender, recipient, amount).1.history;
              var w := Withdraw(sender, amount).1.history;
              && |s| == |w|
              && s[..|s| - 1] == w[..|w| - 1]
              && s[|s| - 1].amount == w[|w| - 1].amount
              && s[|s| - 1].balanceAfter == w[|w| - 1].balanceAfter
              && s[|s| - 1].kind == TRANSFER && w[|w| - 1].kind == WITHDRAW
  {
  }

  /**
   * With non-negative balances and a non-negative amount, no operation
   * makes any balance negative.
   */
  lemma NonNegativeAmountsKeepBalancesNonNegative(a: Account, b: Account, amount: int)
    requires a.balance >= 0 && b.balance >= 0 && amount >= 0
    ensures Deposit(a, amount).balance >= 0
    ensures Withdraw(a, amount).1.balance >= 0
    ensures Transfer(a, b, amount).1.balance >= 0 && Transfer(a, b, amount).2.balance >= 0
    ensures SelfTransfer(a, amount).1.balance >= 0
  {
  }

  /**
   * Without a sign check a negative transfer succeeds whenever the sender's
   * balance is non-negative, and it takes money from the recipient, whose
   * balance can end up negative.
   */
  lemma NegativeTransferCanOverdrawRecipient(sender: Account, recipient: Account, amount: int)
    requires sender.balance >= 0 && amount < 0 && recipient.balance < -amount
    ensures Transfer(sender, recipient, amount).0
    ensures Transfer(sender, recipient, amount).2.balance < 0
  {
  }
}
