/**
 * The bank: a name and a fixed map from user id to account, seeded once.
 * The map also plays the role of the heap: the Java implementation's accounts are
 * mutable objects reached through it, so an operation on an account is an
 * update of the map at that account's id.
 */
module Banking {

  import opened Wrappers
  import opened Transactions
  import Accounts

  type Account = Accounts.Account

  datatype Bank = Bank(name: string, accounts: map<string, Account>)

  /** The four ids the bank is seeded with; nothing ever adds or removes one. */
  const SeededIds: set<string> := {"user1", "user2", "user3", "admin"}

  /** Invariant of every reachable bank. */
  predicate Valid(b: Bank)
  {
    && b.accounts.Keys == SeededIds
    && forall id :: id in b.accounts ==> b.accounts[id].userId == id && Accounts.Valid(b.accounts[id])
  }

  /** The seeded bank; balances in paise (5000.00 is 500000). */
  function Initial(name: string): (b: Bank)
    ensures b.name == name
    ensures Valid(b)
    ensures forall id :: id in b.accounts ==> |b.accounts[id].history| == 1
  {
    Bank(name, map[
      "user1" := Accounts.Open("user1", "1234", "Shivani Chauhan", 500000),
      "user2" := Accounts.Open("user2", "5678", "Aditya Jadhav", 750000),
      "user3" := Accounts.Open("user3", "9012", "Pranav Bahir", 320000),
      "admin" := Accounts.Open("admin", "0000", "Administrator", 1000000)])
  }

  /** Lookup by id; None stands for Java's null. */
  function GetAccountById(b: Bank, id: string): (r: Option<Account>)
    ensures r.Some? <==> id in b.accounts
    ensures r.Some? ==> r.value == b.accounts[id]
  {
    if id in b.accounts then Some(b.accounts[id]) else None
  }

  /**
   * In a valid bank a lookup succeeds exactly for the seeded ids, and the
   * account found carries the id it was looked up by, so a transfer's
   * "To " description names the id the recipient was found under.
   */
  lemma LookupInValidBank(b: Bank, id: string)
    requires Valid(b)
    ensures GetAccountById(b, id).Some? <==> id in SeededIds
    ensures GetAccountById(b, id).Some? ==> GetAccountById(b, id).value.userId == id
  {
  }

  /** Lookup followed by the PIN check. */
  function Authenticate(b: Bank, u: string, p: string): (r: Option<Account>)
    ensures r.Some? <==> u in b.accounts && b.accounts[u].pin == p
    ensures r.Some? ==> r.value == b.accounts[u]
  {
    match GetAccountById(b, u)
    case Some(acc) => if Accounts.ValidatePin(acc, p) then Some(acc) else None
    case None => None
  }

  /** Exactly the four seeded id/PIN pairs log in to a freshly seeded bank. */
  lemma InitialLogins(name: string, u: string, p: string)
    ensures Authenticate(Initial(name), u, p).Some?
            <==> (u, p) in {("user1", "1234"), ("user2", "5678"), ("user3", "9012"), ("admin", "0000")}
  {
  }

  /**
   * The Java implementation's transfer run against the map as heap, in
   * its order: debit the sender, deposit into whatever account `to` names
   * (which is the debited sender when `to == from`), then log the TRANSFER
   * entry on the sender as it now stands.
   */
  function TransferInBank(b: Bank, from: string, to: string, amount: int): (res: (bool, Bank))
    requires from in b.accounts && to in b.accounts
    ensures res.0 <==> b.accounts[from].balance >= amount
    ensures res.1.name == b.name && res.1.accounts.Keys == b.accounts.Keys
    ensures forall id :: id in b.accounts && id != from && id != to ==> res.1.accounts[id] == b.accounts[id]
    ensures !res.0 ==> res.1 == b
  {
    var sender := b.accounts[from];
    if sender.balance >= amount then
      var m1 := b.accounts[from := sender.(balance := sender.balance - amount)];
      var m2 := m1[to := Accounts.Deposit(m1[to], amount)];
      var t := Transaction(TRANSFER, -amount, m2[from].balance, "To " + m2[to].userId);
      var m3 := m2[from := Accounts.Log(m2[from], t)];
      (true, b.(accounts := m3))
    else
      (false, b)
  }

  /** Between two distinct ids the bank transfer is the account-level Transfer. */
  lemma TransferInBankDistinct(b: Bank, from: string, to: string, amount: int)
    requires from in b.accounts && to in b.accounts && from != to
    ensures
      var res := Accounts.Transfer(b.accounts[from], b.accounts[to], amount);
      TransferInBank(b, from, to, amount)
        == (res.0, b.(accounts := b.accounts[from := res.1][to := res.2]))
  {
    var sender, recipient := b.accounts[from], b.accounts[to];
    if sender.balance >= amount {
      var res := Accounts.Transfer(sender, recipient, amount);
      var m1 := b.accounts[from := sender.(balance := sender.balance - amount)];
      assert m1[to] == recipient;
      var m2 := m1[to := Accounts.Deposit(recipient, amount)];
      assert m2[from] == sender.(balance := sender.balance - amount);
      var t := Transaction(TRANSFER, -amount, m2[from].balance, "To " + m2[to].userId);
      assert Accounts.Log(m2[from], t) == res.1;
      assert m2[from := Accounts.Log(m2[from], t)] == b.accounts[from := res.1][to := res.2];
    } else {
      assert b.accounts[from := sender][to := recipient] == b.accounts;
    }
  }

  /** From an id to itself the bank transfer is the account-level SelfTransfer. */
  lemma TransferInBankSelf(b: Bank, id: string, amount: int)
    requires id in b.accounts
    ensures
      var res := Accounts.SelfTransfer(b.accounts[id], amount);
      TransferInBank(b, id, id, amount) == (res.0, b.(accounts := b.accounts[id := res.1]))
  {
    var a := b.accounts[id];
    if a.balance >= amount {
      var res := Accounts.SelfTransfer(a, amount);
      var debited := a.(balance := a.balance - amount);
      var m1 := b.accounts[id := debited];
      var m2 := m1[id := Accounts.Deposit(debited, amount)];
      var t := Transaction(TRANSFER, -amount, m2[id].balance, "To " + m2[id].userId);
      assert Accounts.Log(m2[id], t) == res.1;
      assert m2[id := Accounts.Log(m2[id], t)] == b.accounts[id := res.1];
    } else {
      assert b.accounts[id := a] == b.accounts;
    }
  }

  /** Consequences of a bank transfer for the whole bank. */
  lemma TransferInBankPreserves(b: Bank, from: string, to: string, amount: int)
    requires from in b.accounts && to in b.accounts
    ensures forall id :: id in b.accounts ==>
              Accounts.SameOwner(b.accounts[id], TransferInBank(b, from, to, amount).1.accounts[id])
    ensures Valid(b) ==> Valid(TransferInBank(b, from, to, amount).1)
    ensures Total(TransferInBank(b, from, to, amount).1) == Total(b)
  {
    var after := TransferInBank(b, from, to, amount).1;
    if from == to {
      TransferInBankSelf(b, from, amount);
      TotalOfUpdate(b.accounts, b.accounts.Keys, from, after.accounts[from]);
    } else {
      TransferInBankDistinct(b, from, to, amount);
      var res := Accounts.Transfer(b.accounts[from], b.accounts[to], amount);
      TotalOfUpdate(b.accounts, b.accounts.Keys, from, res.1);
      TotalOfUpdate(b.accounts[from := res.1], b.accounts.Keys, to, res.2);
    }
  }

  /** The total of the balances held under `ids`. */
  ghost function TotalOf(m: map<string, Account>, ids: set<string>): int
    requires ids <= m.Keys
    decreases ids
  {
    if ids == {} then 0
    else
      var k :| k in ids;
      m[k].balance + TotalOf(m, ids - {k})
  }

  /** All the money the bank holds. */
  ghost function Total(b: Bank): int
  {
    TotalOf(b.accounts, b.accounts.Keys)
  }

  /** The total can be split at any id, not only at the one the definition picks. */
  lemma {:induction false} TotalOfSplit(m: map<string, Account>, ids: set<string>, k: string)
    requires ids <= m.Keys && k in ids
    ensures TotalOf(m, ids) == m[k].balance + TotalOf(m, ids - {k})
    decreases ids
  {
    var j :| j in ids && TotalOf(m, ids) == m[j].balance + TotalOf(m, ids - {j});
    if j != k {
      TotalOfSplit(m, ids - {j}, k);
      TotalOfSplit(m, ids - {k}, j);
      assert ids - {j} - {k} == ids - {k} - {j};
    }
  }

  /** The total depends only on the balances under `ids`. */
  lemma {:induction false} TotalOfFrame(m: map<string, Account>, n: map<string, Account>, ids: set<string>)
    requires ids <= m.Keys && ids <= n.Keys
    requires forall id :: id in ids ==> m[id].balance == n[id].balance
    ensures TotalOf(m, ids) == TotalOf(n, ids)
    decreases ids
  {
    if ids != {} {
      var k :| k in ids;
      TotalOfSplit(m, ids, k);
      TotalOfSplit(n, ids, k);
      TotalOfFrame(m, n, ids - {k});
    }
  }

  /** Replacing one account changes the total by exactly its change of balance. */
  lemma TotalOfUpdate(m: map<string, Account>, ids: set<string>, k: string, a: Account)
    requires ids <= m.Keys && k in ids
    ensures TotalOf(m[k := a], ids) == TotalOf(m, ids) - m[k].balance + a.balance
  {
    TotalOfSplit(m, ids, k);
    TotalOfSplit(m[k := a], ids, k);
    TotalOfFrame(m, m[k := a], ids - {k});
  }

  /** The three operations a logged-in session can apply to the bank. */
  datatype Request =
    | DepositTo(id: string, amount: int)
    | WithdrawFrom(id: string, amount: int)
    | TransferBetween(from: string, to: string, amount: int)

  /**
   * Applies one request. An id that names no account leaves the bank as
   * it is, as the session does when the lookup yields null. The flag says
   * whether the request took effect.
   */
  function Step(b: Bank, req: Request): (res: (bool, Bank))
    ensures res.1.name == b.name && res.1.accounts.Keys == b.accounts.Keys
    ensures !res.0 ==> res.1 == b
    ensures forall id :: id in b.accounts ==> Accounts.SameOwner(b.accounts[id], res.1.accounts[id])
    ensures Valid(b) ==> Valid(res.1)
    ensures req.DepositTo? ==> (res.0 <==> req.id in b.accounts)
    ensures req.WithdrawFrom? ==> (res.0 <==> req.id in b.accounts && b.accounts[req.id].balance >= req.amount)
    ensures req.TransferBetween? ==>
              (res.0 <==> req.from in b.accounts && req.to in b.accounts
                          && b.accounts[req.from].balance >= req.amount)
    ensures res.0 && req.DepositTo? ==> Total(res.1) == Total(b) + req.amount
    ensures res.0 && req.WithdrawFrom? ==> Total(res.1) == Total(b) - req.amount
    ensures req.TransferBetween? ==> Total(res.1) == Total(b)
    ensures req.DepositTo? && res.0 ==>
              res.1.accounts == b.accounts[req.id := Accounts.Deposit(b.accounts[req.id], req.amount)]
    ensures req.WithdrawFrom? && res.0 ==>
              res.1.accounts == b.accounts[req.id := Accounts.Withdraw(b.accounts[req.id], req.amount).1]
    ensures req.TransferBetween? && req.from in b.accounts && req.to in b.accounts ==>
              res == TransferInBank(b, req.from, req.to, req.amount)
  {
    match req
    case DepositTo(id, amount) =>
      if id in b.accounts then
        var a := Accounts.Deposit(b.accounts[id], amount);
        TotalOfUpdate(b.accounts, b.accounts.Keys, id, a);
        (true, b.(accounts := b.accounts[id := a]))
      else
        (false, b)
    case WithdrawFrom(id, amount) =>
      if id in b.accounts then
        var res := Accounts.Withdraw(b.accounts[id], amount);
        if res.0 then
          TotalOfUpdate(b.accounts, b.accounts.Keys, id, res.1);
          (true, b.(accounts := b.accounts[id := res.1]))
        else
          (false, b)
      else
        (false, b)
    case TransferBetween(from, to, amount) =>
      if from in b.accounts && to in b.accounts then
        TransferInBankPreserves(b, from, to, amount);
        TransferInBank(b, from, to, amount)
      else
        (false, b)
  }

  /** Applies a sequence of requests in order. */
  function Run(b: Bank, reqs: seq<Request>): (r: Bank)
    ensures r.name == b.name && r.accounts.Keys == b.accounts.Keys
    ensures forall id :: id in b.accounts ==> Accounts.SameOwner(b.accounts[id], r.accounts[id])
    ensures Valid(b) ==> Valid(r)
    decreases |reqs|
  {
    if reqs == [] then b else Run(Step(b, reqs[0]).1, reqs[1..])
  }

  /**
   * Every bank reachable from the seeded one holds exactly the four seeded
   * ids, each satisfying the ledger invariant.
   */
  lemma ReachableBanksAreValid(name: string, reqs: seq<Request>)
    ensures Run(Initial(name), reqs).accounts.Keys == SeededIds
    ensures Valid(Run(Initial(name), reqs))
  {
  }

  /** No request changes who can log in: ids and PINs are never modified. */
  lemma LoginsNeverChange(b: Bank, reqs: seq<Request>, u: string, p: string)
    ensures Authenticate(Run(b, reqs), u, p).Some? <==> Authenticate(b, u, p).Some?
  {
  }

  /** Transfers alone never create or destroy money. */
  lemma {:induction false} TransfersConserveTotal(b: Bank, reqs: seq<Request>)
    requires forall i :: 0 <= i < |reqs| ==> reqs[i].TransferBetween?
    ensures Total(Run(b, reqs)) == Total(b)
    decreases |reqs|
  {
    if reqs != [] {
      TransfersConserveTotal(Step(b, reqs[0]).1, reqs[1..]);
    }
  }

  /** Every account of the bank has a non-negative balance. */
  predicate NonNegative(b: Bank)
  {
    forall id :: id in b.accounts ==> b.accounts[id].balance >= 0
  }

  /** A request with a non-negative amount keeps every balance non-negative. */
  lemma StepKeepsNonNegative(b: Bank, req: Request)
    requires NonNegative(b) && req.amount >= 0
    ensures NonNegative(Step(b, req).1)
  {
    if req.TransferBetween? && req.from in b.accounts && req.to in b.accounts {
      if req.from == req.to {
        TransferInBankSelf(b, req.from, req.amount);
      } else {
        TransferInBankDistinct(b, req.from, req.to, req.amount);
      }
    }
  }

  /** Requests with non-negative amounts keep every balance non-negative. */
  lemma {:induction false} RunKeepsNonNegative(b: Bank, reqs: seq<Request>)
    requires NonNegative(b)
    requires forall i :: 0 <= i < |reqs| ==> reqs[i].amount >= 0
    ensures NonNegative(Run(b, reqs))
    decreases |reqs|
  {
    if reqs != [] {
      StepKeepsNonNegative(b, reqs[0]);
      RunKeepsNonNegative(Step(b, reqs[0]).1, reqs[1..]);
    }
  }
}
