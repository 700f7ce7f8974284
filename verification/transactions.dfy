/**
 * Ledger entries. Amounts are whole minor currency units (paise), so the
 * Java implementation's `double` arithmetic is exact here; the entry's creation time is
 * a clock read and is not part of the model.
 */
module Transactions {

  /** The four type tags the Java implementation writes into an entry. */
  datatype TxType = OPEN | DEPOSIT | WITHDRAW | TRANSFER

  /**
   * One immutable ledger entry: its tag, the SIGNED amount it moved
   * (debits are negative), the account balance right after it, and a
   * free-text description.
   */
  datatype Transaction = Transaction(kind: TxType, amount: int, balanceAfter: int, description: string)

  /** The sum of the signed amounts of a history. */
  function Sum(h: seq<Transaction>): int
  {
    if h == [] then 0 else h[0].amount + Sum(h[1..])
  }

  /** Appending one entry adds exactly its signed amount to the sum. */
  lemma {:induction false} SumAppend(h: seq<Transaction>, t: Transaction)
    ensures Sum(h + [t]) == Sum(h) + t.amount
  {
    if h == [] {
      assert h + [t] == [t];
    } else {
      assert (h + [t])[1..] == h[1..] + [t];
      SumAppend(h[1..], t);
    }
  }
}
