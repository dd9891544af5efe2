/** Total-order ids: ledger, transaction and operation packed into one 64-bit number. */
module Toid {
  const LEDGER_UNIT: int := 0x1_0000_0000
  const TRANSACTION_UNIT: int := 0x1000
  const TRANSACTION_MASK: int := 0xf_ffff
  const OPERATION_MASK: int := 0xfff

  function Encode(ledger: nat, tx: nat, op: nat): int {
    ledger * LEDGER_UNIT + tx * TRANSACTION_UNIT + op
  }

  function AfterLedger(ledger: nat): int {
    Encode(ledger, TRANSACTION_MASK, OPERATION_MASK)
  }

  /** AfterLedger is the last id of its ledger: what follows is the next ledger's own id. */
  lemma AfterLedgerIsLast(ledger: nat)
    ensures AfterLedger(ledger) + 1 == Encode(ledger + 1, 0, 0)
  {
  }

  /** The fields fit their bits. */
  predicate InRange(ledger: nat, tx: nat, op: nat) {
    tx <= TRANSACTION_MASK && op <= OPERATION_MASK
  }

  /** Ids are ordered as their fields are, ledger first. */
  lemma EncodeOrder(l: nat, t: nat, o: nat, l': nat, t': nat, o': nat)
    requires InRange(l, t, o) && InRange(l', t', o')
    ensures Encode(l, t, o) < Encode(l', t', o') <==> l < l' || (l == l' && (t < t' || (t == t' && o < o')))
    ensures Encode(l, t, o) == Encode(l', t', o') <==> l == l' && t == t' && o == o'
  {
  }
}
